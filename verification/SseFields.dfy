/** Events as a sender may write them: data, name, id and retry fields with or without a space, comments, either line
    end, several data lines to an event; how they are read, what a bad line does, and how a stream may end. */
module SseFields {
  import opened Protocol
  import opened SseParser
  import opened SseFrames

  // ----- What a sender writes ---------------------------------------------------

  datatype Field =
    | DataField(value: Bytes)
    | EventField(value: Bytes)
    | IdField(value: Bytes)
    | RetryField(value: Bytes)
    | Comment(value: Bytes)

  /** A line, with or without a space before its value, ended with or without a carriage return. */
  datatype Line = Line(field: Field, space: bool, cr: bool)

  /** The lines of an event and the empty line behind them. */
  datatype Block = Block(lines: seq<Line>, cr: bool)

  function NameOf(field: Field): Bytes
  {
    match field
    case DataField(_) => [100, 97, 116, 97]
    case EventField(_) => [101, 118, 101, 110, 116]
    case IdField(_) => [105, 100]
    case RetryField(_) => [114, 101, 116, 114, 121]
    case Comment(_) => []
  }

  function LineText(l: Line): Bytes
  {
    NameOf(l.field) + ([58] + ((if l.space then [32] else []) + l.field.value))
  }

  function Ended(text: Bytes, cr: bool): Bytes
  {
    if cr then text + [13, 10] else text + [10]
  }

  /** The text of a line is one line, and a value that begins with a space is written behind one. */
  predicate Writable(l: Line)
  {
    && 10 !in LineText(l) && (!l.cr ==> LineText(l)[|LineText(l)| - 1] != 13)
    && (!l.space && !l.field.Comment? && l.field.value != [] ==> l.field.value[0] != 32)
  }

  function LinesText(lines: seq<Line>): Bytes
  {
    if lines == [] then [] else Ended(LineText(lines[0]), lines[0].cr) + LinesText(lines[1..])
  }

  function BlockText(b: Block): Bytes
  {
    LinesText(b.lines) + Ended([], b.cr)
  }

  function BlocksText(blocks: seq<Block>): Bytes
  {
    if blocks == [] then [] else BlockText(blocks[0]) + BlocksText(blocks[1..])
  }

  ghost predicate AllWritable(blocks: seq<Block>)
  {
    forall i, j :: 0 <= i < |blocks| && 0 <= j < |blocks[i].lines| ==> Writable(blocks[i].lines[j])
  }

  // ----- What it means ----------------------------------------------------------

  /** The values of the data lines. */
  function Values(lines: seq<Line>): seq<Bytes>
  {
    if lines == [] then []
    else (if lines[0].field.DataField? then [lines[0].field.value] else []) + Values(lines[1..])
  }

  function JoinedByFeeds(values: seq<Bytes>): Bytes
  {
    if values == [] then [] else if |values| == 1 then values[0] else values[0] + [10] + JoinedByFeeds(values[1..])
  }

  /** The name given last, or the one from before. */
  function NameAfter(name: Bytes, lines: seq<Line>): Bytes
    decreases |lines|
  {
    if lines == [] then name
    else NameAfter(if lines[0].field.EventField? then lines[0].field.value else name, lines[1..])
  }

  /** An event if a data line or a name was given: the name, and the data lines joined by line feeds. */
  function Means(lines: seq<Line>): seq<Event>
  {
    var name, values := NameAfter([], lines), Values(lines);
    if name == [] && values == [] then [] else [Event(name, JoinedByFeeds(values))]
  }

  function AllMean(blocks: seq<Block>): seq<Event>
  {
    if blocks == [] then [] else Means(blocks[0].lines) + AllMean(blocks[1..])
  }

  /** The events handed to the callback, up to the first it refuses. */
  function Offered(log: seq<Event>, events: seq<Event>, accept: Callback): (seq<Event>, bool)
    decreases |events|
  {
    if events == [] then (log, true)
    else if accept(log, events[0]) then Offered(log + [events[0]], events[1..], accept)
    else (log + [events[0]], false)
  }

  // ----- One line ---------------------------------------------------------------

  /** The frame with one more line read into it. */
  function With(f: Frame, field: Field): Frame
  {
    match field
    case DataField(value) => f.(data := f.data + value + [10])
    case EventField(value) => f.(event := value)
    case _ => f
  }

  lemma SplitAt(name: Bytes, value: Bytes)
    requires forall i :: 0 <= i < |name| ==> name[i] != 58
    ensures var line := name + ([58] + value);
      Find(line, 58) == Some(|name|) && line[..|name|] == name && line[|name| + 1..] == value
  {
    var line := name + ([58] + value);
    assert line[|name|] == 58 && forall i :: 0 <= i < |name| ==> line[i] == name[i];
    FoundAt(line, 58, |name|);
  }

  lemma LineIsSplit(l: Line)
    requires Writable(l)
    ensures var line, name := LineText(l), NameOf(l.field);
      && Find(line, 58) == Some(|name|) && line[..|name|] == name
      && (!l.field.Comment? ==> TrimSpace(line[|name| + 1..]) == l.field.value)
  {
    var value := (if l.space then [32] else []) + l.field.value;
    SplitAt(NameOf(l.field), value);
    assert l.space ==> value[1..] == l.field.value;
    assert !l.space ==> value == l.field.value;
  }

  lemma LineIsRead(f: Frame, l: Line, accept: Callback)
    requires Writable(l)
    ensures LineOutcome(f, LineText(l), accept) == Outcome(With(f, l.field), None)
  {
    LineIsSplit(l);
    hide LineText, TrimSpace, Writable;
  }

  lemma EndedLine(text: Bytes, cr: bool, rest: Bytes, f: Frame, accept: Callback)
    requires 10 !in text && (!cr && text != [] ==> text[|text| - 1] != 13)
    ensures var o := LineOutcome(f, text, accept);
      var p := Lines(Ended(text, cr) + rest, f, accept);
      if o.error.Some? then p.frame == o.frame && p.error == o.error else p == Lines(rest, o.frame, accept)
  {
    hide LineOutcome, Lines;
    var line := if cr then text + [13] else text;
    var whole := Ended(text, cr) + rest;
    assert whole == line + ([10] + rest);
    FindEnd(line, rest);
    LinesStep(whole, f, accept);
    assert whole[..|line|] == line && whole[|line| + 1..] == rest;
    assert TrimReturn(line) == text;
  }

  lemma {:induction false} LinesAreRead(lines: seq<Line>, rest: Bytes, f: Frame, accept: Callback)
    requires forall i :: 0 <= i < |lines| ==> Writable(lines[i])
    ensures Lines(LinesText(lines) + rest, f, accept) == Lines(rest, Assembled(f, lines), accept)
    decreases |lines|
  {
    hide LineOutcome, Lines, LineText, Ended;
    if lines == [] {
      assert LinesText(lines) + rest == rest;
    } else {
      var l, more := lines[0], LinesText(lines[1..]) + rest;
      assert LinesText(lines) + rest == Ended(LineText(l), l.cr) + more;
      LineIsRead(f, l, accept);
      EndedLine(LineText(l), l.cr, more, f, accept);
      LinesAreRead(lines[1..], rest, With(f, l.field), accept);
    }
  }

  // ----- Whole events -----------------------------------------------------------

  function Assembled(f: Frame, lines: seq<Line>): Frame
    decreases |lines|
  {
    if lines == [] then f else Assembled(With(f, lines[0].field), lines[1..])
  }

  /** Each value with a line feed behind it. */
  function Terminated(values: seq<Bytes>): Bytes
  {
    if values == [] then [] else values[0] + ([10] + Terminated(values[1..]))
  }

  lemma {:induction false} AssembledIs(f: Frame, lines: seq<Line>)
    ensures Assembled(f, lines) == Frame(NameAfter(f.event, lines), f.data + Terminated(Values(lines)), f.log)
    decreases |lines|
  {
    if lines != [] {
      AssembledIs(With(f, lines[0].field), lines[1..]);
      if lines[0].field.DataField? {
        var value, rest := lines[0].field.value, Values(lines[1..]);
        assert ([value] + rest)[1..] == rest;
        assert f.data + value + [10] + Terminated(rest) == f.data + (value + ([10] + Terminated(rest)));
      } else {
        assert [] + Values(lines[1..]) == Values(lines[1..]);
      }
    }
  }

  lemma {:induction false} TerminatedIsJoined(values: seq<Bytes>)
    requires values != []
    ensures Terminated(values) == JoinedByFeeds(values) + [10]
  {
    if |values| > 1 {
      TerminatedIsJoined(values[1..]);
    } else {
      assert values[1..] == [] && values[0] + ([10] + []) == values[0] + [10];
    }
  }

  lemma Dispatched(name: Bytes, values: seq<Bytes>, log: seq<Event>, accept: Callback)
    ensures var o := DispatchOutcome(Frame(name, Terminated(values), log), accept);
      var event := Event(name, JoinedByFeeds(values));
      if name == [] && values == [] then o == Outcome(Frame([], [], log), None)
      else o == Outcome(Frame([], [], log + [event]), if accept(log, event) then None else Some(Refused))
  {
    hide Terminated, JoinedByFeeds;
    NothingTerminated(values);
    if values != [] {
      TerminatedIsJoined(values);
      var data := Terminated(values);
      assert data[|data| - 1] == 10 && data[..|data| - 1] == JoinedByFeeds(values);
    } else {
      NothingJoined();
    }
  }

  /** Behind its lines the empty line hands over what they mean, or nothing. */
  lemma BlockIsDispatched(lines: seq<Line>, log: seq<Event>, accept: Callback)
    ensures var o := DispatchOutcome(Assembled(Frame([], [], log), lines), accept);
      var (after, accepted) := Offered(log, Means(lines), accept);
      o.frame == Frame([], [], after) && o.error == if accepted then None else Some(Refused)
  {
    hide Values, NameAfter, JoinedByFeeds, Terminated, DispatchOutcome, Assembled, Offered;
    AssembledIs(Frame([], [], log), lines);
    assert [] + Terminated(Values(lines)) == Terminated(Values(lines));
    Dispatched(NameAfter([], lines), Values(lines), log, accept);
    OfferedOne(log, Means(lines), accept);
  }

  lemma NothingJoined()
    ensures JoinedByFeeds([]) == []
  {
  }

  lemma OfferedOne(log: seq<Event>, events: seq<Event>, accept: Callback)
    requires |events| <= 1
    ensures Offered(log, events, accept) ==
      if events == [] then (log, true) else (log + events, accept(log, events[0]))
  {
    if events != [] { assert events[1..] == [] && events == [events[0]]; }
  }

  lemma BlockIsRead(b: Block, rest: Bytes, log: seq<Event>, accept: Callback)
    requires forall i :: 0 <= i < |b.lines| ==> Writable(b.lines[i])
    ensures var p := Lines(BlockText(b) + rest, Frame([], [], log), accept);
      var (after, accepted) := Offered(log, Means(b.lines), accept);
      if accepted then p == Lines(rest, Frame([], [], after), accept)
      else p.frame == Frame([], [], after) && p.error == Some(Refused)
  {
    hide LineOutcome, Lines, LinesText, Ended, DispatchOutcome, Means, Offered, Assembled, Writable;
    var f := Frame([], [], log);
    assert BlockText(b) + rest == LinesText(b.lines) + (Ended([], b.cr) + rest);
    LinesAreRead(b.lines, Ended([], b.cr) + rest, f, accept);
    EndedLine([], b.cr, rest, Assembled(f, b.lines), accept);
    EmptyLine(Assembled(f, b.lines), accept);
    BlockIsDispatched(b.lines, log, accept);
  }

  lemma {:induction false} OfferedConcat(log: seq<Event>, a: seq<Event>, b: seq<Event>, accept: Callback)
    ensures var (after, accepted) := Offered(log, a, accept);
      Offered(log, a + b, accept) == if accepted then Offered(after, b, accept) else (after, false)
    decreases |a|
  {
    if a == [] {
      assert a + b == b;
    } else if accept(log, a[0]) {
      OfferedConcat(log + [a[0]], a[1..], b, accept);
      assert (a + b)[1..] == a[1..] + b;
    }
  }

  lemma {:induction false} BlocksAreRead(blocks: seq<Block>, rest: Bytes, log: seq<Event>, accept: Callback)
    requires AllWritable(blocks)
    ensures var p := Lines(BlocksText(blocks) + rest, Frame([], [], log), accept);
      var (after, accepted) := Offered(log, AllMean(blocks), accept);
      if accepted then p == Lines(rest, Frame([], [], after), accept)
      else p.frame == Frame([], [], after) && p.error == Some(Refused)
    decreases |blocks|
  {
    hide Lines, BlockText, Means, Offered, Writable;
    if blocks == [] {
      assert BlocksText(blocks) + rest == rest;
      OfferedOne(log, [], accept);
    } else {
      var more := BlocksText(blocks[1..]) + rest;
      assert BlocksText(blocks) + rest == BlockText(blocks[0]) + more;
      BlockIsRead(blocks[0], more, log, accept);
      OfferedConcat(log, Means(blocks[0].lines), AllMean(blocks[1..]), accept);
      assert AllWritable(blocks[1..]) by {
        forall i, j | 0 <= i < |blocks[1..]| && 0 <= j < |blocks[1..][i].lines|
          ensures Writable(blocks[1..][i].lines[j])
        {
          assert blocks[1..][i] == blocks[i + 1];
        }
      }
      BlocksAreRead(blocks[1..], rest, Offered(log, Means(blocks[0].lines), accept).0, accept);
    }
  }

  // ----- Streams ----------------------------------------------------------------

  const START := State([], Frame([], [], []))

  /** Whatever events a sender writes, however it writes them and however they are cut into chunks: the callback is
      handed what they mean, in order, up to the first event it refuses; and if it refuses none the stream ends
      cleanly. */
  lemma StreamsAreReadBack(blocks: seq<Block>, chunks: seq<Bytes>, accept: Callback)
    requires AllWritable(blocks) && Joined(chunks) == BlocksText(blocks)
    ensures var fed := FeedingAll(START, chunks, accept);
      var (log, accepted) := Offered([], AllMean(blocks), accept);
      && fed.state.frame == Frame([], [], log) && fed.error == (if accepted then None else Some(Refused))
      && (accepted ==> Finishing(fed.state, accept) == fed)
  {
    hide Lines, FeedingAll, Joined, BlocksText, Offered, AllMean;
    BlocksAreRead(blocks, [], [], accept);
    ChunksDoNotMatter(START, chunks, accept);
    assert [] + BlocksText(blocks) == BlocksText(blocks) == BlocksText(blocks) + [];
    NoLines(Frame([], [], Offered([], AllMean(blocks), accept).0), accept);
  }

  /** A stream that ends inside an event, behind some of its lines, is reported exactly if they give data or a name. */
  lemma TruncationIsReported(blocks: seq<Block>, lines: seq<Line>, chunks: seq<Bytes>, accept: Callback)
    requires AllWritable(blocks) && (forall i :: 0 <= i < |lines| ==> Writable(lines[i]))
    requires Joined(chunks) == BlocksText(blocks) + LinesText(lines) && Offered([], AllMean(blocks), accept).1
    ensures var fed := FeedingAll(START, chunks, accept);
      && fed.error.None? && fed.state.frame.log == Offered([], AllMean(blocks), accept).0
      && Finishing(fed.state, accept).state.frame.log == fed.state.frame.log
      && Finishing(fed.state, accept).error == if Means(lines) == [] then None else Some(Unterminated)
  {
    hide Lines, FeedingAll, Joined, BlocksText, LinesText, Offered, AllMean, Assembled, Writable;
    var log := Offered([], AllMean(blocks), accept).0;
    BlocksAreRead(blocks, LinesText(lines), [], accept);
    LinesAreRead(lines, [], Frame([], [], log), accept);
    assert LinesText(lines) + [] == LinesText(lines);
    NoLines(Assembled(Frame([], [], log), lines), accept);
    ChunksDoNotMatter(START, chunks, accept);
    assert [] + (BlocksText(blocks) + LinesText(lines)) == BlocksText(blocks) + LinesText(lines);
    AssembledIs(Frame([], [], log), lines);
    NothingTerminated(Values(lines));
  }

  lemma NothingTerminated(values: seq<Bytes>)
    ensures [] + Terminated(values) == [] <==> values == []
    ensures Terminated(values) == [] <==> values == []
  {
  }

  /** The end of a stream stands for the end of its last line, if that does not end in a carriage return. */
  lemma FinishEndsTheLine(s: State, accept: Callback)
    requires Settled(s) && s.buffer != [] && s.buffer[|s.buffer| - 1] != CR
    ensures var fed, finished := Feeding(s, [LF], accept), Finishing(s, accept);
      if fed.error.Some? then finished.error == fed.error && finished.state.frame == fed.state.frame
      else finished == Finishing(fed.state, accept)
  {
    hide Lines, LineOutcome;
    LineThen(s.buffer, [], s.frame, accept);
    assert s.buffer + [LF] == s.buffer + ([LF] + []);
    NoLines(LineOutcome(s.frame, s.buffer, accept).frame, accept);
  }

  // ----- Bad lines --------------------------------------------------------------

  predicate KnownName(name: Bytes)
  {
    name == [100, 97, 116, 97] || name == [101, 118, 101, 110, 116] || name == [105, 100] ||
    name == [114, 101, 116, 114, 121]
  }

  /** A line without a colon fails, and leaves the event under way as it was. */
  lemma LineWithoutColon(f: Frame, line: Bytes, accept: Callback)
    requires line != [] && 58 !in line
    ensures LineOutcome(f, line, accept) == Outcome(f, Some(MissingSeparator))
  {
    assert line[0] in line;
  }

  /** With a name before the first colon a line fails exactly if the name is none of the four, and then leaves the event
      under way as it was. */
  lemma LineWithName(f: Frame, name: Bytes, value: Bytes, accept: Callback)
    requires name != [] && 58 !in name
    ensures var o := LineOutcome(f, name + [58] + value, accept);
      if KnownName(name) then o.error.None? else o == Outcome(f, Some(UnsupportedField(name)))
  {
    var line := name + [58] + value;
    SplitAt(name, value);
    assert line == name + ([58] + value) && line[0] == name[0];
  }
}
