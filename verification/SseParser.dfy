/** The incremental parser of server-sent events: a strict subset of section 9.2.6 of the WHATWG HTML standard. */
module SseParser {
  import opened Protocol

  const LF: Byte := 10
  const CR: Byte := 13
  const SPACE: Byte := 32
  const COLON: Byte := 58
  const EVENT: Bytes := [101, 118, 101, 110, 116]
  const DATA: Bytes := [100, 97, 116, 97]
  const ID: Bytes := [105, 100]
  const RETRY: Bytes := [114, 101, 116, 114, 121]

  datatype Event = Event(event: Bytes, data: Bytes)

  datatype Error = MissingSeparator | UnsupportedField(field: Bytes) | Refused | Unterminated

  /** Whether the event callback accepts an event, given those it was handed before. */
  type Callback = (seq<Event>, Event) -> bool

  /** The event being assembled, and the events handed to the callback. */
  datatype Frame = Frame(event: Bytes, data: Bytes, log: seq<Event>)

  datatype Outcome = Outcome(frame: Frame, error: Option<Error>)

  // ----- One line ------------------------------------------------------------

  function DispatchOutcome(f: Frame, accept: Callback): Outcome
  {
    if f.data == [] && f.event == [] then Outcome(f, None)
    else
      var data := if f.data != [] && f.data[|f.data| - 1] == LF then f.data[..|f.data| - 1] else f.data;
      var event := Event(f.event, data);
      Outcome(Frame([], [], f.log + [event]), if accept(f.log, event) then None else Some(Refused))
  }

  function TrimSpace(value: Bytes): Bytes
  {
    if value != [] && value[0] == SPACE then value[1..] else value
  }

  function LineOutcome(f: Frame, line: Bytes, accept: Callback): Outcome
  {
    if line == [] then DispatchOutcome(f, accept)
    else if line[0] == COLON then Outcome(f, None)
    else
      var separator := Find(line, COLON);
      if separator.None? then Outcome(f, Some(MissingSeparator))
      else
        var field, value := line[..separator.value], TrimSpace(line[separator.value + 1..]);
        if field == EVENT then Outcome(f.(event := value), None)
        else if field == DATA then Outcome(f.(data := f.data + value + [LF]), None)
        else if field == ID || field == RETRY then Outcome(f, None)
        else Outcome(f, Some(UnsupportedField(field)))
  }

  // ----- A text of lines -----------------------------------------------------

  function TrimReturn(line: Bytes): Bytes
  {
    if line != [] && line[|line| - 1] == CR then line[..|line| - 1] else line
  }

  /** What is left of a text when its lines are consumed, up to the first that fails. */
  datatype Parse = Parse(rest: Bytes, frame: Frame, error: Option<Error>)

  function Lines(text: Bytes, f: Frame, accept: Callback): Parse
    decreases |text|
  {
    var end := Find(text, LF);
    if end.None? then Parse(text, f, None)
    else
      var o := LineOutcome(f, TrimReturn(text[..end.value]), accept);
      if o.error.Some? then Parse(text, o.frame, o.error) else Lines(text[end.value + 1..], o.frame, accept)
  }

  lemma LinesStep(text: Bytes, f: Frame, accept: Callback)
    ensures Lines(text, f, accept) ==
      var end := Find(text, LF);
      if end.None? then Parse(text, f, None)
      else
        var o := LineOutcome(f, TrimReturn(text[..end.value]), accept);
        if o.error.Some? then Parse(text, o.frame, o.error) else Lines(text[end.value + 1..], o.frame, accept)
  {
    hide LineOutcome, TrimReturn;
  }

  /** The lines of the rest of a text end as those of the whole. */
  predicate GoesOn(whole: Parse, rest: Parse)
  {
    whole.frame == rest.frame && whole.error == rest.error && (whole.error.None? ==> whole == rest)
  }

  /** The parser: its line buffer and its frame. */
  datatype State = State(buffer: Bytes, frame: Frame)

  datatype Fed = Fed(state: State, error: Option<Error>)

  /** Feeding a chunk; when a line fails, the whole buffer stays. */
  function Feeding(s: State, chunk: Bytes, accept: Callback): Fed
  {
    var p := Lines(s.buffer + chunk, s.frame, accept);
    Fed(State(if p.error.None? then p.rest else s.buffer + chunk, p.frame), p.error)
  }

  function Finishing(s: State, accept: Callback): Fed
  {
    var o := if s.buffer == [] then Outcome(s.frame, None) else LineOutcome(s.frame, s.buffer, accept);
    if o.error.Some? then Fed(State(s.buffer, o.frame), o.error)
    else Fed(State([], o.frame), if o.frame.data != [] || o.frame.event != [] then Some(Unterminated) else None)
  }

  // ----- The parser as an object ---------------------------------------------

  class SseParser {
    var lineBuffer: Bytes
    var currentEvent: Bytes
    var currentData: Bytes

    /** The state, if these events were handed to the callback so far. */
    ghost function Value(log: seq<Event>): State
      reads this
    {
      State(lineBuffer, Frame(currentEvent, currentData, log))
    }

    constructor ()
      ensures Value([]) == State([], Frame([], [], []))
    {
      lineBuffer, currentEvent, currentData := [], [], [];
    }

    method DispatchEvent(accept: Callback, earlier: seq<Event>) returns (log: seq<Event>, error: Option<Error>)
      modifies this`currentEvent, this`currentData
      ensures Outcome(Frame(currentEvent, currentData, log), error) ==
              DispatchOutcome(old(Frame(currentEvent, currentData, earlier)), accept)
    {
      if currentData == [] && currentEvent == [] {
        return earlier, None;
      }
      if currentData != [] && currentData[|currentData| - 1] == LF {
        currentData := currentData[..|currentData| - 1];
      }
      var event := Event(currentEvent, currentData);
      currentEvent, currentData := [], [];
      return earlier + [event], if accept(earlier, event) then None else Some(Refused);
    }

    method ConsumeLine(line: Bytes, accept: Callback, earlier: seq<Event>)
      returns (log: seq<Event>, error: Option<Error>)
      modifies this`currentEvent, this`currentData
      ensures Outcome(Frame(currentEvent, currentData, log), error) ==
              LineOutcome(old(Frame(currentEvent, currentData, earlier)), line, accept)
    {
      if line == [] {
        log, error := DispatchEvent(accept, earlier);
        return;
      }
      if line[0] == COLON {
        return earlier, None;
      }
      var separator := Find(line, COLON);
      if separator.None? {
        return earlier, Some(MissingSeparator);
      }
      var field, value := line[..separator.value], TrimSpace(line[separator.value + 1..]);
      if field == EVENT {
        currentEvent := value;
        return earlier, None;
      }
      if field == DATA {
        currentData := currentData + value;
        currentData := currentData + [LF];
        return earlier, None;
      }
      if field == ID || field == RETRY {
        return earlier, None;
      }
      return earlier, Some(UnsupportedField(field));
    }

    method Feed(chunk: Bytes, accept: Callback, earlier: seq<Event>) returns (log: seq<Event>, error: Option<Error>)
      modifies this
      ensures Fed(Value(log), error) == Feeding(old(Value(earlier)), chunk, accept)
    {
      hide Lines, LineOutcome, TrimReturn;
      lineBuffer := lineBuffer + chunk;
      log := earlier;
      ghost var text := lineBuffer;
      ghost var whole := Lines(text, Frame(currentEvent, currentData, earlier), accept);
      var lineStart := 0;
      var lineEnd := Find(lineBuffer, LF);
      assert text[0..] == text;
      while lineEnd.Some?
        invariant lineStart <= |lineBuffer| && lineBuffer == text
        invariant lineEnd == Find(lineBuffer[lineStart..], LF)
        invariant GoesOn(whole, Lines(text[lineStart..], Frame(currentEvent, currentData, log), accept))
        decreases |lineBuffer| - lineStart
      {
        ghost var remaining := text[lineStart..];
        LinesStep(remaining, Frame(currentEvent, currentData, log), accept);
        var line := lineBuffer[lineStart..lineStart + lineEnd.value];
        assert line == remaining[..lineEnd.value];
        assert text[lineStart + lineEnd.value + 1..] == remaining[lineEnd.value + 1..];
        line := TrimReturn(line);
        log, error := ConsumeLine(line, accept, log);
        if error.Some? {
          return;
        }
        lineStart := lineStart + lineEnd.value + 1;
        lineEnd := Find(lineBuffer[lineStart..], LF);
      }
      LinesStep(text[lineStart..], Frame(currentEvent, currentData, log), accept);
      lineBuffer := lineBuffer[lineStart..];
      error := None;
    }

    method Finish(accept: Callback, earlier: seq<Event>) returns (log: seq<Event>, error: Option<Error>)
      modifies this
      ensures Fed(Value(log), error) == Finishing(old(Value(earlier)), accept)
    {
      log := earlier;
      if lineBuffer != [] {
        log, error := ConsumeLine(lineBuffer, accept, log);
        if error.Some? {
          return;
        }
        lineBuffer := [];
      }
      if currentData != [] || currentEvent != [] {
        return log, Some(Unterminated);
      }
      return log, None;
    }
  }

  // ----- Chunks do not matter ------------------------------------------------

  lemma FindAppends(text: Bytes, more: Bytes, b: Byte)
    requires Find(text, b).Some?
    ensures Find(text + more, b) == Find(text, b)
  {
    var k, n := Find(text, b).value, Find(text + more, b);
    assert (text + more)[k] == b;
    assert b !in text[..k] && b !in (text + more)[..n.value];
  }

  /** More text goes on where the lines of the first part stop. */
  lemma {:induction false} LinesContinue(text: Bytes, more: Bytes, f: Frame, accept: Callback)
    ensures var p := Lines(text, f, accept);
      var whole := Lines(text + more, f, accept);
      if p.error.Some? then whole.frame == p.frame && whole.error == p.error
      else whole == Lines(p.rest + more, p.frame, accept)
    decreases |text|
  {
    hide LineOutcome, TrimReturn;
    if Find(text, LF).Some? {
      var k := Find(text, LF).value;
      FindAppends(text, more, LF);
      assert (text + more)[..k] == text[..k] && (text + more)[k + 1..] == text[k + 1..] + more;
      var o := LineOutcome(f, TrimReturn(text[..k]), accept);
      if o.error.None? {
        LinesContinue(text[k + 1..], more, o.frame, accept);
      }
    }
  }

  /** Feeding chunk after chunk, up to the first that fails. */
  function FeedingAll(s: State, chunks: seq<Bytes>, accept: Callback): Fed
    decreases |chunks|
  {
    if chunks == [] then Fed(s, None)
    else
      var first := Feeding(s, chunks[0], accept);
      if first.error.Some? then first else FeedingAll(first.state, chunks[1..], accept)
  }

  function Joined(chunks: seq<Bytes>): Bytes
  {
    if chunks == [] then [] else chunks[0] + Joined(chunks[1..])
  }

  /** A state that feeding leaves: no line waits in the buffer. */
  ghost predicate Settled(s: State)
  {
    LF !in s.buffer
  }

  lemma {:induction false} LinesSettle(text: Bytes, f: Frame, accept: Callback)
    ensures Lines(text, f, accept).error.None? ==> LF !in Lines(text, f, accept).rest
    decreases |text|
  {
    hide LineOutcome, TrimReturn;
    if Find(text, LF).Some? {
      var k := Find(text, LF).value;
      LinesSettle(text[k + 1..], LineOutcome(f, TrimReturn(text[..k]), accept).frame, accept);
    }
  }

  /** However a stream is cut into chunks: the events, the unfinished event and the first error are those of feeding it
      whole, and so is the buffer if no line fails. */
  lemma {:induction false} ChunksDoNotMatter(s: State, chunks: seq<Bytes>, accept: Callback)
    requires Settled(s)
    ensures var parts, whole := FeedingAll(s, chunks, accept), Feeding(s, Joined(chunks), accept);
      && parts.state.frame == whole.state.frame && parts.error == whole.error
      && (parts.error.None? ==> parts.state == whole.state)
    decreases |chunks|
  {
    hide Lines;
    if chunks == [] {
      assert s.buffer + [] == s.buffer;
      LinesStep(s.buffer, s.frame, accept);
    } else {
      var first, more := Feeding(s, chunks[0], accept), Joined(chunks[1..]);
      assert s.buffer + (chunks[0] + more) == s.buffer + chunks[0] + more;
      LinesContinue(s.buffer + chunks[0], more, s.frame, accept);
      LinesSettle(s.buffer + chunks[0], s.frame, accept);
      if first.error.None? {
        ChunksDoNotMatter(first.state, chunks[1..], accept);
      }
    }
  }

  lemma {:induction false} LinesShorten(text: Bytes, f: Frame, accept: Callback)
    requires Lines(text, f, accept).error.None?
    ensures if LF in text then |Lines(text, f, accept).rest| < |text| else Lines(text, f, accept).rest == text
    decreases |text|
  {
    hide LineOutcome, TrimReturn;
    if Find(text, LF).Some? {
      var k := Find(text, LF).value;
      LinesShorten(text[k + 1..], LineOutcome(f, TrimReturn(text[..k]), accept).frame, accept);
    }
  }

  lemma {:induction false} BufferIsBounded(s: State, chunks: seq<Bytes>, accept: Callback)
    ensures |FeedingAll(s, chunks, accept).state.buffer| <= |s.buffer| + |Joined(chunks)|
    decreases |chunks|
  {
    hide Lines;
    if chunks != [] {
      var first := Feeding(s, chunks[0], accept);
      if first.error.None? {
        LinesShorten(s.buffer + chunks[0], s.frame, accept);
        BufferIsBounded(first.state, chunks[1..], accept);
      }
    }
  }

  /** No chunk ends a line, or nothing follows the first that does. */
  predicate OneChunkOfLines(chunks: seq<Bytes>)
  {
    chunks == [] || if LF in chunks[0] then Joined(chunks[1..]) == [] else OneChunkOfLines(chunks[1..])
  }

  /** The remaining buffer does depend on the chunks when a line fails: feeding them leaves the state of feeding the
      stream whole exactly if no line fails, or nothing follows the first chunk that ends a line. */
  lemma {:induction false} BufferAfterChunks(s: State, chunks: seq<Bytes>, accept: Callback)
    requires Settled(s)
    ensures var parts, whole := FeedingAll(s, chunks, accept), Feeding(s, Joined(chunks), accept);
      parts.state == whole.state <==> whole.error.None? || OneChunkOfLines(chunks)
    decreases |chunks|
  {
    hide Lines;
    ChunksDoNotMatter(s, chunks, accept);
    if chunks != [] {
      var first, more := Feeding(s, chunks[0], accept), Joined(chunks[1..]);
      assert s.buffer + (chunks[0] + more) == s.buffer + chunks[0] + more;
      LinesStep(s.buffer + chunks[0], s.frame, accept);
      if first.error.None? {
        LinesShorten(s.buffer + chunks[0], s.frame, accept);
        LinesSettle(s.buffer + chunks[0], s.frame, accept);
        if LF in chunks[0] {
          assert more == [] ==> s.buffer + chunks[0] + more == s.buffer + chunks[0];
          BufferIsBounded(first.state, chunks[1..], accept);
        } else {
          BufferAfterChunks(first.state, chunks[1..], accept);
        }
      }
    }
  }

  lemma JoinedTwo(a: Bytes, b: Bytes)
    ensures Joined([a, b]) == a + b
  {
    assert [a, b][1..] == [b] && [b][1..] == [] && b + [] == b;
    assert Joined([b]) == b + Joined([]);
  }

  lemma CutInTwo(s: State, a: Bytes, b: Bytes, accept: Callback)
    ensures var first := Feeding(s, a, accept);
      FeedingAll(s, [a, b], accept) == if first.error.Some? then first else Feeding(first.state, b, accept)
  {
    hide Lines;
    var first := Feeding(s, a, accept);
    assert [a, b][1..] == [b];
    if first.error.None? {
      var second := Feeding(first.state, b, accept);
      assert [b][1..] == [];
      assert FeedingAll(second.state, [], accept) == Fed(second.state, None);
      assert FeedingAll(first.state, [b], accept) == second;
    }
  }

  /** A comment line, and after it a line without a separator: cut between them, the comment is gone from the buffer. */
  lemma BufferCanDiffer(accept: Callback)
    ensures var s := State([], Frame([], [], []));
      var parts := FeedingAll(s, [[COLON, LF], [CR, CR, LF]], accept);
      var whole := Feeding(s, [COLON, LF] + [CR, CR, LF], accept);
      parts.error == whole.error == Some(MissingSeparator) && parts.state != whole.state
  {
    hide Lines, FeedingAll;
    var s := State([], Frame([], [], []));
    var a, b: Bytes := [COLON, LF], [CR, CR, LF];
    BufferAfterChunks(s, [a, b], accept);
    assert [a, b][1..] == [b] && Joined([b]) == b + [];
    ChunksDoNotMatter(s, [a, b], accept);
    JoinedTwo(a, b);
    CutInTwo(s, a, b, accept);
    CommentLine(s.frame, accept);
    BareLine(s.frame, accept);
    assert s.buffer + a == a && [] + b == b;
    assert a[1] == LF;
  }

  lemma CommentLine(f: Frame, accept: Callback)
    ensures Lines([COLON, LF], f, accept) == Parse([], f, None)
  {
    var text: Bytes := [COLON, LF];
    assert Find(text, LF) == Some(1) by { assert Find(text[1..], LF) == Some(0); }
    assert text[..1] == [COLON] && text[2..] == [];
  }

  lemma BareLine(f: Frame, accept: Callback)
    ensures Lines([CR, CR, LF], f, accept) == Parse([CR, CR, LF], f, Some(MissingSeparator))
  {
    var text: Bytes := [CR, CR, LF];
    assert Find(text, LF) == Some(2) by {
      assert text[1..] == [CR, LF] && [CR, LF][1..] == [LF];
      assert Find([LF], LF) == Some(0) && Find([CR, LF], LF) == Some(1);
    }
    assert TrimReturn(text[..2]) == [CR];
    assert Find([CR], COLON) == None by { assert [CR][1..] == []; }
  }
}
