/** What the server writes and the client's parser reads: event frames, error frames and heartbeats. */
module SseFrames {
  import opened Protocol
  import opened SseParser

  const KEEP_ALIVE_COMMENT: Bytes := [COLON, SPACE, 107, 101, 101, 112, 45, 97, 108, 105, 118, 101]
  const KEEP_ALIVE: Bytes := KEEP_ALIVE_COMMENT + [LF, LF]
  const ERROR: Bytes := [101, 114, 114, 111, 114]

  /** A text of one line, as serialised JSON is. */
  predicate OneLine(text: Bytes)
  {
    LF !in text && (text != [] ==> text[|text| - 1] != CR)
  }

  // ----- Complete lines ------------------------------------------------------

  lemma FindEnd(line: Bytes, rest: Bytes)
    requires LF !in line
    ensures Find(line + ([LF] + rest), LF) == Some(|line|)
  {
    var text := line + ([LF] + rest);
    assert text[|line|] == LF && forall i :: 0 <= i < |line| ==> text[i] == line[i];
    FoundAt(text, LF, |line|);
  }

  lemma FoundAt(s: Bytes, b: Byte, k: nat)
    requires k < |s| && s[k] == b && forall i :: 0 <= i < k ==> s[i] != b
    ensures Find(s, b) == Some(k)
  {
    var at := Find(s, b);
    assert s[k] in s;
    assert forall i :: 0 <= i < at.value ==> s[i] in s[..at.value];
  }

  lemma LineThen(line: Bytes, rest: Bytes, f: Frame, accept: Callback)
    requires OneLine(line)
    ensures var o := LineOutcome(f, line, accept);
      Lines(line + ([LF] + rest), f, accept) ==
        if o.error.Some? then Parse(line + ([LF] + rest), o.frame, o.error) else Lines(rest, o.frame, accept)
  {
    hide LineOutcome;
    var text := line + ([LF] + rest);
    FindEnd(line, rest);
    LinesStep(text, f, accept);
    assert text[..|line|] == line && text[|line| + 1..] == rest;
  }

  /** A line and an empty line, and what follows them. */
  lemma Closed(line: Bytes, rest: Bytes)
    ensures line + [LF, LF] + rest == line + ([LF] + ([] + ([LF] + rest)))
  {
  }

  lemma NoLines(f: Frame, accept: Callback)
    ensures Lines([], f, accept) == Parse([], f, None)
  {
  }

  // ----- Heartbeats ----------------------------------------------------------

  predicate BetweenFrames(f: Frame)
  {
    f.event == [] && f.data == []
  }

  lemma HeartbeatLines(f: Frame, rest: Bytes, accept: Callback)
    ensures var o := DispatchOutcome(f, accept);
      var p := Lines(KEEP_ALIVE + rest, f, accept);
      if o.error.Some? then p.frame == o.frame && p.error == o.error else p == Lines(rest, o.frame, accept)
  {
    hide Lines, DispatchOutcome;
    assert LineOutcome(f, KEEP_ALIVE_COMMENT, accept) == Outcome(f, None);
    assert LineOutcome(f, [], accept) == DispatchOutcome(f, accept);
    assert OneLine(KEEP_ALIVE_COMMENT) && OneLine([]);
    hide LineOutcome;
    Closed(KEEP_ALIVE_COMMENT, rest);
    LineThen(KEEP_ALIVE_COMMENT, [] + ([LF] + rest), f, accept);
    LineThen([], rest, f, accept);
  }

  /** Nothing is left of a text that ends with a line. */
  lemma {:induction false} NothingLeft(text: Bytes, f: Frame, accept: Callback)
    requires text == [] || text[|text| - 1] == LF
    requires Lines(text, f, accept).error.None?
    ensures Lines(text, f, accept).rest == []
    decreases |text|
  {
    hide Lines, LineOutcome, TrimReturn;
    LinesStep(text, f, accept);
    if text != [] {
      assert text[|text| - 1] in text;
      var k := Find(text, LF).value;
      NothingLeft(text[k + 1..], LineOutcome(f, TrimReturn(text[..k]), accept).frame, accept);
    }
  }

  /** A heartbeat emits nothing and changes nothing exactly when it comes between frames and not inside a line. */
  lemma HeartbeatIsSilentBetweenFrames(s: State, accept: Callback)
    requires Settled(s)
    ensures Feeding(s, KEEP_ALIVE, accept) == Fed(s, None) <==> s.buffer == [] && BetweenFrames(s.frame)
  {
    hide Lines;
    var text := s.buffer + KEEP_ALIVE;
    assert text[|text| - 1] == LF;
    if Lines(text, s.frame, accept).error.None? { NothingLeft(text, s.frame, accept); }
    if s.buffer == [] {
      assert text == KEEP_ALIVE + [];
      HeartbeatLines(s.frame, [], accept);
      NoLines(DispatchOutcome(s.frame, accept).frame, accept);
    }
  }

  // ----- What the server writes ----------------------------------------------

  datatype ServerFrame = Data(text: Bytes) | Failure(text: Bytes) | Heartbeat

  function DataBytes(text: Bytes): Bytes
  {
    DATA + [COLON, SPACE] + text + [LF, LF]
  }

  function FrameBytes(frame: ServerFrame): Bytes
  {
    match frame
    case Data(text) => DataBytes(text)
    case Failure(text) => EVENT + [COLON, SPACE] + ERROR + [LF] + DataBytes(text)
    case Heartbeat => KEEP_ALIVE
  }

  function Written(frames: seq<ServerFrame>): Bytes
  {
    if frames == [] then [] else FrameBytes(frames[0]) + Written(frames[1..])
  }

  function EventsOf(frames: seq<ServerFrame>): seq<Event>
  {
    if frames == [] then []
    else
      (match frames[0]
       case Data(text) => [Event([], text)]
       case Failure(text) => [Event([101, 114, 114, 111, 114], text)]
       case Heartbeat => []) + EventsOf(frames[1..])
  }

  predicate Sendable(frame: ServerFrame)
  {
    !frame.Heartbeat? ==> OneLine(frame.text)
  }

  lemma DataLine(f: Frame, text: Bytes, accept: Callback)
    requires OneLine(text)
    ensures OneLine(DATA + [COLON, SPACE] + text)
    ensures LineOutcome(f, DATA + [COLON, SPACE] + text, accept) == Outcome(f.(data := f.data + text + [LF]), None)
  {
    var line := DATA + [COLON, SPACE] + text;
    assert line[4] == COLON && forall i :: 0 <= i < 4 ==> line[i] == DATA[i] != COLON;
    FoundAt(line, COLON, 4);
    assert line[..4] == DATA && line[5..] == [SPACE] + text && TrimSpace(line[5..]) == text;
  }

  lemma ErrorLine(f: Frame, accept: Callback)
    ensures OneLine(EVENT + [COLON, SPACE] + ERROR)
    ensures LineOutcome(f, EVENT + [COLON, SPACE] + ERROR, accept) == Outcome(f.(event := ERROR), None)
  {
    var line := EVENT + [COLON, SPACE] + ERROR;
    assert line[5] == COLON && forall i :: 0 <= i < 5 ==> line[i] == EVENT[i] != COLON;
    FoundAt(line, COLON, 5);
    assert line[..5] == EVENT && line[6..] == [SPACE] + ERROR && TrimSpace(line[6..]) == ERROR;
  }

  /** The data line and the empty line behind it hand over the event. */
  lemma DataThen(f: Frame, text: Bytes, rest: Bytes, accept: Callback)
    requires OneLine(text) && f.data == [] && accept(f.log, Event(f.event, text))
    ensures Lines(DataBytes(text) + rest, f, accept) ==
      Lines(rest, Frame([], [], f.log + [Event(f.event, text)]), accept)
  {
    hide Lines, LineOutcome;
    var line := DATA + [COLON, SPACE] + text;
    DataLine(f, text, accept);
    Closed(line, rest);
    LineThen(line, [] + ([LF] + rest), f, accept);
    var g := f.(data := [] + text + [LF]);
    assert g.data[..|g.data| - 1] == text;
    LineThen([], rest, g, accept);
    EmptyLine(g, accept);
  }

  lemma EmptyLine(f: Frame, accept: Callback)
    ensures LineOutcome(f, [], accept) == DispatchOutcome(f, accept)
  {
  }

  lemma EventsOfOne(frame: ServerFrame)
    ensures EventsOf([frame]) ==
      match frame
      case Data(text) => [Event([], text)]
      case Failure(text) => [Event(ERROR, text)]
      case Heartbeat => []
  {
    assert [frame][1..] == [] && EventsOf([]) == [];
  }

  lemma FrameThen(frame: ServerFrame, rest: Bytes, log: seq<Event>, accept: Callback)
    requires Sendable(frame) && forall l, e :: accept(l, e)
    ensures Lines(FrameBytes(frame) + rest, Frame([], [], log), accept) ==
            Lines(rest, Frame([], [], log + EventsOf([frame])), accept)
  {
    hide Lines, LineOutcome, DataBytes;
    var f := Frame([], [], log);
    EventsOfOne(frame);
    match frame
    case Data(text) =>
      DataThen(f, text, rest, accept);
    case Failure(text) =>
      ErrorLine(f, accept);
      var line, data := EVENT + [COLON, SPACE] + ERROR, DataBytes(text);
      assert line + [LF] + data + rest == line + ([LF] + (data + rest));
      LineThen(line, data + rest, f, accept);
      DataThen(f.(event := ERROR), text, rest, accept);
    case Heartbeat =>
      HeartbeatLines(f, rest, accept);
      assert log + [] == log;
  }

  lemma {:induction false} FramesRead(frames: seq<ServerFrame>, log: seq<Event>, accept: Callback)
    requires (forall i :: 0 <= i < |frames| ==> Sendable(frames[i])) && forall l, e :: accept(l, e)
    ensures Lines(Written(frames), Frame([], [], log), accept) == Parse([], Frame([], [], log + EventsOf(frames)), None)
    decreases |frames|
  {
    hide FrameBytes;
    if frames == [] {
      NoLines(Frame([], [], log), accept);
      assert log + [] == log;
    } else {
      hide Lines;
      FrameThen(frames[0], Written(frames[1..]), log, accept);
      FramesRead(frames[1..], log + EventsOf([frames[0]]), accept);
      EventsSplit(frames);
      assert log + EventsOf([frames[0]]) + EventsOf(frames[1..]) ==
        log + (EventsOf([frames[0]]) + EventsOf(frames[1..]));
    }
  }

  lemma EventsSplit(frames: seq<ServerFrame>)
    requires frames != []
    ensures EventsOf(frames) == EventsOf([frames[0]]) + EventsOf(frames[1..])
  {
    assert [frames[0]][1..] == [] && EventsOf([]) == [];
  }

  /** Whatever the server writes, cut into chunks anyhow, is read back as its events in order; heartbeats leave no
      trace, and the stream ends cleanly. */
  lemma ServerFramesAreReadBack(frames: seq<ServerFrame>, chunks: seq<Bytes>, accept: Callback)
    requires (forall i :: 0 <= i < |frames| ==> Sendable(frames[i])) && forall l, e :: accept(l, e)
    requires Joined(chunks) == Written(frames)
    ensures var fed := FeedingAll(State([], Frame([], [], [])), chunks, accept);
      && fed == Fed(State([], Frame([], [], EventsOf(frames))), None)
      && Finishing(fed.state, accept) == fed
  {
    hide Lines, FeedingAll, Joined, Written;
    var s := State([], Frame([], [], []));
    FramesRead(frames, [], accept);
    ChunksDoNotMatter(s, chunks, accept);
    assert [] + Written(frames) == Written(frames) && [] + EventsOf(frames) == EventsOf(frames);
  }
}
