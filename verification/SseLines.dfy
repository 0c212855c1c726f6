/** The two line ends of an event stream: a stream reads the same with either. */
module SseLines {
  import opened Protocol
  import opened SseParser
  import opened SseFrames

  // ----- Line ends -------------------------------------------------------------

  /** The text with each line feed written as a carriage return and a line feed. */
  function Crlf(text: Bytes): Bytes
  {
    if text == [] then [] else (if text[0] == 10 then [13, 10] else [text[0]]) + Crlf(text[1..])
  }

  /** No line of the text ends in a carriage return already. */
  predicate PlainEnds(text: Bytes)
  {
    forall i :: 0 < i < |text| && text[i] == 10 ==> text[i - 1] != 13
  }

  lemma {:induction false} CrlfConcat(a: Bytes, b: Bytes)
    ensures Crlf(a + b) == Crlf(a) + Crlf(b)
  {
    if a == [] {
      assert a + b == b;
    } else {
      CrlfConcat(a[1..], b);
      assert (a + b)[1..] == a[1..] + b;
    }
  }

  lemma {:induction false} CrlfOfLine(line: Bytes)
    requires 10 !in line
    ensures Crlf(line) == line
  {
    if line != [] {
      assert line[0] in line && forall b :: b in line[1..] ==> b in line;
      CrlfOfLine(line[1..]);
    }
  }

  lemma CrlfFirstLine(text: Bytes, k: nat)
    requires k < |text| && text[k] == 10 && 10 !in text[..k]
    ensures Crlf(text) == text[..k] + ([13, 10] + Crlf(text[k + 1..]))
  {
    assert text == text[..k] + ([10] + text[k + 1..]);
    CrlfConcat(text[..k], [10] + text[k + 1..]);
    CrlfOfLine(text[..k]);
    assert ([10] + text[k + 1..])[1..] == text[k + 1..];
  }

  /** What the parser finds of the first line. */
  lemma FirstLineRead(text: Bytes, k: nat)
    requires PlainEnds(text) && k < |text| && text[k] == 10 && 10 !in text[..k]
    ensures TrimReturn(text[..k]) == text[..k]
    ensures var crlf := Crlf(text);
      && k + 2 <= |crlf| && Find(crlf, 10) == Some(k + 1) && TrimReturn(crlf[..k + 1]) == text[..k]
      && crlf[k + 2..] == Crlf(text[k + 1..])
  {
    hide Crlf;
    var crlf := Crlf(text);
    CrlfFirstLine(text, k);
    if k > 0 { assert text[..k][k - 1] == text[k - 1]; }
    forall i | 0 <= i < k ensures crlf[i] != 10 { assert crlf[i] == text[..k][i]; }
    assert crlf[k] == 13 && crlf[k + 1] == 10;
    FoundAt(crlf, 10, k + 1);
    assert crlf[..k + 1] == text[..k] + [13];
  }

  /** Lines that end in a carriage return and a line feed are read as those that end in a line feed. */
  lemma {:induction false} CrlfLines(text: Bytes, f: Frame, accept: Callback)
    requires PlainEnds(text)
    ensures var plain := Lines(text, f, accept);
      Lines(Crlf(text), f, accept) == Parse(Crlf(plain.rest), plain.frame, plain.error)
    decreases |text|
  {
    hide Lines, LineOutcome, TrimReturn, Crlf, PlainEnds;
    LinesStep(text, f, accept);
    LinesStep(Crlf(text), f, accept);
    var found := Find(text, 10);
    if found.None? {
      CrlfOfLine(text);
    } else {
      var k := found.value;
      FirstLineRead(text, k);
      RestIsPlain(text, k + 1);
      CrlfLines(text[k + 1..], LineOutcome(f, text[..k], accept).frame, accept);
    }
  }

  lemma RestIsPlain(text: Bytes, n: nat)
    requires PlainEnds(text) && n <= |text|
    ensures PlainEnds(text[n..])
  {
    forall i | 0 < i < |text[n..]| && text[n..][i] == 10 ensures text[n..][i - 1] != 13 {
      assert text[n + i] == 10 && text[n + i - 1] == text[n..][i - 1];
    }
  }

  /** However both are cut into chunks: a stream with its line feeds written as carriage return and line feed gives the
      events, the unfinished event and the first error of the stream itself. */
  lemma LineEndsDoNotMatter(s: State, text: Bytes, plain: seq<Bytes>, chunks: seq<Bytes>, accept: Callback)
    requires Settled(s) && PlainEnds(s.buffer + text) && Joined(plain) == text && Joined(chunks) == Crlf(text)
    ensures var a, b := FeedingAll(s, plain, accept), FeedingAll(s, chunks, accept);
      && a.state.frame == b.state.frame && a.error == b.error
      && (a.error.None? ==> a == b)
  {
    hide Lines, FeedingAll, Joined;
    ChunksDoNotMatter(s, plain, accept);
    ChunksDoNotMatter(s, chunks, accept);
    CrlfConcat(s.buffer, text);
    CrlfOfLine(s.buffer);
    CrlfLines(s.buffer + text, s.frame, accept);
    LinesSettle(s.buffer + text, s.frame, accept);
    if Feeding(s, text, accept).error.None? { CrlfOfLine(Lines(s.buffer + text, s.frame, accept).rest); }
  }

  // ----- The server's frames, with either line end -------------------------------

  lemma PlainConcat(a: Bytes, b: Bytes)
    requires PlainEnds(a) && PlainEnds(b) && (a != [] && b != [] && b[0] == 10 ==> a[|a| - 1] != 13)
    ensures PlainEnds(a + b)
  {
    forall i | 0 < i < |a + b| && (a + b)[i] == 10 ensures (a + b)[i - 1] != 13 {
      if i >= |a| + 1 { assert b[i - |a|] == 10 && b[i - |a| - 1] == (a + b)[i - 1]; }
    }
  }

  lemma ClosedIsPlain(line: Bytes)
    requires OneLine(line)
    ensures PlainEnds(line + [10, 10])
  {
    assert forall i :: 0 <= i < |line| ==> line[i] in line;
  }

  lemma FrameIsPlain(frame: ServerFrame)
    requires Sendable(frame)
    ensures var bytes := FrameBytes(frame); PlainEnds(bytes) && bytes != [] && bytes[|bytes| - 1] == 10
  {
    if frame.Heartbeat? {
      assert OneLine(KEEP_ALIVE_COMMENT);
      ClosedIsPlain(KEEP_ALIVE_COMMENT);
    } else {
      var line := DATA + [COLON, SPACE] + frame.text;
      DataLine(Frame([], [], []), frame.text, (l, e) => true);
      ClosedIsPlain(line);
      if frame.Failure? {
        var head := EVENT + [COLON, SPACE] + ERROR + [10];
        assert PlainEnds(head);
        PlainConcat(head, line + [10, 10]);
      }
    }
  }

  lemma {:induction false} WrittenIsPlain(frames: seq<ServerFrame>)
    requires forall i :: 0 <= i < |frames| ==> Sendable(frames[i])
    ensures PlainEnds(Written(frames))
    decreases |frames|
  {
    hide FrameBytes, PlainEnds;
    if frames == [] {
      assert PlainEnds([]) by { NothingIsPlain(); }
    } else {
      FrameIsPlain(frames[0]);
      WrittenIsPlain(frames[1..]);
      PlainConcat(FrameBytes(frames[0]), Written(frames[1..]));
    }
  }

  lemma NothingIsPlain()
    ensures PlainEnds([])
  {
  }

  /** The server's frames are read back too if a gateway writes their line ends as carriage return and line feed. */
  lemma CrlfFramesAreReadBack(frames: seq<ServerFrame>, chunks: seq<Bytes>, accept: Callback)
    requires (forall i :: 0 <= i < |frames| ==> Sendable(frames[i])) && forall l, e :: accept(l, e)
    requires Joined(chunks) == Crlf(Written(frames))
    ensures var fed := FeedingAll(State([], Frame([], [], [])), chunks, accept);
      && fed == Fed(State([], Frame([], [], EventsOf(frames))), None)
      && Finishing(fed.state, accept) == fed
  {
    hide Lines, FeedingAll, Written, Finishing, Crlf, PlainEnds;
    var s, whole := State([], Frame([], [], [])), [Written(frames)];
    assert Joined(whole) == Written(frames) by { assert whole[1..] == [] && Written(frames) + [] == Written(frames); }
    hide Joined;
    WrittenIsPlain(frames);
    assert [] + Written(frames) == Written(frames);
    ServerFramesAreReadBack(frames, whole, accept);
    LineEndsDoNotMatter(s, Written(frames), whole, chunks, accept);
  }
}
