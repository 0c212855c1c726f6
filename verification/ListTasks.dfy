/** Listing tasks: filters, the order of the listing, and the page tokens that name a place in it. */
module ListTasks {
  import opened Protocol
  import opened Decimal

  const DEFAULT_PAGE_SIZE: nat := 50
  const MAX_PAGE_SIZE: nat := 100
  const MAX_TIME: int := 0x7FFF_FFFF_FFFF_FFFF

  datatype Error = InvalidCursor | Validation | NotFound | NotCancelable | Internal

  datatype Cursor = Cursor(updatedAt: int, taskId: Bytes)

  datatype Request = Request(
    pageSize: nat,
    pageToken: Bytes,
    contextId: Bytes,
    statusFilter: Option<TaskState>,
    statusAfter: Option<Timestamp>,
    historyLength: Option<nat>,
    includeArtifacts: bool,
    includeTotalSize: bool)

  datatype Response = Response(
    tasks: seq<Task>,
    pageSize: nat,
    totalSize: nat,
    nextPageToken: Bytes,
    cursors: seq<Cursor>)

  // ----- Filters -------------------------------------------------------------

  predicate AtOrAfter(t: Timestamp, cutoff: Timestamp)
  {
    t.seconds > cutoff.seconds || (t.seconds == cutoff.seconds && t.nanos >= cutoff.nanos)
  }

  predicate Matches(task: Task, request: Request)
  {
    && (request.contextId == [] || task.contextId == request.contextId)
    && (request.statusFilter.None? || task.status.state == request.statusFilter.value)
    && (request.statusAfter.None? ||
        (task.status.timestamp.Some? && AtOrAfter(task.status.timestamp.value, request.statusAfter.value)))
  }

  /** The view of a task a listing shows: the last messages of its history, and artifacts only on request. */
  function Projected(task: Task, includeArtifacts: bool, historyLength: Option<nat>): Task
  {
    var kept := if historyLength.Some? && historyLength.value < |task.history| then historyLength.value
                else |task.history|;
    task.(artifacts := if includeArtifacts then task.artifacts else [],
          history := task.history[|task.history| - kept..])
  }

  // ----- The order of the listing --------------------------------------------

  /** Most recently updated first; among equals the greater id. */
  predicate Precedes(a: Cursor, b: Cursor)
  {
    if a.updatedAt != b.updatedAt then a.updatedAt > b.updatedAt else Less(b.taskId, a.taskId)
  }

  lemma PrecedesIrreflexive(a: Cursor)
    ensures !Precedes(a, a)
  {
    LessIrreflexive(a.taskId);
  }

  lemma PrecedesTransitive(a: Cursor, b: Cursor, c: Cursor)
    requires Precedes(a, b) && Precedes(b, c)
    ensures Precedes(a, c)
  {
    if a.updatedAt == b.updatedAt == c.updatedAt {
      LessTransitive(c.taskId, b.taskId, a.taskId);
    }
  }

  lemma PrecedesTotal(a: Cursor, b: Cursor)
    ensures Precedes(a, b) || a == b || Precedes(b, a)
  {
    LessTotal(a.taskId, b.taskId);
  }

  // ----- Page tokens ---------------------------------------------------------

  const PREFIX: Bytes := [97, 50, 97, 49, 95]
  const SEPARATOR: Byte := 58

  /** The cursors of stored tasks: 64-bit, non-negative times and non-empty ids. */
  predicate ValidCursor(c: Cursor)
  {
    0 <= c.updatedAt <= MAX_TIME && c.taskId != []
  }

  function Payload(c: Cursor): Bytes
  {
    SignedText(c.updatedAt) + [SEPARATOR] + c.taskId
  }

  function Hex(s: Bytes): Bytes
  {
    if s == [] then [] else [HexDigit(s[0] / 16), HexDigit(s[0] % 16)] + Hex(s[1..])
  }

  function Token(c: Cursor): Bytes
  {
    PREFIX + Hex(Payload(c))
  }

  lemma HexAppends(s: Bytes, b: Byte)
    ensures Hex(s + [b]) == Hex(s) + [HexDigit(b / 16), HexDigit(b % 16)]
  {
    if s == [] {
      assert s + [b] == [b];
      assert Hex([b][1..]) == [];
    } else {
      HexAppends(s[1..], b);
      assert (s + [b])[1..] == s[1..] + [b];
    }
  }

  method EncodeListPageToken(cursor: Cursor) returns (token: Bytes)
    ensures token == Token(cursor)
  {
    var payload := SignedText(cursor.updatedAt);
    payload := payload + [SEPARATOR];
    payload := payload + cursor.taskId;
    token := PREFIX;
    for i := 0 to |payload|
      invariant token == PREFIX + Hex(payload[..i])
    {
      var byte := payload[i];
      HexAppends(payload[..i], byte);
      assert payload[..i + 1] == payload[..i] + [byte];
      token := token + [HexDigit(byte / 16)];
      token := token + [HexDigit(byte % 16)];
    }
    assert payload[..|payload|] == payload == Payload(cursor);
  }

  lemma {:induction false} HexIsHex(s: Bytes)
    ensures |Hex(s)| == 2 * |s| && forall i :: 0 <= i < |Hex(s)| ==> HexValue(Hex(s)[i]).Some?
  {
    if s != [] {
      HexIsHex(s[1..]);
    }
  }

  lemma {:induction false} HexInjective(s: Bytes, t: Bytes)
    requires Hex(s) == Hex(t)
    ensures s == t
  {
    HexIsHex(s);
    HexIsHex(t);
    if s != [] {
      assert Hex(s)[0] == Hex(t)[0] && Hex(s)[1] == Hex(t)[1];
      assert Hex(s)[2..] == Hex(s[1..]) && Hex(t)[2..] == Hex(t[1..]);
      HexInjective(s[1..], t[1..]);
      assert s == [s[0]] + s[1..] && t == [t[0]] + t[1..];
    }
  }

  /** Separator, time and id are where a reader of the payload looks for them. */
  predicate Reads(payload: Bytes, c: Cursor)
  {
    var at := Find(payload, SEPARATOR);
    && at.Some? && at.value + 1 < |payload|
    && ReadSigned(payload[..at.value]) == Some(c.updatedAt)
    && payload[at.value + 1..] == c.taskId
  }

  /** The payload of a stored task's cursor reads back, whatever its id contains. */
  lemma PayloadReads(c: Cursor)
    requires ValidCursor(c)
    ensures Reads(Payload(c), c)
  {
    var p, text := Payload(c), Text(c.updatedAt);
    var at := Find(p, SEPARATOR);
    assert p[|text|] == SEPARATOR;
    assert forall i :: 0 <= i < |text| ==> p[i] == text[i] && p[i] != SEPARATOR;
    assert at.value == |text| && p[..at.value] == text;
    ReadsBack(c.updatedAt);
  }

  /** Tokens name cursors uniquely. */
  lemma TokenInjective(c: Cursor, d: Cursor)
    requires ValidCursor(c) && ValidCursor(d) && Token(c) == Token(d)
    ensures c == d
  {
    assert Hex(Payload(c)) == Token(c)[|PREFIX|..] && Hex(Payload(d)) == Token(d)[|PREFIX|..];
    HexInjective(Payload(c), Payload(d));
    PayloadReads(c);
    PayloadReads(d);
  }

  /** A token is "a2a1_" and the lower-case hexadecimal text of the decimal time, a colon and the id. */
  lemma TokenShape(c: Cursor)
    requires ValidCursor(c)
    ensures Token(c)[..5] == [97, 50, 97, 49, 95]
    ensures var payload := Text(c.updatedAt) + [58] + c.taskId;
      && |Token(c)| == 5 + 2 * |payload|
      && forall i :: 0 <= i < |payload| ==>
           && HexValue(Token(c)[5 + 2 * i]) == Some(payload[i] / 16)
           && HexValue(Token(c)[6 + 2 * i]) == Some(payload[i] % 16)
  {
    var payload := Payload(c);
    HexIsHex(payload);
    forall i | 0 <= i < |payload|
      ensures HexValue(Hex(payload)[2 * i]) == Some(payload[i] / 16)
      ensures HexValue(Hex(payload)[2 * i + 1]) == Some(payload[i] % 16)
    {
      HexAt(payload, i);
    }
  }

  lemma {:induction false} HexAt(s: Bytes, i: nat)
    requires i < |s|
    ensures |Hex(s)| == 2 * |s|
    ensures HexValue(Hex(s)[2 * i]) == Some(s[i] / 16) && HexValue(Hex(s)[2 * i + 1]) == Some(s[i] % 16)
  {
    HexIsHex(s);
    if i > 0 {
      HexAt(s[1..], i - 1);
      assert Hex(s)[2 * i] == Hex(s[1..])[2 * (i - 1)] && Hex(s)[2 * i + 1] == Hex(s[1..])[2 * (i - 1) + 1];
    }
  }

  ghost predicate IsToken(token: Bytes)
  {
    exists c :: ValidCursor(c) && token == Token(c)
  }

  /** What a token stands for: nothing if empty, the one cursor it encodes, or an error. */
  ghost function Boundary(token: Bytes): Result<Option<Cursor>, Error>
  {
    if token == [] then Ok(None)
    else if IsToken(token) then var c :| ValidCursor(c) && token == Token(c); Ok(Some(c))
    else Err(InvalidCursor)
  }

  lemma BoundaryOfToken(c: Cursor)
    requires ValidCursor(c)
    ensures Boundary(Token(c)) == Ok(Some(c))
  {
    var d :| ValidCursor(d) && Token(c) == Token(d) && Boundary(Token(c)) == Ok(Some(d));
    TokenInjective(c, d);
  }

  /** The token's digits, as bytes; nothing if one of them is no digit. */
  method Unhex(body: Bytes) returns (payload: Option<Bytes>)
    requires |body| % 2 == 0
    ensures payload.Some? ==> Hex(payload.value) == body
    ensures payload.None? ==> forall s :: Hex(s) != body
  {
    var bytes: Bytes := [];
    var index := 0;
    while index < |body|
      invariant index <= |body| && index % 2 == 0
      invariant Hex(bytes) == body[..index]
    {
      var high, low := HexValue(body[index]), HexValue(body[index + 1]);
      if high.None? || low.None? {
        forall s
          ensures Hex(s) != body
        {
          HexIsHex(s);
        }
        return None;
      }
      var byte := high.value * 16 + low.value;
      assert byte / 16 == high.value && byte % 16 == low.value;
      HexAppends(bytes, byte);
      assert body[..index + 2] == body[..index] + [body[index], body[index + 1]];
      bytes := bytes + [byte];
      index := index + 2;
    }
    assert body[..index] == body;
    return Some(bytes);
  }

  /** Accepts exactly the empty token and the encodings of cursors of stored tasks. */
  method ParseListPageToken(token: Bytes) returns (r: Result<Option<Cursor>, Error>)
    ensures r == Boundary(token) && (r.Err? ==> r.error == InvalidCursor)
  {
    if token == [] {
      return Ok(None);
    }
    if !(PREFIX <= token) {
      return Err(InvalidCursor);
    }
    var body := token[|PREFIX|..];
    forall c | Token(c) == token ensures Hex(Payload(c)) == body { assert Token(c)[|PREFIX|..] == body; }
    forall s | Hex(s) == body ensures |body| % 2 == 0 { HexIsHex(s); }
    if |body| % 2 != 0 {
      return Err(InvalidCursor);
    }
    var unhexed := Unhex(body);
    if unhexed.None? {
      return Err(InvalidCursor);
    }
    var payload := unhexed.value;
    forall c | ValidCursor(c) && Token(c) == token ensures payload == Payload(c) { HexInjective(payload, Payload(c)); }
    forall c | ValidCursor(c) ensures Reads(Payload(c), c) { PayloadReads(c); }
    var separator := Find(payload, SEPARATOR);
    if separator.None? || separator.value + 1 == |payload| {
      return Err(InvalidCursor);
    }
    var time := ReadSigned(payload[..separator.value]);
    if time.None? || time.value < 0 {
      return Err(InvalidCursor);
    }
    var cursor := Cursor(time.value, payload[separator.value + 1..]);
    var encoded := EncodeListPageToken(cursor);
    if encoded != token {
      return Err(InvalidCursor);
    }
    BoundaryOfToken(cursor);
    return Ok(Some(cursor));
  }
}
