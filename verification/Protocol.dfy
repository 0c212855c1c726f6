/** The A2A records the server components share, and the few byte-string notions they rest on. */
module Protocol {

  datatype Option<+T> = None | Some(value: T)

  datatype Result<+T, +E> = Ok(value: T) | Err(error: E)

  type Byte = b: int | 0 <= b < 256

  type Bytes = seq<Byte>

  /** Lexicographic order of bytes or code units, as `std::basic_string` compares. */
  predicate Less(a: seq<int>, b: seq<int>)
  {
    if b == [] then false
    else if a == [] then true
    else a[0] < b[0] || (a[0] == b[0] && Less(a[1..], b[1..]))
  }

  lemma {:induction false} LessIrreflexive(a: seq<int>)
    ensures !Less(a, a)
  {
    if a != [] {
      LessIrreflexive(a[1..]);
    }
  }

  lemma {:induction false} LessTransitive(a: seq<int>, b: seq<int>, c: seq<int>)
    requires Less(a, b) && Less(b, c)
    ensures Less(a, c)
  {
    if a != [] && a[0] == b[0] && b[0] == c[0] {
      LessTransitive(a[1..], b[1..], c[1..]);
    }
  }

  lemma {:induction false} LessTotal(a: seq<int>, b: seq<int>)
    ensures Less(a, b) || a == b || Less(b, a)
  {
    if a != [] && b != [] && a[0] == b[0] {
      LessTotal(a[1..], b[1..]);
      assert a == [a[0]] + a[1..] && b == [b[0]] + b[1..];
    }
  }

  /** The first place where they differ decides, or that one ends there. */
  predicate DecidedAt(a: seq<int>, b: seq<int>, k: nat)
  {
    && k <= |a| && k < |b| && a[..k] == b[..k]
    && (k == |a| || a[k] < b[k])
  }

  lemma {:induction false} LessIsLexicographic(a: seq<int>, b: seq<int>)
    ensures Less(a, b) <==> exists k: nat :: DecidedAt(a, b, k)
  {
    if a == [] || b == [] || a[0] != b[0] {
      assert b != [] && (a == [] || a[0] < b[0]) ==> DecidedAt(a, b, 0);
      assert forall k: nat :: DecidedAt(a, b, k) && k > 0 ==> a[..k][0] == b[..k][0];
    } else {
      LessIsLexicographic(a[1..], b[1..]);
      forall k: nat ensures DecidedAt(a[1..], b[1..], k) <==> DecidedAt(a, b, k + 1) { DecidedLater(a, b, k); }
      assert !DecidedAt(a, b, 0);
      if k: nat :| DecidedAt(a, b, k) { assert DecidedAt(a[1..], b[1..], k - 1); }
      if k: nat :| DecidedAt(a[1..], b[1..], k) { assert DecidedAt(a, b, k + 1); }
    }
  }

  lemma DecidedLater(a: seq<int>, b: seq<int>, k: nat)
    requires a != [] && b != [] && a[0] == b[0]
    ensures DecidedAt(a, b, k + 1) <==> DecidedAt(a[1..], b[1..], k)
  {
    if k + 1 <= |a| && k + 1 <= |b| {
      assert a[..k + 1] == [a[0]] + a[1..][..k] && b[..k + 1] == [b[0]] + b[1..][..k];
      assert a[..k + 1] == b[..k + 1] <==> a[1..][..k] == b[1..][..k] by {
        if a[..k + 1] == b[..k + 1] { assert a[1..][..k] == a[..k + 1][1..] && b[1..][..k] == b[..k + 1][1..]; }
      }
    }
  }

  /** A common prefix does not decide an order. */
  lemma {:induction false} LessCommonPrefix(p: seq<int>, a: seq<int>, b: seq<int>)
    ensures Less(p + a, p + b) <==> Less(a, b)
  {
    if p == [] {
      assert p + a == a && p + b == b;
    } else {
      LessCommonPrefix(p[1..], a, b);
      assert (p + a)[1..] == p[1..] + a && (p + b)[1..] == p[1..] + b;
    }
  }

  /** The lower-case hexadecimal digits. */
  function HexDigit(n: nat): Byte
    requires n < 16
  {
    if n < 10 then 48 + n else 87 + n
  }

  function HexValue(b: Byte): (v: Option<nat>)
    ensures v.Some? ==> v.value < 16 && HexDigit(v.value) == b
    ensures v.None? ==> forall n: nat :: n < 16 ==> HexDigit(n) != b
  {
    if 48 <= b <= 57 then Some(b - 48) else if 97 <= b <= 102 then Some(b - 87) else None
  }

  /** Where a byte first stands. */
  function Find(s: Bytes, b: Byte): (at: Option<nat>)
    ensures at.Some? ==> at.value < |s| && s[at.value] == b && b !in s[..at.value]
    ensures at.None? ==> b !in s
  {
    if s == [] then None
    else if s[0] == b then Some(0)
    else
      var at := Find(s[1..], b);
      if at.None? then None
      else
        assert s[..at.value + 1] == [s[0]] + s[1..][..at.value];
        Some(at.value + 1)
  }

  // ----- Tasks -------------------------------------------------------------

  datatype TaskState =
    | Unspecified
    | Submitted
    | Working
    | Completed
    | Failed
    | Canceled
    | InputRequired
    | Rejected
    | AuthRequired

  predicate IsTerminal(state: TaskState)
  {
    state.Completed? || state.Failed? || state.Canceled? || state.Rejected?
  }

  datatype Timestamp = Timestamp(seconds: int, nanos: int)

  datatype Status = Status(state: TaskState, timestamp: Option<Timestamp>, note: string)

  datatype Message = Message(id: Bytes, text: string)

  datatype Task = Task(id: Bytes, contextId: Bytes, status: Status, artifacts: seq<string>, history: seq<Message>)
}
