/** Task ids: version 7 UUIDs of sections 5.7 and 6.2 of RFC 9562, from a clock that may go back. */
module TaskIdGenerator {
  import opened Protocol

  const UUID_BYTES: nat := 16
  const TIMESTAMPS: nat := 0x1_0000_0000_0000
  const SEQUENCES: nat := 0x1000
  const INITIAL_SEQUENCES: nat := 0x400
  const DASH: Byte := 45
  const PREFIX: Bytes := [116, 97, 115, 107, 45]

  datatype Error = NoRandomness | SequenceOverflow

  /** The clock's signed count of milliseconds, as an unsigned 64-bit number. */
  function Unsigned(time: int): nat
  {
    time % 0x1_0000_0000_0000_0000
  }

  /** The generator's fields: the latest timestamp used, and the counter within it. */
  datatype Clock = Clock(last: nat, sequence: nat)

  /** What a call gets from outside: the time in milliseconds, and random bytes. */
  datatype Input = Input(now: nat, random: seq<Byte>)

  predicate ValidInput(input: Input)
  {
    |input.random| == UUID_BYTES
  }

  function Wrapped(counter: nat): (n: nat)
    ensures n < SEQUENCES
  {
    counter % SEQUENCES
  }

  /** The locked section; an overflow leaves the counter at zero. */
  function Tick(c: Clock, input: Input): Clock
    requires ValidInput(input)
  {
    if input.now > c.last then Clock(input.now, (input.random[6] * 256 + input.random[7]) % INITIAL_SEQUENCES)
    else Clock(c.last, Wrapped(c.sequence + 1))
  }

  lemma UnsignedIs(time: int)
    requires -0x8000_0000_0000_0000 <= time < 0x8000_0000_0000_0000
    ensures Unsigned(time) == if time >= 0 then time else time + 0x1_0000_0000_0000_0000
  {
  }

  /** A later time starts the counter at the low ten bits of two random bytes. */
  lemma CounterStarts(c: Clock, input: Input)
    requires ValidInput(input) && input.now > c.last
    ensures var start, high, low := Tick(c, input).sequence, input.random[6] as int, input.random[7] as int;
      Tick(c, input).last == input.now && start < 1024 && exists q: nat :: high * 256 + low == 1024 * q + start
  {
    var n := input.random[6] as int * 256 + input.random[7] as int;
    assert n == 1024 * (n / 1024) + n % 1024;
  }

  predicate Overflows(c: Clock, input: Input)
  {
    input.now <= c.last && Wrapped(c.sequence + 1) == 0
  }

  // ----- The text of an id ---------------------------------------------------

  function HexByte(b: Byte): Bytes
  {
    [HexDigit(b / 16), HexDigit(b % 16)]
  }

  function HexBytes(s: seq<Byte>): Bytes
  {
    if s == [] then [] else HexByte(s[0]) + HexBytes(s[1..])
  }

  /** Timestamp, version and counter, variant, and random bytes. */
  function Packed(c: Clock, random: seq<Byte>): seq<Byte>
    requires |random| == UUID_BYTES && c.sequence < SEQUENCES
  {
    var t := c.last % TIMESTAMPS;
    [t / 0x100_0000_0000, t / 0x1_0000_0000 % 256, t / 0x100_0000 % 256, t / 0x1_0000 % 256, t / 256 % 256, t % 256] +
    [0x70 + c.sequence / 256, c.sequence % 256] + [random[8] % 64 + 128] + random[9..]
  }

  function Text(b: seq<Byte>): Bytes
    requires |b| == UUID_BYTES
  {
    PREFIX + (HexBytes(b[..4]) + ([DASH] + (HexBytes(b[4..6]) + ([DASH] + (HexBytes(b[6..8]) + Tail(b))))))
  }

  function Tail(b: seq<Byte>): Bytes
    requires |b| == UUID_BYTES
  {
    [DASH] + HexBytes(b[8..10]) + [DASH] + HexBytes(b[10..])
  }

  function IdOf(c: Clock, random: seq<Byte>): Bytes
    requires |random| == UUID_BYTES && c.sequence < SEQUENCES
  {
    Text(Packed(c, random))
  }

  // ----- The generator as an object ------------------------------------------

  class UuidV7TaskIdGenerator {
    var lastTimestamp: nat
    var sequence: nat

    ghost function Value(): Clock
      reads this
    {
      Clock(lastTimestamp, sequence)
    }

    ghost predicate Valid()
      reads this
    {
      sequence < SEQUENCES
    }

    constructor ()
      ensures Valid() && Value() == Clock(0, 0)
    {
      lastTimestamp, sequence := 0, 0;
    }

    method GenerateTaskId(time: int, random: Option<seq<Byte>>) returns (r: Result<Bytes, Error>)
      requires Valid() && (random.Some? ==> |random.value| == UUID_BYTES)
      modifies this
      ensures Valid()
      ensures random.None? ==> r == Err(NoRandomness) && Value() == old(Value())
      ensures random.Some? ==>
        var input := Input(Unsigned(time), random.value);
        && Value() == Tick(old(Value()), input)
        && r == if Overflows(old(Value()), input) then Err(SequenceOverflow) else Ok(IdOf(Value(), random.value))
    {
      hide Packed, Text;
      if random.None? {
        return Err(NoRandomness);
      }
      var bytes := new Byte[UUID_BYTES](i requires 0 <= i < UUID_BYTES => random.value[i]);
      var now := Unsigned(time);
      var effective := if now > lastTimestamp then now else lastTimestamp;
      if effective > lastTimestamp {
        lastTimestamp := effective;
        sequence := (bytes[6] * 256 + bytes[7]) % INITIAL_SEQUENCES;
      } else {
        sequence := (sequence + 1) % SEQUENCES;
        if sequence == 0 {
          return Err(SequenceOverflow);
        }
      }
      assert bytes[..] == random.value;
      Pack(bytes, effective, sequence);
      return Ok(Text(bytes[..]));
    }

    /** Overwrites the random bytes with timestamp, version and counter, and variant. */
    static method Pack(bytes: array<Byte>, effective: nat, sequence: nat)
      requires bytes.Length == UUID_BYTES && sequence < SEQUENCES
      modifies bytes
      ensures bytes[..] == Packed(Clock(effective, sequence), old(bytes[..]))
    {
      ghost var packed := Packed(Clock(effective, sequence), bytes[..]);
      PackedAt(Clock(effective, sequence), bytes[..]);
      var t := effective % TIMESTAMPS;
      hide Packed;
      bytes[0] := t / 0x100_0000_0000;
      bytes[1] := t / 0x1_0000_0000 % 256;
      bytes[2] := t / 0x100_0000 % 256;
      bytes[3] := t / 0x1_0000 % 256;
      bytes[4] := t / 256 % 256;
      bytes[5] := t % 256;
      bytes[6] := 0x70 + sequence / 256;
      bytes[7] := sequence % 256;
      bytes[8] := bytes[8] % 64 + 128;
      assert forall i :: 0 <= i < UUID_BYTES ==> bytes[i] == packed[i];
    }
  }

  lemma PackedAt(c: Clock, random: seq<Byte>)
    requires |random| == UUID_BYTES && c.sequence < SEQUENCES
    ensures var b, t := Packed(c, random), c.last % TIMESTAMPS;
      && |b| == UUID_BYTES
      && b[0] == t / 0x100_0000_0000 && b[1] == t / 0x1_0000_0000 % 256 && b[2] == t / 0x100_0000 % 256
      && b[3] == t / 0x1_0000 % 256 && b[4] == t / 256 % 256 && b[5] == t % 256
      && b[6] == 0x70 + c.sequence / 256 && b[7] == c.sequence % 256 && b[8] == random[8] % 64 + 128
      && forall i :: 9 <= i < UUID_BYTES ==> b[i] == random[i]
  {
  }

  // ----- Fixed-width numbers compare as their texts ---------------------------

  function Pow16(k: nat): nat
  {
    if k == 0 then 1 else 16 * Pow16(k - 1)
  }

  /** The `k` hexadecimal digits of a number below 16 to the `k`. */
  function HexNumber(n: nat, k: nat): Bytes
    requires n < Pow16(k)
    decreases k
  {
    if k == 0 then [] else HexNumber(n / 16, k - 1) + [HexDigit(n % 16)]
  }

  lemma {:induction false} HexNumberOrder(m: nat, n: nat, k: nat, x: Bytes, y: Bytes)
    requires m < n < Pow16(k)
    ensures Less(HexNumber(m, k) + x, HexNumber(n, k) + y)
    decreases k
  {
    var a, b := HexNumber(m / 16, k - 1), HexNumber(n / 16, k - 1);
    var p, q: Bytes := [HexDigit(m % 16)] + x, [HexDigit(n % 16)] + y;
    assert HexNumber(m, k) + x == a + p && HexNumber(n, k) + y == b + q;
    if m / 16 < n / 16 {
      HexNumberOrder(m / 16, n / 16, k - 1, p, q);
    } else {
      assert Less(p, q);
      LessCommonPrefix(a, p, q);
    }
  }

  lemma HexNumberSplit(n: nat, k: nat)
    requires n < Pow16(k + 2)
    ensures n / 256 < Pow16(k) && HexNumber(n, k + 2) == HexNumber(n / 256, k) + HexByte(n % 256)
  {
    assert Pow16(k + 2) == 16 * Pow16(k + 1) && Pow16(k + 1) == 16 * Pow16(k);
    assert n / 16 / 16 == n / 256 && n / 16 % 16 == n % 256 / 16 && n % 16 == n % 256 % 16;
  }

  lemma Powers()
    ensures Pow16(0) == 1 && Pow16(2) == 256 && Pow16(4) == 0x1_0000
    ensures Pow16(6) == 0x100_0000 && Pow16(8) == 0x1_0000_0000
  {
    assert Pow16(1) == 16 && Pow16(2) == 256 && Pow16(3) == 4096 && Pow16(4) == 0x1_0000;
    assert Pow16(5) == 0x10_0000 && Pow16(6) == 0x100_0000 && Pow16(7) == 0x1000_0000;
  }

  lemma HexBytesAppend(s: seq<Byte>, b: Byte)
    ensures HexBytes(s + [b]) == HexBytes(s) + HexByte(b)
  {
    if s == [] {
      assert s + [b] == [b] && HexBytes([b][1..]) == [];
    } else {
      HexBytesAppend(s[1..], b);
      assert (s + [b])[1..] == s[1..] + [b];
    }
  }

  lemma OneByte(n: Byte)
    ensures n < Pow16(2) && HexNumber(n, 2) == HexBytes([n])
  {
    Powers();
    HexNumberSplit(n, 0);
    NoDigits(n / 256);
    BytesOfOne(n);
    hide HexNumber, HexBytes, HexByte, Pow16;
    assert n % 256 == n && [] + HexByte(n) == HexByte(n);
  }

  lemma NoDigits(n: nat)
    requires n < Pow16(0)
    ensures HexNumber(n, 0) == []
  {
  }

  lemma BytesOfOne(b: Byte)
    ensures HexBytes([b]) == HexByte(b)
  {
    assert [b][1..] == [] && HexBytes([]) == [];
  }

  lemma TwoBytes(n: nat)
    requires n < 0x1_0000
    ensures n < Pow16(4) && HexNumber(n, 4) == HexBytes([n / 256, n % 256])
  {
    hide HexNumber, HexBytes, HexByte, Pow16;
    Powers();
    HexNumberSplit(n, 2);
    OneByte(n / 256);
    HexBytesAppend([n / 256], n % 256);
    assert [n / 256] + [n % 256] == [n / 256, n % 256];
  }

  lemma FourBytes(n: nat)
    requires n < 0x1_0000_0000
    ensures n < Pow16(8) && HexNumber(n, 8) == HexBytes([n / 0x100_0000, n / 0x1_0000 % 256, n / 256 % 256, n % 256])
  {
    hide HexNumber, HexBytes, HexByte, Pow16;
    Powers();
    var high := n / 0x1_0000;
    assert n / 256 / 256 == high && high / 256 == n / 0x100_0000;
    HexNumberSplit(n, 6);
    HexNumberSplit(n / 256, 4);
    TwoBytes(high);
    HexBytesAppend([high / 256, high % 256], n / 256 % 256);
    HexBytesAppend([high / 256, high % 256, n / 256 % 256], n % 256);
    assert [high / 256, high % 256] + [n / 256 % 256] == [high / 256, high % 256, n / 256 % 256];
    assert [high / 256, high % 256, n / 256 % 256] + [n % 256] == [high / 256, high % 256, n / 256 % 256, n % 256];
  }

  /** The id as a text of fixed-width numbers: timestamp, version and counter, and the rest. */
  function Numbers(high: nat, low: nat, counter: nat, rest: Bytes): Bytes
    requires high < Pow16(8) && low < Pow16(4) && counter < Pow16(4)
  {
    PREFIX + (HexNumber(high, 8) + ([DASH] + (HexNumber(low, 4) + ([DASH] + (HexNumber(counter, 4) + rest)))))
  }

  lemma IdShape(c: Clock, random: seq<Byte>)
    requires |random| == UUID_BYTES && c.sequence < SEQUENCES
    ensures var t := c.last % TIMESTAMPS;
      && t / 0x1_0000 < Pow16(8) && t % 0x1_0000 < Pow16(4) && 0x7000 + c.sequence < Pow16(4)
      && IdOf(c, random) == Numbers(t / 0x1_0000, t % 0x1_0000, 0x7000 + c.sequence, Tail(Packed(c, random)))
  {
    hide Packed, Tail, HexNumber, HexBytes;
    HighHex(c, random);
    LowHex(c, random);
    CounterHex(c, random);
    PackedAt(c, random);
  }

  lemma HighHex(c: Clock, random: seq<Byte>)
    requires |random| == UUID_BYTES && c.sequence < SEQUENCES
    ensures var t := c.last % TIMESTAMPS;
      t / 0x1_0000 < Pow16(8) && HexBytes(Packed(c, random)[..4]) == HexNumber(t / 0x1_0000, 8)
  {
    hide Packed, HexNumber, HexBytes;
    var b, t := Packed(c, random), c.last % TIMESTAMPS;
    PackedAt(c, random);
    HighDigits(t);
    FourBytes(t / 0x1_0000);
    assert b[..4] == [t / 0x100_0000_0000, t / 0x1_0000_0000 % 256, t / 0x100_0000 % 256, t / 0x1_0000 % 256];
  }

  lemma LowHex(c: Clock, random: seq<Byte>)
    requires |random| == UUID_BYTES && c.sequence < SEQUENCES
    ensures var t := c.last % TIMESTAMPS;
      t % 0x1_0000 < Pow16(4) && HexBytes(Packed(c, random)[4..6]) == HexNumber(t % 0x1_0000, 4)
  {
    hide Packed, HexNumber, HexBytes;
    var b, t := Packed(c, random), c.last % TIMESTAMPS;
    PackedAt(c, random);
    LowDigits(t);
    TwoBytes(t % 0x1_0000);
    assert b[4..6] == [t / 256 % 256, t % 256];
  }

  lemma CounterHex(c: Clock, random: seq<Byte>)
    requires |random| == UUID_BYTES && c.sequence < SEQUENCES
    ensures 0x7000 + c.sequence < Pow16(4) && HexBytes(Packed(c, random)[6..8]) == HexNumber(0x7000 + c.sequence, 4)
  {
    hide Packed, HexNumber, HexBytes;
    PackedAt(c, random);
    TwoBytes(0x7000 + c.sequence);
    assert Packed(c, random)[6..8] == [0x70 + c.sequence / 256, c.sequence % 256];
  }

  lemma HighDigits(t: nat)
    ensures t / 0x1_0000 / 0x100_0000 == t / 0x100_0000_0000 && t / 0x1_0000 / 0x1_0000 == t / 0x1_0000_0000
    ensures t / 0x1_0000 / 256 == t / 0x100_0000
  {
  }

  lemma LowDigits(t: nat)
    ensures t % 0x1_0000 / 256 == t / 256 % 256 && t % 0x1_0000 % 256 == t % 256
  {
    assert t == t / 0x1_0000 * 0x1_0000 + t % 0x1_0000;
  }

  // ----- What an id shows -----------------------------------------------------------

  /** Each byte is two lower-case hexadecimal digits. */
  lemma {:induction false} HexBytesAt(s: seq<Byte>, i: nat)
    requires i < |s|
    ensures |HexBytes(s)| == 2 * |s|
    ensures HexBytes(s)[2 * i] == HexDigit(s[i] / 16) && HexBytes(s)[2 * i + 1] == HexDigit(s[i] % 16)
  {
    HexBytesLength(s);
    HexBytesLength(s[1..]);
    if i > 0 { HexBytesAt(s[1..], i - 1); }
  }

  /** The text is "task-" and the bytes in groups of 4, 2, 2, 2 and 6, with dashes between them. */
  lemma TextShows(b: seq<Byte>)
    requires |b| == UUID_BYTES
    ensures Text(b) ==
      [116, 97, 115, 107, 45] + HexBytes(b[..4]) + [45] + HexBytes(b[4..6]) + [45] + HexBytes(b[6..8]) + [45] +
      HexBytes(b[8..10]) + [45] + HexBytes(b[10..])
  {
    hide HexBytes;
  }

  /** Six bytes as one number, the first the highest. */
  function SixBytes(a: int, b: int, c: int, d: int, e: int, f: int): int
  {
    ((((a * 256 + b) * 256 + c) * 256 + d) * 256 + e) * 256 + f
  }

  /** Its bytes show the time modulo 2 to the 48, version 7, the counter, the RFC's variant and the random bytes. */
  lemma PackedShows(c: Clock, random: seq<Byte>)
    requires |random| == UUID_BYTES && c.sequence < SEQUENCES
    ensures var b := Packed(c, random);
      && SixBytes(b[0], b[1], b[2], b[3], b[4], b[5]) == c.last % 0x1_0000_0000_0000
      && b[6] / 16 == 7 && SixBytes(0, 0, 0, 0, b[6] % 16, b[7]) == c.sequence
      && b[8] / 64 == 2 && b[8] % 64 == random[8] % 64 && b[9..] == random[9..]
  {
    PackedAt(c, random);
    hide Packed;
    var t := c.last % TIMESTAMPS;
    Horner(t);
  }

  lemma Horner(t: nat)
    ensures t == SixBytes(t / 0x100_0000_0000, t / 0x1_0000_0000 % 256, t / 0x100_0000 % 256, t / 0x1_0000 % 256,
                          t / 256 % 256, t % 256)
  {
    var a, b, d, e := t / 256, t / 0x1_0000, t / 0x100_0000, t / 0x1_0000_0000;
    assert b == a / 256 && d == b / 256 && e == d / 256 && t / 0x100_0000_0000 == e / 256;
    assert e / 256 * 256 + e % 256 == e && e * 256 + d % 256 == d && d * 256 + b % 256 == b && b * 256 + a % 256 == a;
  }

  // ----- Ids compare as timestamp and counter ---------------------------------

  /** The earlier in the order of timestamp, as far as it fits the id, and counter. */
  predicate Earlier(a: Clock, b: Clock)
  {
    var s, t := a.last % TIMESTAMPS, b.last % TIMESTAMPS;
    s < t || (s == t && a.sequence < b.sequence)
  }

  lemma NumbersOrder(high: nat, low: nat, counter: nat, x: Bytes, high': nat, low': nat, counter': nat, y: Bytes)
    requires high < Pow16(8) && low < Pow16(4) && counter < Pow16(4)
    requires high' < Pow16(8) && low' < Pow16(4) && counter' < Pow16(4)
    requires high < high' || (high == high' && (low < low' || (low == low' && counter < counter')))
    ensures Less(Numbers(high, low, counter, x), Numbers(high', low', counter', y))
  {
    hide HexNumber, Less;
    var p, q := HexNumber(counter, 4) + x, HexNumber(counter', 4) + y;
    var r, s := HexNumber(low, 4) + ([DASH] + p), HexNumber(low', 4) + ([DASH] + q);
    if high < high' {
      HexNumberOrder(high, high', 8, [DASH] + r, [DASH] + s);
    } else {
      if low < low' {
        HexNumberOrder(low, low', 4, [DASH] + p, [DASH] + q);
      } else {
        HexNumberOrder(counter, counter', 4, x, y);
        LessCommonPrefix([DASH], p, q);
        LessCommonPrefix(HexNumber(low, 4), [DASH] + p, [DASH] + q);
      }
      LessCommonPrefix([DASH], r, s);
      LessCommonPrefix(HexNumber(high, 8), [DASH] + r, [DASH] + s);
    }
    LessCommonPrefix(PREFIX, HexNumber(high, 8) + ([DASH] + r), HexNumber(high', 8) + ([DASH] + s));
  }

  lemma EarlierIdsAreLess(a: Clock, x: seq<Byte>, b: Clock, y: seq<Byte>)
    requires |x| == |y| == UUID_BYTES && a.sequence < SEQUENCES && b.sequence < SEQUENCES && Earlier(a, b)
    ensures Less(IdOf(a, x), IdOf(b, y))
  {
    hide Less, Numbers, IdOf, Pow16;
    var s, t := a.last % TIMESTAMPS, b.last % TIMESTAMPS;
    IdShape(a, x);
    IdShape(b, y);
    NumbersOrder(s / 0x1_0000, s % 0x1_0000, 0x7000 + a.sequence, Tail(Packed(a, x)),
                 t / 0x1_0000, t % 0x1_0000, 0x7000 + b.sequence, Tail(Packed(b, y)));
  }

  /** Ids of different timestamp or counter compare as those do, and in no other way. */
  lemma IdsCompareAsClocks(a: Clock, x: seq<Byte>, b: Clock, y: seq<Byte>)
    requires |x| == |y| == UUID_BYTES && a.sequence < SEQUENCES && b.sequence < SEQUENCES
    requires a.last % TIMESTAMPS != b.last % TIMESTAMPS || a.sequence != b.sequence
    ensures Less(IdOf(a, x), IdOf(b, y)) <==> Earlier(a, b)
  {
    hide Less, IdOf;
    if Earlier(a, b) {
      EarlierIdsAreLess(a, x, b, y);
    } else {
      EarlierIdsAreLess(b, y, a, x);
      if Less(IdOf(a, x), IdOf(b, y)) {
        LessTransitive(IdOf(a, x), IdOf(b, y), IdOf(a, x));
        LessIrreflexive(IdOf(a, x));
      }
    }
  }

  // ----- Runs ----------------------------------------------------------------

  /** The generator after the first `n` calls. */
  function After(c: Clock, inputs: seq<Input>, n: nat): Clock
    requires n <= |inputs| && forall i :: 0 <= i < |inputs| ==> ValidInput(inputs[i])
    decreases n
  {
    if n == 0 then c else Tick(After(c, inputs, n - 1), inputs[n - 1])
  }

  lemma {:induction false} AfterIsValid(c: Clock, inputs: seq<Input>, n: nat)
    requires n <= |inputs| && (forall i :: 0 <= i < |inputs| ==> ValidInput(inputs[i])) && c.sequence < SEQUENCES
    ensures After(c, inputs, n).sequence < SEQUENCES
    decreases n
  {
    if n > 0 { AfterIsValid(c, inputs, n - 1); }
  }

  /** No call between the `i`-th and the `j`-th overflows. */
  ghost predicate NoOverflow(c: Clock, inputs: seq<Input>, i: nat, j: nat)
    requires j <= |inputs| && forall k :: 0 <= k < |inputs| ==> ValidInput(inputs[k])
  {
    forall k :: i <= k < j ==> !Overflows(After(c, inputs, k), inputs[k])
  }

  lemma CountsUp(counter: nat)
    requires counter < SEQUENCES
    ensures Wrapped(counter + 1) == if counter == SEQUENCES - 1 then 0 else counter + 1
  {
  }

  lemma {:induction false} ClockAdvances(c: Clock, inputs: seq<Input>, i: nat, j: nat)
    requires i < j <= |inputs| && (forall k :: 0 <= k < |inputs| ==> ValidInput(inputs[k])) && c.sequence < SEQUENCES
    requires NoOverflow(c, inputs, i, j)
    ensures var a, b := After(c, inputs, i), After(c, inputs, j);
      a.last < b.last || (a.last == b.last && a.sequence < b.sequence)
    decreases j - i
  {
    hide Wrapped;
    AfterIsValid(c, inputs, j - 1);
    CountsUp(After(c, inputs, j - 1).sequence);
    assert !Overflows(After(c, inputs, j - 1), inputs[j - 1]);
    if i < j - 1 { ClockAdvances(c, inputs, i, j - 1); }
  }

  /** The id of the `n`-th call. */
  function IdAt(c: Clock, inputs: seq<Input>, n: nat): Bytes
    requires 0 < n <= |inputs| && (forall i :: 0 <= i < |inputs| ==> ValidInput(inputs[i])) && c.sequence < SEQUENCES
  {
    AfterIsValid(c, inputs, n);
    IdOf(After(c, inputs, n), inputs[n - 1].random)
  }

  lemma EarlierBelow(a: Clock, b: Clock)
    requires b.last < TIMESTAMPS && (a.last < b.last || (a.last == b.last && a.sequence < b.sequence))
    ensures Earlier(a, b)
  {
  }

  /** Whatever the clock does, over a stretch without overflow and below 2 to the 48 milliseconds, later ids are greater
      as strings. */
  lemma IdsIncrease(c: Clock, inputs: seq<Input>, i: nat, j: nat)
    requires 0 < i < j <= |inputs| && forall k :: 0 <= k < |inputs| ==> ValidInput(inputs[k])
    requires c.sequence < SEQUENCES && NoOverflow(c, inputs, i, j) && After(c, inputs, j).last < TIMESTAMPS
    ensures Less(IdAt(c, inputs, i), IdAt(c, inputs, j))
  {
    hide Less, IdOf, After, Earlier;
    AfterIsValid(c, inputs, i);
    AfterIsValid(c, inputs, j);
    ClockAdvances(c, inputs, i, j);
    EarlierBelow(After(c, inputs, i), After(c, inputs, j));
    EarlierIdsAreLess(After(c, inputs, i), inputs[i - 1].random, After(c, inputs, j), inputs[j - 1].random);
  }

  /** Some time of the calls after the `i`-th lies beyond the latest up to it. */
  ghost predicate MovesOn(c: Clock, inputs: seq<Input>, i: nat, j: nat)
    requires i <= j <= |inputs| && forall k :: 0 <= k < |inputs| ==> ValidInput(inputs[k])
  {
    exists k :: i <= k < j && inputs[k].now > After(c, inputs, i).last
  }

  /** The timestamp moves exactly with a later time; until then the counter counts the calls. */
  lemma {:induction false} ClockCounts(c: Clock, inputs: seq<Input>, i: nat, j: nat)
    requires i <= j <= |inputs| && (forall k :: 0 <= k < |inputs| ==> ValidInput(inputs[k])) && c.sequence < SEQUENCES
    ensures var a, b := After(c, inputs, i), After(c, inputs, j);
      if MovesOn(c, inputs, i, j) then a.last < b.last
      else b == Clock(a.last, Wrapped(a.sequence + (j - i)))
    decreases j - i
  {
    hide Wrapped;
    if i == j {
      AfterIsValid(c, inputs, i);
      NotWrapped(After(c, inputs, i).sequence);
    } else {
      ClockCounts(c, inputs, i, j - 1);
      var a, b := After(c, inputs, i), After(c, inputs, j - 1);
      if MovesOn(c, inputs, i, j - 1) {
        var k :| i <= k < j - 1 && inputs[k].now > a.last;
        assert i <= k < j && inputs[k].now > a.last;
      } else if inputs[j - 1].now > a.last {
        assert MovesOn(c, inputs, i, j);
      } else {
        assert !MovesOn(c, inputs, i, j);
        CountOn(a.sequence + (j - 1 - i));
      }
    }
  }

  lemma CountOn(n: nat)
    ensures Wrapped(Wrapped(n) + 1) == Wrapped(n + 1)
  {
  }

  lemma NotWrapped(n: nat)
    requires n < SEQUENCES
    ensures Wrapped(n) == n
  {
  }

  /** Overflows or not, below 2 to the 48 milliseconds: a later id is greater exactly if the time has moved on, or the
      counter that the earlier id shows, carried on call by call, has not wrapped to below it. After a whole number of
      wraps the two ids differ in random bytes only. */
  lemma IdsOverRuns(c: Clock, inputs: seq<Input>, i: nat, j: nat)
    requires 0 < i < j <= |inputs| && forall k :: 0 <= k < |inputs| ==> ValidInput(inputs[k])
    requires c.sequence < SEQUENCES && After(c, inputs, j).last < TIMESTAMPS
    requires MovesOn(c, inputs, i, j) || (j - i) % SEQUENCES != 0
    ensures Less(IdAt(c, inputs, i), IdAt(c, inputs, j)) <==>
      var counter := After(c, inputs, i).sequence;
      MovesOn(c, inputs, i, j) || Wrapped(counter + (j - i)) > counter
  {
    hide Less, IdOf, After, MovesOn, Wrapped;
    var a, b := After(c, inputs, i), After(c, inputs, j);
    AfterIsValid(c, inputs, i);
    AfterIsValid(c, inputs, j);
    ClockCounts(c, inputs, i, j);
    if !MovesOn(c, inputs, i, j) { CounterChanges(a.sequence, j - i); }
    IdsCompareAsClocks(a, inputs[i - 1].random, b, inputs[j - 1].random);
  }

  lemma CounterChanges(counter: nat, calls: nat)
    requires counter < SEQUENCES && calls % SEQUENCES != 0
    ensures Wrapped(counter + calls) != counter
  {
  }

  /** In particular, the first id after an overflow is greater than the last before it exactly if the time has moved on:
      otherwise the counter starts over within the millisecond. */
  lemma AfterOverflow(c: Clock, random: seq<Byte>, x: Input, y: Input)
    requires |random| == UUID_BYTES && ValidInput(x) && ValidInput(y) && c.sequence < SEQUENCES
    requires Overflows(c, x) && c.last < TIMESTAMPS && y.now < TIMESTAMPS
    ensures Less(IdOf(c, random), IdOf(Tick(Tick(c, x), y), y.random)) <==> y.now > c.last
  {
    hide Less, IdOf;
    IdsCompareAsClocks(c, random, Tick(Tick(c, x), y), y.random);
  }

  /** And every new generator gets there: a first call, and as many more in the same millisecond as its counter has room
      for, end in an overflow, and the id after that is less than the one before. */
  lemma OverflowStartsOver(inputs: seq<Input>)
    requires forall k :: 0 <= k < |inputs| ==> ValidInput(inputs[k])
    requires inputs != [] && inputs[0].now > 0 && forall k :: 0 <= k < |inputs| ==> inputs[k].now <= inputs[0].now
    requires inputs[0].now < TIMESTAMPS && |inputs| == SEQUENCES + 2 - After(Clock(0, 0), inputs, 1).sequence
    ensures var c, n := Clock(0, 0), |inputs| - 2;
      && n > 0 && Overflows(After(c, inputs, n), inputs[n]) && !Overflows(After(c, inputs, n + 1), inputs[n + 1])
      && Less(IdAt(c, inputs, n + 2), IdAt(c, inputs, n))
  {
    hide Less, IdOf, After, Wrapped;
    var c, n, last := Clock(0, 0), |inputs| - 2, inputs[0].now;
    SameMillisecond(inputs, 1);
    SameMillisecond(inputs, n);
    SameMillisecond(inputs, n + 1);
    SameMillisecond(inputs, n + 2);
    AroundTheWrap();
    EarlierIdsAreLess(Clock(last, 1), inputs[n + 1].random, Clock(last, SEQUENCES - 1), inputs[n - 1].random);
  }

  lemma AroundTheWrap()
    ensures Wrapped(SEQUENCES - 1) == SEQUENCES - 1 && Wrapped(SEQUENCES) == 0 && Wrapped(SEQUENCES + 1) == 1
    ensures Wrapped(1) == 1 && Wrapped(2) == 2
  {
  }

  lemma SameMillisecond(inputs: seq<Input>, m: nat)
    requires 1 <= m <= |inputs| && forall k :: 0 <= k < |inputs| ==> ValidInput(inputs[k])
    requires inputs[0].now > 0 && forall k :: 0 <= k < |inputs| ==> inputs[k].now <= inputs[0].now
    ensures var first := After(Clock(0, 0), inputs, 1).sequence;
      first < INITIAL_SEQUENCES && After(Clock(0, 0), inputs, m) == Clock(inputs[0].now, Wrapped(first + (m - 1)))
  {
    hide Wrapped;
    var c := Clock(0, 0);
    assert After(c, inputs, 0) == c;
    assert After(c, inputs, 1) == Tick(c, inputs[0]);
    hide After;
    assert !MovesOn(c, inputs, 1, m);
    ClockCounts(c, inputs, 1, m);
  }

  /** Beyond 2 to the 48 milliseconds the timestamp wraps: the ids of two calls, the time moving on with each, compare
      as their times do within the wrap. */
  lemma TimestampWraps(c: Clock, x: Input, y: Input)
    requires ValidInput(x) && ValidInput(y) && c.sequence < SEQUENCES && c.last < x.now < y.now
    requires x.now % TIMESTAMPS != y.now % TIMESTAMPS
    ensures Less(IdAt(c, [x, y], 1), IdAt(c, [x, y], 2)) <==> x.now % TIMESTAMPS < y.now % TIMESTAMPS
    ensures y.now == TIMESTAMPS ==> !Less(IdAt(c, [x, y], 1), IdAt(c, [x, y], 2))
  {
    hide Less, IdOf;
    var inputs := [x, y];
    assert After(c, inputs, 0) == c;
    assert After(c, inputs, 1) == Tick(c, x);
    IdsCompareAsClocks(After(c, inputs, 1), x.random, After(c, inputs, 2), y.random);
  }

  /** Version 7 and the variant of the RFC, where section 4 of it has them. */
  lemma VersionAndVariant(c: Clock, random: seq<Byte>)
    requires |random| == UUID_BYTES && c.sequence < SEQUENCES
    ensures var b := Packed(c, random); b[6] / 16 == 7 && b[8] / 64 == 2
    ensures var id := IdOf(c, random);
      && |id| == |PREFIX| + 36 && id[19] == HexDigit(7)
      && (id[24] == HexDigit(8) || id[24] == HexDigit(9) || id[24] == HexDigit(10) || id[24] == HexDigit(11))
  {
    PackedAt(c, random);
    var b := Packed(c, random);
    hide Packed;
    HexBytesLength(b[..4]);
    HexBytesLength(b[4..6]);
    HexBytesLength(b[6..8]);
    HexBytesLength(b[8..10]);
    HexBytesLength(b[10..]);
    assert HexBytes(b[6..8])[0] == HexDigit(b[6] / 16) && HexBytes(b[8..10])[0] == HexDigit(b[8] / 16);
    hide HexBytes;
  }

  lemma {:induction false} HexBytesLength(s: seq<Byte>)
    ensures |HexBytes(s)| == 2 * |s|
  {
    if s != [] { HexBytesLength(s[1..]); }
  }

  /** A millisecond the generator has not seen yields at least 3073 ids before it overflows. */
  lemma {:induction false} FreshMillisecondLasts(c: Clock, inputs: seq<Input>, n: nat)
    requires 1 <= n <= 3073 && n <= |inputs| && forall k :: 0 <= k < |inputs| ==> ValidInput(inputs[k])
    requires inputs[0].now > c.last && forall k :: 0 < k < |inputs| ==> inputs[k].now <= inputs[0].now
    ensures !Overflows(After(c, inputs, n - 1), inputs[n - 1])
    ensures After(c, inputs, n).last == inputs[0].now
    ensures After(c, inputs, n).sequence == After(c, inputs, 1).sequence + n - 1 < INITIAL_SEQUENCES + n - 1
    decreases n
  {
    hide Wrapped;
    assert After(c, inputs, 0) == c;
    if n > 1 {
      FreshMillisecondLasts(c, inputs, n - 1);
      CountsUp(After(c, inputs, n - 1).sequence);
    }
  }
}
