/** Numbers in canonical JSON: the layout of section 3.2.2.3 of RFC 8785, and what it denotes. */
module JsonNumber {
  import opened Protocol
  import opened Decimal

  const PLUS: Byte := 43
  const DOT: Byte := 46
  const LETTER_E: Byte := 101

  const SMALLEST_EXPONENT: int := -6
  const LARGEST_EXPONENT: int := 21

  /** A binary64 value by its shortest decimal digits, read as d.ddd times ten to the exponent. */
  datatype Number = Zero(negative: bool) | Finite(negative: bool, digits: Bytes, exponent: int) | NotFinite

  /** Shortest digits neither start nor end in zero. */
  predicate Shortest(digits: Bytes)
  {
    digits != [] && AllDigits(digits) && digits[0] != ZERO && digits[|digits| - 1] != ZERO
  }

  predicate Valid(n: Number)
  {
    n.Finite? ==> Shortest(n.digits)
  }

  function Zeros(n: nat): (s: Bytes)
    ensures |s| == n && forall i :: 0 <= i < n ==> s[i] == ZERO
  {
    if n == 0 then [] else [ZERO] + Zeros(n - 1)
  }

  function ExponentText(exponent: int): (tail: Bytes)
    ensures tail != [] && tail[0] == LETTER_E
  {
    [LETTER_E] + (if exponent >= 0 then [PLUS] else []) + SignedText(exponent)
  }

  /** The digits in scientific notation, as a fraction, as a whole number, or with the point among them. */
  function Layout(digits: Bytes, exponent: int): Bytes
    requires digits != []
  {
    if exponent < SMALLEST_EXPONENT || exponent >= LARGEST_EXPONENT then
      [digits[0]] + (if |digits| > 1 then [DOT] + digits[1..] else []) + ExponentText(exponent)
    else if exponent < 0 then
      [ZERO, DOT] + (Zeros(-exponent - 1) + digits)
    else if exponent + 1 >= |digits| then
      digits + Zeros(exponent + 1 - |digits|)
    else
      digits[..exponent + 1] + [DOT] + digits[exponent + 1..]
  }

  function NumberText(n: Number): Result<Bytes, ()>
    requires Valid(n)
  {
    match n
    case NotFinite => Err(())
    case Zero(_) => Ok([ZERO])
    case Finite(negative, digits, exponent) => Ok((if negative then [MINUS] else []) + Layout(digits, exponent))
  }

  // ----- What a number text denotes ------------------------------------------

  /** A sign, and `mantissa` times ten to the `scale`. */
  datatype Reading = Reading(negative: bool, mantissa: nat, scale: int)

  function Run(s: Bytes): (n: nat)
    ensures n <= |s| && AllDigits(s[..n]) && (n < |s| ==> !IsDigit(s[n]))
  {
    if s == [] || !IsDigit(s[0]) then 0
    else
      var n := 1 + Run(s[1..]);
      assert s[..n] == [s[0]] + s[1..][..n - 1];
      n
  }

  function ReadDigits(s: Bytes): nat
  {
    Denotes(s[..Run(s)])
  }

  function ReadExponent(s: Bytes): int
  {
    if s == [] || s[0] != LETTER_E || |s| == 1 then 0
    else if s[1] == MINUS then -(ReadDigits(s[2..]) as int)
    else if s[1] == PLUS then ReadDigits(s[2..])
    else ReadDigits(s[1..])
  }

  /** Reads the number grammar of JSON: a sign, digits, a fraction, an exponent. */
  function Read(text: Bytes): Reading
  {
    if text != [] && text[0] == MINUS then ReadUnsignedNumber(text[1..]).(negative := true)
    else ReadUnsignedNumber(text)
  }

  function ReadUnsignedNumber(s: Bytes): Reading
  {
    var whole, rest := s[..Run(s)], s[Run(s)..];
    if rest != [] && rest[0] == DOT then
      var n := Run(rest[1..]);
      Reading(false, Denotes(whole + rest[1..][..n]), ReadExponent(rest[1 + n..]) - n)
    else
      Reading(false, Denotes(whole), ReadExponent(rest))
  }

  function Pow10(n: nat): nat
  {
    if n == 0 then 1 else 10 * Pow10(n - 1)
  }

  function Scaled(m: nat, n: nat): nat
  {
    m * Pow10(n)
  }

  lemma ScaledZero(m: nat)
    ensures Scaled(m, 0) == m
  {
  }

  /** The reading is `digits`, as a whole number, times ten to the `exponent`, less the digits after the first. */
  ghost predicate Equals(r: Reading, digits: Bytes, exponent: int)
    requires AllDigits(digits)
  {
    var power := exponent + 1 - |digits|;
    r.scale <= power && r.mantissa == Scaled(Denotes(digits), power - r.scale)
  }

  lemma {:induction false} RunOf(d: Bytes, rest: Bytes)
    requires AllDigits(d) && (rest == [] || !IsDigit(rest[0]))
    ensures Run(d + rest) == |d| && (d + rest)[..|d|] == d && (d + rest)[|d|..] == rest
  {
    if d == [] {
      assert d + rest == rest;
    } else {
      RunOf(d[1..], rest);
      assert (d + rest)[1..] == d[1..] + rest;
    }
  }

  lemma {:induction false} LeadingZeros(n: nat, d: Bytes)
    requires AllDigits(d)
    ensures AllDigits(Zeros(n) + d) && Denotes(Zeros(n) + d) == Denotes(d)
    decreases |d|, n
  {
    var s := Zeros(n) + d;
    if d == [] {
      if n > 0 {
        assert s[..|s| - 1] == Zeros(n - 1) + d by { assert forall i :: 0 <= i < n ==> s[i] == ZERO; }
        LeadingZeros(n - 1, d);
      }
    } else {
      LeadingZeros(n, d[..|d| - 1]);
      assert s[..|s| - 1] == Zeros(n) + d[..|d| - 1];
    }
  }

  lemma {:induction false} TrailingZeros(d: Bytes, n: nat)
    requires AllDigits(d)
    ensures AllDigits(d + Zeros(n)) && Denotes(d + Zeros(n)) == Scaled(Denotes(d), n)
    decreases n
  {
    hide Scaled;
    var s := d + Zeros(n);
    if n == 0 {
      assert s == d;
      ScaledZero(Denotes(d));
    } else {
      TrailingZeros(d, n - 1);
      ScaledStep(Denotes(d), n);
      assert s[..|s| - 1] == d + Zeros(n - 1);
    }
  }

  lemma ReadsNumber(n: nat)
    ensures ReadDigits(Text(n)) == n
  {
    hide Text, Denotes;
    RunOf(Text(n), []);
    assert Text(n) + [] == Text(n);
    TextDenotes(n);
  }

  lemma ReadsExponent(exponent: int)
    ensures ReadExponent(ExponentText(exponent)) == exponent
  {
    hide Text, ReadDigits;
    var size := if exponent < 0 then -exponent else exponent;
    var sign: Byte := if exponent < 0 then MINUS else PLUS;
    ReadsNumber(size);
    assert ExponentText(exponent) == [LETTER_E, sign] + Text(size);
    assert ([LETTER_E, sign] + Text(size))[2..] == Text(size);
  }

  lemma ReadsPlain(whole: Bytes, tail: Bytes)
    requires AllDigits(whole) && (tail == [] || (!IsDigit(tail[0]) && tail[0] != DOT))
    ensures ReadUnsignedNumber(whole + tail) == Reading(false, Denotes(whole), ReadExponent(tail))
  {
    RunOf(whole, tail);
  }

  lemma ReadsPoint(whole: Bytes, places: Bytes, tail: Bytes)
    requires AllDigits(whole) && AllDigits(places) && (tail == [] || !IsDigit(tail[0]))
    ensures ReadUnsignedNumber(whole + ([DOT] + (places + tail))) ==
            Reading(false, Denotes(whole + places), ReadExponent(tail) - |places|)
  {
    var rest := [DOT] + (places + tail);
    RunOf(whole, rest);
    RunOf(places, tail);
    assert rest[1..] == places + tail;
    assert rest[1 + |places|..] == tail;
  }

  /** In each of the four ranges, the layout denotes the digits times the power of ten. */
  lemma LayoutDenotes(digits: Bytes, exponent: int)
    requires digits != [] && AllDigits(digits)
    ensures Layout(digits, exponent) != [] && IsDigit(Layout(digits, exponent)[0])
    ensures Equals(ReadUnsignedNumber(Layout(digits, exponent)), digits, exponent)
  {
    hide Layout, ReadUnsignedNumber, ReadExponent, Denotes, Scaled;
    LayoutStarts(digits, exponent);
    ScaledZero(Denotes(digits));
    NoExponent();
    if exponent < SMALLEST_EXPONENT || exponent >= LARGEST_EXPONENT {
      ScientificDenotes(digits, exponent);
    } else if exponent < 0 {
      FractionDenotes(digits, exponent);
    } else if exponent + 1 >= |digits| {
      WholeText(digits, exponent);
      TrailingZeros(digits, exponent + 1 - |digits|);
      ReadsPlain(digits + Zeros(exponent + 1 - |digits|), []);
    } else {
      PointText(digits, exponent);
      ReadsPoint(digits[..exponent + 1], digits[exponent + 1..], []);
    }
  }

  lemma LayoutStarts(digits: Bytes, exponent: int)
    requires digits != [] && AllDigits(digits)
    ensures Layout(digits, exponent) != [] && IsDigit(Layout(digits, exponent)[0])
  {
    hide ExponentText;
  }

  lemma FractionDenotes(digits: Bytes, exponent: int)
    requires digits != [] && AllDigits(digits) && SMALLEST_EXPONENT <= exponent < 0
    ensures ReadUnsignedNumber(Layout(digits, exponent)) == Reading(false, Denotes(digits), exponent + 1 - |digits|)
  {
    hide Layout, ReadUnsignedNumber, ReadExponent, Denotes;
    var places := Zeros(-exponent - 1) + digits;
    FractionText(digits, exponent);
    LeadingZeros(-exponent - 1, digits);
    LeadingZeros(-exponent, digits);
    ReadsPoint([ZERO], places, []);
    NoExponent();
  }

  lemma FractionText(digits: Bytes, exponent: int)
    requires digits != [] && SMALLEST_EXPONENT <= exponent < 0
    ensures Layout(digits, exponent) == [ZERO] + ([DOT] + (Zeros(-exponent - 1) + digits + []))
    ensures [ZERO] + (Zeros(-exponent - 1) + digits) == Zeros(-exponent) + digits
  {
  }

  lemma WholeText(digits: Bytes, exponent: int)
    requires digits != [] && 0 <= exponent < LARGEST_EXPONENT && exponent + 1 >= |digits|
    ensures Layout(digits, exponent) == digits + Zeros(exponent + 1 - |digits|) + []
  {
  }

  lemma PointText(digits: Bytes, exponent: int)
    requires digits != [] && 0 <= exponent < LARGEST_EXPONENT && exponent + 1 < |digits|
    ensures Layout(digits, exponent) == digits[..exponent + 1] + ([DOT] + (digits[exponent + 1..] + []))
    ensures digits[..exponent + 1] + digits[exponent + 1..] == digits
  {
  }

  lemma NoExponent()
    ensures ReadExponent([]) == 0
  {
  }

  lemma ScientificText(digits: Bytes, exponent: int)
    requires digits != [] && (exponent < SMALLEST_EXPONENT || exponent >= LARGEST_EXPONENT)
    ensures |digits| == 1 ==> Layout(digits, exponent) == digits + ExponentText(exponent)
    ensures |digits| > 1 ==>
      Layout(digits, exponent) == [digits[0]] + ([DOT] + (digits[1..] + ExponentText(exponent)))
  {
    hide ExponentText;
  }

  lemma ScientificDenotes(digits: Bytes, exponent: int)
    requires digits != [] && AllDigits(digits)
    requires exponent < SMALLEST_EXPONENT || exponent >= LARGEST_EXPONENT
    ensures ReadUnsignedNumber(Layout(digits, exponent)) == Reading(false, Denotes(digits), exponent + 1 - |digits|)
  {
    hide Layout, ReadUnsignedNumber, ReadExponent, Denotes, ExponentText;
    ScientificText(digits, exponent);
    ReadsExponent(exponent);
    if |digits| == 1 {
      ReadsPlain(digits, ExponentText(exponent));
    } else {
      ReadsPoint([digits[0]], digits[1..], ExponentText(exponent));
      assert [digits[0]] + digits[1..] == digits;
    }
  }

  // ----- The text determines the number --------------------------------------

  // ----- The shape of a number text --------------------------------------------

  function Magnitude(exponent: int): nat
  {
    if exponent < 0 then -exponent else exponent
  }

  /** Values below 1e-6 or of at least 1e21: one digit before the point, a point exactly if there are more, and an
      exponent with its sign and without leading zeros. */
  lemma ScientificShape(digits: Bytes, exponent: int)
    requires Shortest(digits) && (exponent < -6 || exponent >= 21)
    ensures var t, k := Layout(digits, exponent), |digits|;
      var tail := [101, if exponent < 0 then 45 else 43] + Text(Magnitude(exponent));
      && |t| == (if k > 1 then k + 1 else 1) + |tail| && t[|t| - |tail|..] == tail
      && t[0] == digits[0] && (k > 1 ==> t[1] == 46 && t[2..k + 1] == digits[1..])
  {
    var text := Text(Magnitude(exponent));
    assert ExponentText(exponent) == [101, if exponent < 0 then 45 else 43] + text;
  }

  /** Other values: no exponent, a point exactly if digits stand behind it, and no zero that could be left out. */
  lemma PlainShape(digits: Bytes, exponent: int)
    requires Shortest(digits) && -6 <= exponent < 21
    ensures var t, k := Layout(digits, exponent), |digits|;
      && 101 !in t && (46 in t <==> k > exponent + 1)
      && |t| == (if exponent < 0 then 1 + 1 + (-exponent - 1) + k
                 else if exponent + 1 >= k then exponent + 1 else k + 1)
  {
    var t, k := Layout(digits, exponent), |digits|;
    assert forall x :: x in digits ==> x != 101 && x != 46;
    if exponent < 0 {
      assert t[1] == 46;
    } else if exponent + 1 < k {
      assert t[exponent + 1] == 46;
      assert forall x :: x in t ==> x == 46 || x in digits;
    }
  }

  lemma {:induction false} DenotesInjective(a: Bytes, b: Bytes)
    requires AllDigits(a) && AllDigits(b) && Denotes(a) == Denotes(b)
    requires (a != [] ==> a[0] != ZERO) && (b != [] ==> b[0] != ZERO)
    ensures a == b
    decreases |a|
  {
    if a == [] || b == [] {
      if a != [] { DenotesPositive(a); }
      if b != [] { DenotesPositive(b); }
    } else {
      var front, front' := a[..|a| - 1], b[..|b| - 1];
      assert a[|a| - 1] == b[|b| - 1] && Denotes(front) == Denotes(front');
      DenotesInjective(front, front');
      assert a == front + [a[|a| - 1]] && b == front' + [b[|b| - 1]];
    }
  }

  lemma {:induction false} DenotesPositive(d: Bytes)
    requires d != [] && AllDigits(d) && d[0] != ZERO
    ensures Denotes(d) > 0
  {
    if |d| > 1 {
      DenotesPositive(d[..|d| - 1]);
    }
  }

  lemma {:induction false} PowersUnique(a: nat, i: nat, b: nat, j: nat)
    requires a % 10 != 0 && b % 10 != 0 && Scaled(a, i) == Scaled(b, j)
    ensures a == b && i == j
    decreases i
  {
    hide Scaled;
    if i > 0 { ScaledStep(a, i); } else { ScaledZero(a); }
    if j > 0 { ScaledStep(b, j); } else { ScaledZero(b); }
    if i > 0 && j > 0 {
      PowersUnique(a, i - 1, b, j - 1);
    }
  }

  lemma ScaledStep(a: nat, i: nat)
    requires i > 0
    ensures Scaled(a, i) == 10 * Scaled(a, i - 1)
  {
  }

  lemma LastDigit(d: Bytes)
    requires Shortest(d)
    ensures Denotes(d) % 10 != 0
  {
  }

  lemma LayoutInjective(d: Bytes, x: int, e: Bytes, y: int)
    requires Shortest(d) && Shortest(e) && Layout(d, x) == Layout(e, y)
    ensures d == e && x == y
  {
    hide Layout, ReadUnsignedNumber, Denotes, Scaled;
    LayoutDenotes(d, x);
    LayoutDenotes(e, y);
    LastDigit(d);
    LastDigit(e);
    var r := ReadUnsignedNumber(Layout(d, x));
    PowersUnique(Denotes(d), x + 1 - |d| - r.scale, Denotes(e), y + 1 - |e| - r.scale);
    DenotesInjective(d, e);
  }

  /** Equal but for the sign of zero. */
  predicate SameNumber(a: Number, b: Number)
  {
    a == b || (a.Zero? && b.Zero?)
  }

  /** A number's text reads back as the number: its sign, and its digits times the power of ten. */
  lemma NumberTextDenotes(n: Number)
    requires Valid(n) && n.Finite?
    ensures Read(NumberText(n).value).negative == n.negative
    ensures Equals(Read(NumberText(n).value), n.digits, n.exponent)
  {
    hide Layout, ReadUnsignedNumber, Equals;
    LayoutDenotes(n.digits, n.exponent);
    var text := Layout(n.digits, n.exponent);
    SignDoesNotMatter(text, n.digits, n.exponent);
    assert NumberText(n).value == if n.negative then [MINUS] + text else [] + text;
    assert ([MINUS] + text)[1..] == text && [] + text == text;
  }

  lemma SignDoesNotMatter(s: Bytes, digits: Bytes, exponent: int)
    requires AllDigits(digits)
    ensures !ReadUnsignedNumber(s).negative
    ensures Equals(ReadUnsignedNumber(s).(negative := true), digits, exponent) <==>
            Equals(ReadUnsignedNumber(s), digits, exponent)
  {
    hide Denotes, ReadExponent, Scaled;
  }

  lemma NumberTextInjective(a: Number, b: Number)
    requires Valid(a) && Valid(b) && NumberText(a).Ok? && NumberText(a) == NumberText(b)
    ensures SameNumber(a, b)
  {
    if a.Finite? && b.Finite? {
      hide Layout, ReadUnsignedNumber, Equals;
      NumberTextDenotes(a);
      NumberTextDenotes(b);
      var text := NumberText(a).value;
      if a.negative {
        assert text[1..] == Layout(a.digits, a.exponent) && text[1..] == Layout(b.digits, b.exponent);
      } else {
        assert text == Layout(a.digits, a.exponent) && text == Layout(b.digits, b.exponent);
      }
      LayoutInjective(a.digits, a.exponent, b.digits, b.exponent);
    } else if a.Finite? {
      NonZeroText(a);
    } else if b.Finite? {
      NonZeroText(b);
    }
  }

  lemma NonZeroText(n: Number)
    requires Valid(n) && n.Finite?
    ensures NumberText(n) != Ok([ZERO])
  {
    NumberTextDenotes(n);
    DenotesPositive(n.digits);
    ReadsPlain([ZERO], []);
    assert [ZERO] + [] == [ZERO] && Denotes([ZERO]) == 0;
    hide Layout, ReadUnsignedNumber, Denotes, Scaled;
    ScaledPositive(Denotes(n.digits), n.exponent + 1 - |n.digits| - Read(NumberText(n).value).scale);
    assert Read([ZERO]).mantissa == 0;
  }

  lemma {:induction false} ScaledPositive(m: nat, n: nat)
    requires m > 0
    ensures Scaled(m, n) > 0
    decreases n
  {
    if n > 0 {
      ScaledPositive(m, n - 1);
      ScaledStep(m, n);
    }
  }

  // ----- The characters of a number text -------------------------------------

  predicate NumberChar(b: Byte)
  {
    IsDigit(b) || b == MINUS || b == PLUS || b == DOT || b == LETTER_E
  }

  predicate NumberChars(s: Bytes)
  {
    forall i :: 0 <= i < |s| ==> NumberChar(s[i])
  }

  lemma NumberTextChars(n: Number)
    requires Valid(n) && NumberText(n).Ok?
    ensures var text := NumberText(n).value;
      text != [] && NumberChars(text) && (text[0] == MINUS || IsDigit(text[0]))
  {
    if n.Finite? {
      LayoutChars(n.digits, n.exponent);
      LayoutStarts(n.digits, n.exponent);
      hide Layout;
    }
  }

  lemma LayoutChars(digits: Bytes, exponent: int)
    requires digits != [] && AllDigits(digits)
    ensures NumberChars(Layout(digits, exponent))
  {
    assert NumberChars(ExponentText(exponent));
    hide ExponentText;
  }
}
