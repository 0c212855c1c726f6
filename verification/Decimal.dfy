/** Decimal text of whole numbers, as `std::to_string` writes it and `std::from_chars` reads it. */
module Decimal {
  import opened Protocol

  const ZERO: Byte := 48
  const MINUS: Byte := 45

  predicate IsDigit(b: Byte)
  {
    ZERO <= b < ZERO + 10
  }

  predicate AllDigits(s: Bytes)
  {
    forall i :: 0 <= i < |s| ==> IsDigit(s[i])
  }

  function Text(n: nat): (s: Bytes)
    ensures s != [] && AllDigits(s)
  {
    if n < 10 then [ZERO + n] else Text(n / 10) + [ZERO + n % 10]
  }

  /** The number a run of digits denotes; leading zeros do not matter. */
  function Denotes(s: Bytes): (n: nat)
    requires AllDigits(s)
  {
    if s == [] then 0 else 10 * Denotes(s[..|s| - 1]) + (s[|s| - 1] - ZERO)
  }

  lemma {:induction false} TextDenotes(n: nat)
    ensures Denotes(Text(n)) == n
  {
    if n >= 10 {
      TextDenotes(n / 10);
      assert Text(n)[..|Text(n)| - 1] == Text(n / 10);
    }
  }

  /** The digits are those of ASCII, and none leads that could be left out. */
  lemma {:induction false} TextIsPlain(n: nat)
    ensures forall i :: 0 <= i < |Text(n)| ==> 48 <= Text(n)[i] <= 57
    ensures n < 10 ==> Text(n) == [48 + n]
    ensures n > 0 ==> Text(n)[0] != 48
  {
    if n >= 10 { TextIsPlain(n / 10); }
  }

  function SignedText(n: int): Bytes
  {
    if n < 0 then [MINUS] + Text(-n) else Text(n)
  }

  /** Reads the whole of `s` as an unsigned number of at most `max`. */
  function ReadUnsigned(s: Bytes, max: nat): Option<nat>
  {
    if s == [] || !AllDigits(s) || Denotes(s) > max then None else Some(Denotes(s))
  }

  /** Reads the whole of `s` as a 64-bit signed number: an optional minus sign and at least one digit. */
  function ReadSigned(s: Bytes): Option<int>
  {
    if s != [] && s[0] == MINUS then
      var read := ReadUnsigned(s[1..], 0x8000_0000_0000_0000);
      if read.Some? then Some(-(read.value as int)) else None
    else
      var read := ReadUnsigned(s, 0x7FFF_FFFF_FFFF_FFFF);
      if read.Some? then Some(read.value) else None
  }

  lemma ReadsBack(n: nat)
    requires n <= 0x7FFF_FFFF_FFFF_FFFF
    ensures ReadSigned(Text(n)) == Some(n)
  {
    TextDenotes(n);
    assert IsDigit(Text(n)[0]);
  }
}
