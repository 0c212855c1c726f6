/** UTF-8 text and the UTF-16 code units that order object members. */
module Utf {
  import opened Protocol

  /** Unicode scalar values: code points that are no surrogates. */
  predicate Scalar(c: int)
  {
    0 <= c < 0xD800 || 0xE000 <= c <= 0x10FFFF
  }

  function Encode(c: int): Bytes
    requires Scalar(c)
  {
    if c < 0x80 then [c]
    else if c < 0x800 then [0xC0 + c / 64, 0x80 + c % 64]
    else if c < 0x1_0000 then [0xE0 + c / 4096, 0x80 + c / 64 % 64, 0x80 + c % 64]
    else [0xF0 + c / 262144, 0x80 + c / 4096 % 64, 0x80 + c / 64 % 64, 0x80 + c % 64]
  }

  function EncodeAll(cs: seq<int>): Bytes
    requires forall i :: 0 <= i < |cs| ==> Scalar(cs[i])
  {
    if cs == [] then [] else Encode(cs[0]) + EncodeAll(cs[1..])
  }

  ghost predicate ValidUtf8(text: Bytes)
  {
    exists cs: seq<int> :: (forall i :: 0 <= i < |cs| ==> Scalar(cs[i])) && text == EncodeAll(cs)
  }

  // ----- The decoder ---------------------------------------------------------

  /** How many bytes follow a lead byte, and the bits of the code point that it carries. */
  function Lead(b: Byte): (nat, int)
  {
    if b >= 0xF0 then (3, b % 8) else if b >= 0xE0 then (2, b % 16) else if b >= 0xC0 then (1, b % 32) else (0, b)
  }

  function Continue(code: int, text: Bytes, n: nat): int
    requires n <= |text|
    decreases n
  {
    if n == 0 then code else Continue(code * 64 + text[0] % 64, text[1..], n - 1)
  }

  /** The code units of one code point. */
  function Units(code: int): seq<int>
  {
    if code > 0xFFFF then [0xD800 + (code - 0x1_0000) / 1024, 0xDC00 + (code - 0x1_0000) % 1024] else [code]
  }

  /** A code point is its own unit, or is what its surrogate pair stands for: section 3.9 of the Unicode Standard. */
  lemma UnitsDenote(code: int)
    requires Scalar(code)
    ensures var units := Units(code);
      || (code < 0x1_0000 && units == [code])
      || (&& |units| == 2 && 0xD800 <= units[0] <= 0xDBFF && 0xDC00 <= units[1] <= 0xDFFF
          && code == 0x1_0000 + (units[0] - 0xD800) * 0x400 + (units[1] - 0xDC00))
  {
  }

  /** The units read so far, before those of the rest. */
  function Joined(result: seq<int>, rest: Option<seq<int>>): Option<seq<int>>
  {
    if rest.None? then None else Some(result + rest.value)
  }

  /** Nothing for text that ends inside a character, which the decoder refuses. */
  function Utf16(text: Bytes): Option<seq<int>>
    decreases |text|
  {
    if text == [] then Some([])
    else
      var (n, code) := Lead(text[0]);
      if |text| < 1 + n then None
      else
        Joined(Units(Continue(code, text[1..], n)), Utf16(text[1 + n..]))
  }

  lemma {:induction false} ContinueAppends(code: int, text: Bytes, n: nat)
    requires n < |text|
    ensures Continue(code, text, n + 1) == Continue(code, text, n) * 64 + text[n] % 64
    decreases n
  {
    if n > 0 {
      ContinueAppends(code * 64 + text[0] % 64, text[1..], n - 1);
    }
  }

  lemma JoinedAssociative(a: seq<int>, b: seq<int>, rest: Option<seq<int>>)
    ensures Joined(a, Joined(b, rest)) == Joined(a + b, rest)
  {
    if rest.Some? { assert a + (b + rest.value) == a + b + rest.value; }
  }

  lemma JoinedEmpty(key: seq<int>)
    ensures Joined([], Some(key)) == Some(key) == Joined(key, Some([]))
  {
    assert [] + key == key == key + [];
  }

  /** One character of a non-empty text: its code point and its length. */
  method ReadCode(text: Bytes) returns (read: Option<(int, nat)>)
    requires text != []
    ensures var (n, code) := Lead(text[0]);
      read == if |text| < 1 + n then None else Some((Continue(code, text[1..], n), 1 + n))
    ensures read.Some? ==> 1 <= read.value.1 <= |text|
  {
    var (remaining, code) := Lead(text[0]);
    ghost var lead := code;
    var index := 1;
    for continuation := 0 to remaining
      invariant index == 1 + continuation <= |text|
      invariant code == Continue(lead, text[1..], continuation)
    {
      if index >= |text| {
        return None;
      }
      ContinueAppends(lead, text[1..], continuation);
      code := code * 64 + text[index] % 64;
      index := index + 1;
    }
    return Some((code, index));
  }

  lemma Utf16Nothing()
    ensures Utf16([]) == Some([])
  {
  }

  lemma JoinedNone(key: seq<int>)
    ensures Joined(key, None) == None
  {
  }

  lemma Utf16Step(text: Bytes)
    requires text != []
    ensures var (n, code) := Lead(text[0]);
      Utf16(text) == if |text| < 1 + n then None
                     else Joined(Units(Continue(code, text[1..], n)), Utf16(text[1 + n..]))
  {
  }

  method SortKey(text: Bytes) returns (key: Option<seq<int>>)
    ensures key == Utf16(text)
  {
    hide Continue, Lead, Joined, Utf16;
    var result: seq<int> := [];
    var index := 0;
    assert text[0..] == text;
    if Utf16(text).Some? { JoinedEmpty(Utf16(text).value); } else { JoinedNone([]); }
    while index < |text|
      invariant index <= |text|
      invariant Utf16(text) == Joined(result, Utf16(text[index..]))
      decreases |text| - index
    {
      var read := ReadCode(text[index..]);
      Utf16Step(text[index..]);
      if read.None? {
        JoinedNone(result);
        return None;
      }
      var (code, length) := read.value;
      assert text[index..][length..] == text[index + length..];
      JoinedAssociative(result, Units(code), Utf16(text[index + length..]));
      if code > 0xFFFF {
        var offset := code - 0x1_0000;
        result := result + [0xD800 + offset / 1024, 0xDC00 + offset % 1024];
      } else {
        result := result + [code];
      }
      index := index + length;
    }
    JoinedEmpty(result);
    assert text[index..] == [];
    Utf16Nothing();
    return Some(result);
  }

  // ----- The key tells valid texts apart -------------------------------------

  ghost predicate Reads(c: int, rest: Bytes)
    requires Scalar(c)
  {
    var text := Encode(c) + rest;
    var (n, code) := Lead(text[0]);
    |text| >= 1 + n && Continue(code, text[1..], n) == c && text[1 + n..] == rest
  }

  lemma ReadsEncoded(c: int, rest: Bytes)
    requires Scalar(c)
    ensures Reads(c, rest)
  {
    if c < 0x800 {
      ReadsShort(c, rest);
    } else if c < 0x1_0000 {
      ReadsThree(c, rest);
    } else {
      ReadsFour(c, rest);
    }
  }

  lemma ReadsShort(c: int, rest: Bytes)
    requires Scalar(c) && c < 0x800
    ensures Reads(c, rest)
  {
    var text := Encode(c) + rest;
    if c >= 0x80 {
      assert Lead(0xC0 + c / 64) == (1, c / 64);
      Continued(c / 64, text[1..], 1);
    }
  }

  lemma ReadsThree(c: int, rest: Bytes)
    requires Scalar(c) && 0x800 <= c < 0x1_0000
    ensures Reads(c, rest)
  {
    var high, middle, low := c / 4096, c / 64 % 64, c % 64;
    var text := Encode(c) + rest;
    LeadThree(high);
    ThreeDigits(c);
    assert text == [0xE0 + high, 0x80 + middle, 0x80 + low] + rest;
    hide Lead, Continue, Encode;
    assert text[1..][0] == 0x80 + middle && text[1..][1] == 0x80 + low && text[3..] == rest;
    Continued(high, text[1..], 2);
  }

  lemma ReadsFour(c: int, rest: Bytes)
    requires Scalar(c) && 0x1_0000 <= c
    ensures Reads(c, rest)
  {
    var high, upper, middle, low := c / 262144, c / 4096 % 64, c / 64 % 64, c % 64;
    var text := Encode(c) + rest;
    assert 0 <= high <= 4;
    LeadFour(high);
    FourDigits(c);
    assert text == [0xF0 + high, 0x80 + upper, 0x80 + middle, 0x80 + low] + rest;
    hide Lead, Continue, Encode;
    assert text[1..][0] == 0x80 + upper && text[1..][1] == 0x80 + middle
      && text[1..][2] == 0x80 + low && text[4..] == rest;
    Continued(high, text[1..], 3);
  }

  lemma LeadThree(high: int)
    requires 0 <= high < 16
    ensures Lead(0xE0 + high) == (2, high)
  {
  }

  lemma LeadFour(high: int)
    requires 0 <= high <= 4
    ensures Lead(0xF0 + high) == (3, high)
  {
  }

  lemma Continued(code: int, text: Bytes, n: nat)
    requires 1 <= n <= 3 && n <= |text|
    ensures n == 1 ==> Continue(code, text, n) == code * 64 + text[0] % 64
    ensures n == 2 ==> Continue(code, text, n) == (code * 64 + text[0] % 64) * 64 + text[1] % 64
    ensures n == 3 ==> Continue(code, text, n) == ((code * 64 + text[0] % 64) * 64 + text[1] % 64) * 64 + text[2] % 64
  {
    ContinueAppends(code, text, 0);
    if n >= 2 { ContinueAppends(code, text, 1); }
    if n >= 3 { ContinueAppends(code, text, 2); }
  }

  lemma ThreeDigits(c: int)
    requires c >= 0
    ensures c == (c / 4096 * 64 + c / 64 % 64) * 64 + c % 64
  {
    assert c / 4096 == c / 64 / 64;
  }

  lemma FourDigits(c: int)
    requires c >= 0
    ensures c == ((c / 262144 * 64 + c / 4096 % 64) * 64 + c / 64 % 64) * 64 + c % 64
  {
    ThreeDigits(c / 64);
    assert c / 64 / 4096 == c / 262144 && c / 64 / 64 == c / 4096;
  }

  function UnitsAll(cs: seq<int>): seq<int>
  {
    if cs == [] then [] else Units(cs[0]) + UnitsAll(cs[1..])
  }

  lemma {:induction false} KeyOfEncoded(cs: seq<int>)
    requires forall i :: 0 <= i < |cs| ==> Scalar(cs[i])
    ensures Utf16(EncodeAll(cs)) == Some(UnitsAll(cs))
  {
    if cs != [] {
      KeyOfEncoded(cs[1..]);
      ReadsEncoded(cs[0], EncodeAll(cs[1..]));
    }
  }

  lemma {:induction false} UnitsInjective(a: seq<int>, b: seq<int>)
    requires (forall i :: 0 <= i < |a| ==> Scalar(a[i])) && (forall i :: 0 <= i < |b| ==> Scalar(b[i]))
    requires UnitsAll(a) == UnitsAll(b)
    ensures a == b
  {
    if a != [] && b != [] {
      var x, y := UnitsAll(a), UnitsAll(b);
      assert x[0] == Units(a[0])[0] && y[0] == Units(b[0])[0];
      assert a[0] > 0xFFFF <==> 0xD800 <= x[0] < 0xDC00;
      if a[0] > 0xFFFF { assert x[1] == Units(a[0])[1] && y[1] == Units(b[0])[1]; }
      assert a[0] == b[0];
      assert x[|Units(a[0])|..] == UnitsAll(a[1..]) && y[|Units(b[0])|..] == UnitsAll(b[1..]);
      UnitsInjective(a[1..], b[1..]);
      assert a == [a[0]] + a[1..] && b == [b[0]] + b[1..];
    }
  }

  /** Valid texts have keys, and different keys if they differ. */
  lemma KeyInjective(s: Bytes, t: Bytes)
    requires ValidUtf8(s) && ValidUtf8(t)
    ensures Utf16(s).Some? && (Utf16(s) == Utf16(t) ==> s == t)
  {
    var a: seq<int> :| (forall i :: 0 <= i < |a| ==> Scalar(a[i])) && s == EncodeAll(a);
    var b: seq<int> :| (forall i :: 0 <= i < |b| ==> Scalar(b[i])) && t == EncodeAll(b);
    KeyOfEncoded(a);
    KeyOfEncoded(b);
    if Utf16(s) == Utf16(t) {
      UnitsInjective(a, b);
    }
  }
}
