/** Strings in canonical JSON: section 3.2.2.2 of RFC 8785. */
module JsonString {
  import opened Protocol

  const QUOTE: Byte := 34
  const BACKSLASH: Byte := 92

  function Escape(b: Byte): (s: Bytes)
    ensures s != [] && s[0] != QUOTE
  {
    if b == QUOTE then [BACKSLASH, QUOTE]
    else if b == BACKSLASH then [BACKSLASH, BACKSLASH]
    else if b == 8 then [BACKSLASH, 98]
    else if b == 12 then [BACKSLASH, 102]
    else if b == 10 then [BACKSLASH, 110]
    else if b == 13 then [BACKSLASH, 114]
    else if b == 9 then [BACKSLASH, 116]
    else if b < 0x20 then [BACKSLASH, 117, 48, 48, HexDigit(b / 16), HexDigit(b % 16)]
    else [b]
  }

  function Escaped(s: Bytes): Bytes
  {
    if s == [] then [] else Escape(s[0]) + Escaped(s[1..])
  }

  function StringText(s: Bytes): Bytes
  {
    [QUOTE] + (Escaped(s) + [QUOTE])
  }

  lemma {:induction false} EscapedAppends(s: Bytes, b: Byte)
    ensures Escaped(s + [b]) == Escaped(s) + Escape(b)
  {
    hide Escape;
    if s == [] {
      assert s + [b] == [b] && Escaped([b][1..]) == [];
    } else {
      EscapedAppends(s[1..], b);
      assert (s + [b])[1..] == s[1..] + [b];
    }
  }

  /** The characters written for one byte. */
  method AppendByte(byte: Byte, before: Bytes) returns (output: Bytes)
    ensures output == before + Escape(byte)
  {
    output := before;
    if byte == QUOTE {
      output := output + [BACKSLASH, QUOTE];
    } else if byte == BACKSLASH {
      output := output + [BACKSLASH, BACKSLASH];
    } else if byte == 8 {
      output := output + [BACKSLASH, 98];
    } else if byte == 12 {
      output := output + [BACKSLASH, 102];
    } else if byte == 10 {
      output := output + [BACKSLASH, 110];
    } else if byte == 13 {
      output := output + [BACKSLASH, 114];
    } else if byte == 9 {
      output := output + [BACKSLASH, 116];
    } else if byte < 0x20 {
      output := output + [BACKSLASH, 117, 48, 48, HexDigit(byte / 16), HexDigit(byte % 16)];
    } else {
      output := output + [byte];
    }
  }

  method AppendString(text: Bytes, before: Bytes) returns (output: Bytes)
    ensures output == before + StringText(text)
  {
    hide Escape;
    output := before + [QUOTE];
    for i := 0 to |text|
      invariant output == before + [QUOTE] + Escaped(text[..i])
    {
      EscapedAppends(text[..i], text[i]);
      assert text[..i + 1] == text[..i] + [text[i]];
      output := AppendByte(text[i], output);
    }
    assert text[..|text|] == text;
    output := output + [QUOTE];
  }

  // ----- Reading strings back ------------------------------------------------

  /** The characters that the two-character escapes of JSON stand for: section 7 of RFC 8259. */
  function ShortEscape(c: Byte): Option<Byte>
  {
    if c == 34 || c == 92 || c == 47 then Some(c)
    else if c == 98 then Some(8)
    else if c == 102 then Some(12)
    else if c == 110 then Some(10)
    else if c == 114 then Some(13)
    else if c == 116 then Some(9)
    else None
  }

  function Prepended(b: Byte, rest: Option<Bytes>): Option<Bytes>
  {
    if rest.None? then None else Some([b] + rest.value)
  }

  /** A character and how many bytes of a text it takes. */
  datatype Unit = Unit(byte: Byte, length: nat)

  /** The first character of the text between quotes, if it is one of JSON: no quote and no control character stands for
      itself. Long escapes are in lower case, and only for characters of one byte. */
  function FirstUnit(text: Bytes): (u: Option<Unit>)
    requires text != []
    ensures u.Some? ==> 0 < u.value.length <= |text|
  {
    if text[0] == 34 || text[0] < 32 then None
    else if text[0] != 92 then Some(Unit(text[0], 1))
    else if |text| < 2 then None
    else if text[1] != 117 then
      var b := ShortEscape(text[1]);
      if b.None? then None else Some(Unit(b.value, 2))
    else if |text| < 6 || text[2] != 48 || text[3] != 48 then None
    else
      var high, low := HexValue(text[4]), HexValue(text[5]);
      if high.None? || low.None? || high.value >= 8 then None
      else Some(Unit(high.value * 16 + low.value, 6))
  }

  /** The string that the text between quotes stands for. */
  function Unescaped(text: Bytes): Option<Bytes>
    decreases |text|
  {
    if text == [] then Some([])
    else
      var u := FirstUnit(text);
      if u.None? then None else Prepended(u.value.byte, Unescaped(text[u.value.length..]))
  }

  lemma UnescapesOne(b: Byte, rest: Bytes)
    ensures Unescaped(Escape(b) + rest) == Prepended(b, Unescaped(rest))
  {
    var text := Escape(b) + rest;
    assert text[|Escape(b)|..] == rest;
    UnitOfEscape(b, rest);
    hide Escape, FirstUnit;
  }

  lemma UnitOfEscape(b: Byte, rest: Bytes)
    ensures FirstUnit(Escape(b) + rest) == Some(Unit(b, |Escape(b)|))
  {
    var text := Escape(b) + rest;
    assert forall i :: 0 <= i < |Escape(b)| ==> text[i] == Escape(b)[i];
    if b < 0x20 && |Escape(b)| == 6 {
      HexValueOfDigit(b / 16);
      HexValueOfDigit(b % 16);
    }
  }

  lemma HexValueOfDigit(n: nat)
    requires n < 16
    ensures HexValue(HexDigit(n)) == Some(n)
  {
  }

  /** Every string is read back from its canonical text, escape by escape. */
  lemma {:induction false} StringsReadBack(s: Bytes)
    ensures Unescaped(Escaped(s)) == Some(s)
  {
    hide Escape;
    if s != [] {
      StringsReadBack(s[1..]);
      UnescapesOne(s[0], Escaped(s[1..]));
      assert s == [s[0]] + s[1..];
    }
  }

  // ----- No shorter text ------------------------------------------------------

  lemma ShortestUnit(text: Bytes)
    requires text != [] && FirstUnit(text).Some?
    ensures var u := FirstUnit(text).value;
      |Escape(u.byte)| < u.length || (|Escape(u.byte)| == u.length && text[..u.length] == Escape(u.byte))
  {
    var u := FirstUnit(text).value;
    if u.length == 6 {
      var high, low := HexValue(text[4]).value, HexValue(text[5]).value;
      assert u.byte / 16 == high && u.byte % 16 == low;
    }
  }

  /** The escapes are the shortest there are: any other JSON text of the string is longer. */
  lemma {:induction false} EscapedIsShortest(s: Bytes, text: Bytes)
    requires Unescaped(text) == Some(s)
    ensures text == Escaped(s) || |Escaped(s)| < |text|
    decreases |text|
  {
    hide Escape, FirstUnit;
    if text != [] {
      ShortestUnit(text);
      var u := FirstUnit(text).value;
      assert s[0] == u.byte && Unescaped(text[u.length..]) == Some(s[1..]);
      EscapedIsShortest(s[1..], text[u.length..]);
      assert text == text[..u.length] + text[u.length..];
    }
  }

  // ----- Where a string text ends --------------------------------------------

  lemma EscapePrefixFree(a: Byte, x: Bytes, b: Byte, y: Bytes)
    requires Escape(a) + x == Escape(b) + y
    ensures a == b && x == y
  {
    var s, t := Escape(a) + x, Escape(b) + y;
    assert s[0] == Escape(a)[0] && t[0] == Escape(b)[0];
    if s[0] == BACKSLASH {
      assert s[1] == Escape(a)[1] && t[1] == Escape(b)[1];
      if s[1] == 117 {
        assert s[4] == Escape(a)[4] && t[4] == Escape(b)[4] && s[5] == Escape(a)[5] && t[5] == Escape(b)[5];
      }
    }
    assert a == b;
    assert x == s[|Escape(a)|..] && y == t[|Escape(b)|..];
  }

  /** A string text ends where it ends, and determines the string. */
  lemma {:induction false} EscapedEnds(s: Bytes, x: Bytes, t: Bytes, y: Bytes)
    requires Escaped(s) + ([QUOTE] + x) == Escaped(t) + ([QUOTE] + y)
    ensures s == t && x == y
  {
    hide Escape;
    var p, q := Escaped(s) + ([QUOTE] + x), Escaped(t) + ([QUOTE] + y);
    assert s != [] ==> p[0] == Escape(s[0])[0];
    assert t != [] ==> q[0] == Escape(t[0])[0];
    if s != [] && t != [] {
      assert p == Escape(s[0]) + (Escaped(s[1..]) + ([QUOTE] + x));
      assert q == Escape(t[0]) + (Escaped(t[1..]) + ([QUOTE] + y));
      EscapePrefixFree(s[0], Escaped(s[1..]) + ([QUOTE] + x), t[0], Escaped(t[1..]) + ([QUOTE] + y));
      EscapedEnds(s[1..], x, t[1..], y);
      assert s == [s[0]] + s[1..] && t == [t[0]] + t[1..];
    } else {
      assert s == [] ==> p[1..] == x;
      assert t == [] ==> q[1..] == y;
    }
  }

  lemma StringTextInjective(s: Bytes, x: Bytes, t: Bytes, y: Bytes)
    requires StringText(s) + x == StringText(t) + y
    ensures s == t && x == y
  {
    assert (StringText(s) + x)[1..] == Escaped(s) + ([QUOTE] + x);
    assert (StringText(t) + y)[1..] == Escaped(t) + ([QUOTE] + y);
    EscapedEnds(s, x, t, y);
  }
}
