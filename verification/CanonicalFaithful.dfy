/** Canonical text is faithful: values with the same text are equal but for member order and the sign of zero. */
module CanonicalFaithful {
  import opened Protocol
  import Decimal
  import Utf
  import opened JsonNumber
  import opened JsonString
  import opened CanonicalJson
  import opened CanonicalOrder

  // ----- Where a text ends ---------------------------------------------------

  ghost predicate IsText(s: Bytes)
  {
    exists v: Json, depth: nat :: Canonical(v, depth, []) == Ok(s)
  }

  /** What can follow a value inside a text: nothing, or a separator. */
  predicate Ends(x: Bytes)
  {
    x == [] || x[0] == COMMA || x[0] == CLOSE_BRACKET || x[0] == CLOSE_BRACE
  }

  /** An element of an array, or a member of an object. */
  ghost predicate Piece(member: bool, s: Bytes)
  {
    if member then exists name, text :: s == StringText(name) + ([COLON] + text) && IsText(text) else IsText(s)
  }

  ghost predicate Pieces(member: bool, texts: seq<Bytes>)
  {
    forall i :: 0 <= i < |texts| ==> Piece(member, texts[i])
  }

  /** The first character tells what kind of value a text is of. */
  predicate StartsLike(v: Json, b: Byte)
  {
    match v
    case Null => b == 110
    case Bool(value) => b == if value then 116 else 102
    case Num(_) => b == Decimal.MINUS || Decimal.IsDigit(b)
    case Str(_) => b == QUOTE
    case Arr(_) => b == OPEN_BRACKET
    case Obj(_) => b == OPEN_BRACE
  }

  lemma TextStarts(v: Json, depth: nat)
    requires Canonical(v, depth, []).Ok?
    ensures var s := Canonical(v, depth, []).value; s != [] && StartsLike(v, s[0])
  {
    hide Texts, Entries, Sort, Separated, MemberTexts, Kept, AdjacentDuplicate, NumberText, Escaped;
    if v.Num? { NumberTextChars(v.number); }
  }

  lemma ArrayShape(items: seq<Json>, depth: nat) returns (texts: seq<Bytes>)
    requires Canonical(Arr(items), depth, []).Ok?
    ensures Canonical(Arr(items), depth, []) == Ok([OPEN_BRACKET] + (Separated(texts) + [CLOSE_BRACKET]))
    ensures |texts| == |items| && Pieces(false, texts)
    ensures forall i :: 0 <= i < |items| ==> Canonical(items[i], depth + 1, []) == Ok(texts[i])
  {
    texts := Texts(items, depth + 1).value;
    hide Canonical, Separated;
    TextsAreTexts(items, depth + 1);
    forall i | 0 <= i < |items| ensures Piece(false, texts[i]) {
      assert Canonical(items[i], depth + 1, []) == Ok(texts[i]);
    }
  }

  lemma ObjectShape(members: seq<Member>, depth: nat) returns (es: seq<Entry>)
    requires Canonical(Obj(members), depth, []).Ok?
    ensures Entries(members, depth + 1) == Ok(es) && Keyed(es) && NamesDistinct(es)
    ensures Canonical(Obj(members), depth, []) == Ok([OPEN_BRACE] + (Separated(MemberTexts(Sort(es))) + [CLOSE_BRACE]))
    ensures Pieces(true, MemberTexts(Sort(es)))
  {
    hide Canonical, Entries, Sort, Separated, Keyed, NamesDistinct, MemberText;
    ObjectCanonical(members, depth, []);
    es := Entries(members, depth + 1).value;
    EntriesKeyed(members, depth + 1);
    SortFacts(es);
    KeptAll(Sort(es));
    forall i | 0 <= i < |Sort(es)| ensures Piece(true, MemberTexts(Sort(es))[i]) {
      EntryIsPiece(members, depth + 1, Sort(es)[i]);
    }
  }

  lemma EntryIsPiece(members: seq<Member>, depth: nat, e: Entry)
    requires Entries(members, depth).Ok? && e in Entries(members, depth).value
    ensures Piece(true, MemberText(e))
  {
    hide Canonical, Entries, Utf.Utf16;
    EntriesAreEntries(members, depth);
    var i :| 0 <= i < |members| && EntryOf(members[i], depth).value == e;
    assert Canonical(members[i].value, depth, []) == Ok(e.text);
    assert IsText(e.text);
  }

  /** A text followed by a separator or nothing can be told from what follows. */
  lemma {:induction false} TextPrefixFree(s: Bytes, x: Bytes, t: Bytes, y: Bytes)
    requires IsText(s) && IsText(t) && s + x == t + y && Ends(x) && Ends(y)
    ensures s == t
    decreases |s|, 0
  {
    hide Canonical, Separated, MemberTexts, Sort, Entries, NumberText;
    var a: Json, d: nat :| Canonical(a, d, []) == Ok(s);
    var b: Json, e: nat :| Canonical(b, e, []) == Ok(t);
    TextStarts(a, d);
    TextStarts(b, e);
    assert (s + x)[0] == s[0] && (t + y)[0] == t[0];
    if a.Arr? {
      var ts := ArrayShape(a.items, d);
      var us := ArrayShape(b.items, e);
      Inner(OPEN_BRACKET, Separated(ts), CLOSE_BRACKET, x);
      Inner(OPEN_BRACKET, Separated(us), CLOSE_BRACKET, y);
      PiecesPrefixFree(false, ts, x, us, y, CLOSE_BRACKET);
    } else if a.Obj? {
      var es := ObjectShape(a.members, d);
      var fs := ObjectShape(b.members, e);
      var ts, us := MemberTexts(Sort(es)), MemberTexts(Sort(fs));
      Inner(OPEN_BRACE, Separated(ts), CLOSE_BRACE, x);
      Inner(OPEN_BRACE, Separated(us), CLOSE_BRACE, y);
      PiecesPrefixFree(true, ts, x, us, y, CLOSE_BRACE);
    } else {
      ScalarPrefixFree(a, d, x, b, e, y);
    }
  }

  lemma Inner(open: Byte, inner: Bytes, close: Byte, x: Bytes)
    ensures ([open] + (inner + [close]) + x)[1..] == inner + ([close] + x)
    ensures |inner| < |[open] + (inner + [close])|
  {
  }

  lemma ScalarPrefixFree(a: Json, d: nat, x: Bytes, b: Json, e: nat, y: Bytes)
    requires Canonical(a, d, []).Ok? && Canonical(b, e, []).Ok? && !a.Arr? && !a.Obj? && Ends(x) && Ends(y)
    requires Canonical(a, d, []).value + x == Canonical(b, e, []).value + y
    requires StartsLike(b, Canonical(a, d, []).value[0])
    requires Canonical(a, d, []).value != [] && StartsLike(a, Canonical(a, d, []).value[0])
    ensures Canonical(a, d, []) == Canonical(b, e, [])
  {
    if a.Num? {
      NumberTextChars(a.number);
      NumberTextChars(b.number);
      NumberPrefixFree(NumberText(a.number).value, x, NumberText(b.number).value, y);
    } else if a.Str? {
      StringTextInjective(a.text, x, b.text, y);
    }
  }

  lemma NumberPrefixFree(s: Bytes, x: Bytes, t: Bytes, y: Bytes)
    requires NumberChars(s) && NumberChars(t) && s + x == t + y && Ends(x) && Ends(y)
    ensures s == t
  {
    NumberNotShorter(s, x, t, y);
    NumberNotShorter(t, y, s, x);
    assert s == (s + x)[..|s|] && t == (t + y)[..|t|];
  }

  lemma NumberNotShorter(s: Bytes, x: Bytes, t: Bytes, y: Bytes)
    requires NumberChars(t) && s + x == t + y && Ends(x)
    ensures |s| >= |t|
  {
    if x != [] { assert (s + x)[|s|] == x[0]; }
    assert forall i :: 0 <= i < |t| ==> NumberChar((s + x)[i]);
  }

  lemma {:induction false} PiecePrefixFree(member: bool, s: Bytes, x: Bytes, t: Bytes, y: Bytes)
    requires Piece(member, s) && Piece(member, t) && s + x == t + y && Ends(x) && Ends(y)
    ensures s == t
    decreases |s|, 1
  {
    hide IsText, StringText;
    if member {
      var n, p :| s == StringText(n) + ([COLON] + p) && IsText(p);
      var m, q :| t == StringText(m) + ([COLON] + q) && IsText(q);
      assert s + x == StringText(n) + ([COLON] + (p + x)) && t + y == StringText(m) + ([COLON] + (q + y));
      StringTextInjective(n, [COLON] + (p + x), m, [COLON] + (q + y));
      assert ([COLON] + (p + x))[1..] == p + x && ([COLON] + (q + y))[1..] == q + y;
      TextPrefixFree(p, x, q, y);
    } else {
      TextPrefixFree(s, x, t, y);
    }
  }

  lemma {:induction false} PiecesPrefixFree(member: bool, ts: seq<Bytes>, x: Bytes, us: seq<Bytes>,
                                           y: Bytes, close: Byte)
    requires Pieces(member, ts) && Pieces(member, us) && (close == CLOSE_BRACKET || close == CLOSE_BRACE)
    requires Separated(ts) + ([close] + x) == Separated(us) + ([close] + y)
    ensures ts == us
    decreases |Separated(ts)| + 1, 3
  {
    hide Piece;
    var p, q := Separated(ts) + ([close] + x), Separated(us) + ([close] + y);
    if ts != [] { PieceStarts(member, ts[0]); assert p[0] == ts[0][0]; } else { assert p[0] == close; }
    if us != [] { PieceStarts(member, us[0]); assert q[0] == us[0][0]; } else { assert q[0] == close; }
    if ts != [] {
      assert Continued(ts) == [COMMA] + Separated(ts) && Continued(us) == [COMMA] + Separated(us);
      assert Continued(ts) + ([close] + x) == [COMMA] + p && Continued(us) + ([close] + y) == [COMMA] + q;
      ContinuedPrefixFree(member, ts, x, us, y, close);
    }
  }

  lemma {:induction false} ContinuedPrefixFree(member: bool, ts: seq<Bytes>, x: Bytes, us: seq<Bytes>,
                                              y: Bytes, close: Byte)
    requires Pieces(member, ts) && Pieces(member, us) && (close == CLOSE_BRACKET || close == CLOSE_BRACE)
    requires Continued(ts) + ([close] + x) == Continued(us) + ([close] + y)
    ensures ts == us
    decreases |Continued(ts)|, 2
  {
    hide Piece;
    var p, q := Continued(ts) + ([close] + x), Continued(us) + ([close] + y);
    assert p[0] == if ts == [] then close else COMMA;
    assert q[0] == if us == [] then close else COMMA;
    if ts != [] {
      var r, r' := Continued(ts[1..]) + ([close] + x), Continued(us[1..]) + ([close] + y);
      assert p[1..] == ts[0] + r && q[1..] == us[0] + r';
      PiecePrefixFree(member, ts[0], r, us[0], r');
      assert r == p[1..][|ts[0]|..] && r' == q[1..][|us[0]|..];
      ContinuedPrefixFree(member, ts[1..], x, us[1..], y, close);
      assert ts == [ts[0]] + ts[1..] && us == [us[0]] + us[1..];
    }
  }

  lemma PieceStarts(member: bool, s: Bytes)
    requires Piece(member, s)
    ensures s != [] && s[0] != COMMA && s[0] != CLOSE_BRACKET && s[0] != CLOSE_BRACE
  {
    hide Canonical;
    if member {
      var name, text :| s == StringText(name) + ([COLON] + text) && IsText(text);
    } else {
      var v: Json, d: nat :| Canonical(v, d, []) == Ok(s);
      TextStarts(v, d);
    }
  }

  // ----- The text determines the value ---------------------------------------

  lemma MemberTextInjective(e: Entry, f: Entry)
    requires MemberText(e) == MemberText(f)
    ensures e.name == f.name && e.text == f.text
  {
    StringTextInjective(e.name, [COLON] + e.text, f.name, [COLON] + f.text);
    assert ([COLON] + e.text)[1..] == e.text && ([COLON] + f.text)[1..] == f.text;
  }

  lemma SameMembers(es: seq<Entry>, fs: seq<Entry>)
    requires Keyed(es) && Keyed(fs) && MemberTexts(es) == MemberTexts(fs)
    ensures es == fs
  {
    hide MemberText, Utf.Utf16;
    assert |es| == |MemberTexts(es)| == |fs|;
    forall i | 0 <= i < |es| ensures es[i] == fs[i] {
      assert MemberTexts(es)[i] == MemberText(es[i]) && MemberTexts(fs)[i] == MemberText(fs[i]);
      MemberTextInjective(es[i], fs[i]);
    }
  }

  /** Objects with the same text have the same entries. */
  lemma SameObjects(ms: seq<Member>, d: nat, ns: seq<Member>, e: nat) returns (es: seq<Entry>, fs: seq<Entry>)
    requires Canonical(Obj(ms), d, []).Ok? && Canonical(Obj(ms), d, []) == Canonical(Obj(ns), e, [])
    ensures Entries(ms, d + 1) == Ok(es) && Entries(ns, e + 1) == Ok(fs)
    ensures NamesDistinct(es) && NamesDistinct(fs) && |es| == |fs| && forall x :: x in es <==> x in fs
  {
    hide Canonical, Entries, Sort, Separated, MemberTexts, Keyed, NamesDistinct, AdjacentDuplicate;
    es := ObjectShape(ms, d);
    fs := ObjectShape(ns, e);
    var ts, us := MemberTexts(Sort(es)), MemberTexts(Sort(fs));
    Inner(OPEN_BRACE, Separated(ts), CLOSE_BRACE, []);
    Inner(OPEN_BRACE, Separated(us), CLOSE_BRACE, []);
    PiecesPrefixFree(true, ts, [], us, [], CLOSE_BRACE);
    SortFacts(es);
    SortFacts(fs);
    SameMembers(Sort(es), Sort(fs));
  }

  /** Where the other sequence has an entry. */
  lemma Positions(es: seq<Entry>, fs: seq<Entry>) returns (p: seq<nat>)
    requires forall x :: x in es ==> x in fs
    ensures |p| == |es| && forall i :: 0 <= i < |es| ==> p[i] < |fs| && fs[p[i]] == es[i]
  {
    p := [];
    for k := 0 to |es|
      invariant |p| == k && forall i :: 0 <= i < k ==> p[i] < |fs| && fs[p[i]] == es[i]
    {
      assert es[k] in fs;
      var j: nat :| j < |fs| && fs[j] == es[k];
      p := p + [j];
    }
  }

  lemma PositionsInvert(es: seq<Entry>, fs: seq<Entry>, p: seq<nat>, q: seq<nat>)
    requires NamesDistinct(es) && NamesDistinct(fs) && |es| == |fs|
    requires |p| == |es| && forall i :: 0 <= i < |es| ==> p[i] < |fs| && fs[p[i]] == es[i]
    requires |q| == |fs| && forall j :: 0 <= j < |fs| ==> q[j] < |es| && es[q[j]] == fs[j]
    ensures Inverse(p, q, |es|)
  {
    assert forall i :: 0 <= i < |es| ==> q[p[i]] == i;
    assert forall j :: 0 <= j < |fs| ==> p[q[j]] == j;
  }

  /** Values with the same text are equal but for member order and the sign of zero. */
  lemma {:induction false} SameTextIsAlike(a: Json, d: nat, b: Json, e: nat)
    requires Canonical(a, d, []).Ok? && Canonical(a, d, []) == Canonical(b, e, [])
    ensures Alike(a, b)
    decreases a
  {
    hide Canonical, Texts, Entries;
    TextStarts(a, d);
    TextStarts(b, e);
    if a.Arr? {
      var ts, us := ArrayTexts(a.items, d, b.items, e);
      forall i | 0 <= i < |a.items| ensures Alike(a.items[i], b.items[i]) {
        SameTextIsAlike(a.items[i], d + 1, b.items[i], e + 1);
      }
    } else if a.Obj? {
      var es, fs := SameObjects(a.members, d, b.members, e);
      var p := Positions(es, fs);
      var q := Positions(fs, es);
      PositionsInvert(es, fs, p, q);
      EntriesAreEntries(a.members, d + 1);
      EntriesAreEntries(b.members, e + 1);
      forall i | 0 <= i < |a.members|
        ensures a.members[i].name == b.members[p[i]].name && Alike(a.members[i].value, b.members[p[i]].value)
      {
        EntryMatches(a.members[i], d + 1, b.members[p[i]], e + 1);
        SameTextIsAlike(a.members[i].value, d + 1, b.members[p[i]].value, e + 1);
      }
    } else {
      SameScalar(a, d, b, e);
    }
  }

  lemma ArrayTexts(items: seq<Json>, d: nat, others: seq<Json>, e: nat) returns (ts: seq<Bytes>, us: seq<Bytes>)
    requires Canonical(Arr(items), d, []).Ok? && Canonical(Arr(items), d, []) == Canonical(Arr(others), e, [])
    ensures |items| == |others|
    ensures forall i :: 0 <= i < |items| ==>
      Canonical(items[i], d + 1, []).Ok? && Canonical(items[i], d + 1, []) == Canonical(others[i], e + 1, [])
  {
    hide Canonical, Separated;
    ts := ArrayShape(items, d);
    us := ArrayShape(others, e);
    Inner(OPEN_BRACKET, Separated(ts), CLOSE_BRACKET, []);
    Inner(OPEN_BRACKET, Separated(us), CLOSE_BRACKET, []);
    PiecesPrefixFree(false, ts, [], us, [], CLOSE_BRACKET);
  }

  lemma EntryMatches(m: Member, d: nat, n: Member, e: nat)
    requires EntryOf(m, d).Ok? && EntryOf(m, d) == EntryOf(n, e)
    ensures m.name == n.name && Canonical(m.value, d, []).Ok? && Canonical(m.value, d, []) == Canonical(n.value, e, [])
  {
    hide Canonical, Utf.Utf16;
  }

  lemma SameScalar(a: Json, d: nat, b: Json, e: nat)
    requires Canonical(a, d, []).Ok? && Canonical(a, d, []) == Canonical(b, e, []) && !a.Arr? && !a.Obj?
    requires Canonical(a, d, []).value != []
    requires StartsLike(a, Canonical(a, d, []).value[0]) && StartsLike(b, Canonical(a, d, []).value[0])
    ensures Alike(a, b)
  {
    if a.Num? {
      NumberTextInjective(a.number, b.number);
    } else if a.Str? {
      StringTextInjective(a.text, [], b.text, []);
    }
  }

  /** Two values that have canonical texts have the same one exactly if they are equal but for the order of members at
      any depth and the sign of zero. */
  lemma CanonicalTextIsFaithful(a: Json, b: Json, depth: nat)
    requires Canonical(a, depth, []).Ok? && Canonical(b, depth, []).Ok?
    ensures Canonical(a, depth, []) == Canonical(b, depth, []) <==> Alike(a, b)
  {
    hide Canonical, Alike;
    if Alike(a, b) {
      MemberOrderDoesNotMatter(a, b, depth, []);
    } else if Canonical(a, depth, []) == Canonical(b, depth, []) {
      SameTextIsAlike(a, depth, b, depth);
    }
  }
}
