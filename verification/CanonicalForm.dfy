/** The canonical text as RFC 8785 describes it: JSON without white space, members in the order of their names' UTF-16
    code units, strings in their shortest form. */
module CanonicalForm {
  import opened Protocol
  import Utf
  import opened JsonNumber
  import opened JsonString
  import opened CanonicalJson
  import opened CanonicalOrder
  import opened CanonicalFaithful

  /** A quoted text that stands for the string, and no shorter one does. */
  ghost predicate StringForm(t: Bytes, s: Bytes)
  {
    && |t| >= 2 && t[0] == 34 && t[|t| - 1] == 34
    && Unescaped(t[1..|t| - 1]) == Some(s)
    && forall u :: Unescaped(u) == Some(s) ==> |t| - 2 <= |u|
  }

  ghost predicate NumberForm(t: Bytes, n: Number)
    requires Valid(n)
  {
    match n
    case NotFinite => false
    case Zero(_) => t == [48]
    case Finite(negative, digits, exponent) =>
      && Read(t).negative == negative && Equals(Read(t), digits, exponent)
      && t == if negative then [45] + Layout(digits, exponent) else Layout(digits, exponent)
  }

  function Commas(parts: seq<Bytes>): Bytes
  {
    if parts == [] then [] else if |parts| == 1 then parts[0] else parts[0] + [44] + Commas(parts[1..])
  }

  /** By the name's code units, each name once. */
  ghost predicate InOrder(members: seq<Member>)
  {
    forall i, j :: 0 <= i < j < |members| ==>
      && Utf.Utf16(members[i].name).Some? && Utf.Utf16(members[j].name).Some?
      && Less(Utf.Utf16(members[i].name).value, Utf.Utf16(members[j].name).value)
  }

  ghost predicate SameMembers(a: seq<Member>, b: seq<Member>)
  {
    |a| == |b| && forall m :: m in a <==> m in b
  }

  /** The members between braces, in order. */
  ghost predicate Framed(t: Bytes, parts: seq<Bytes>, sorted: seq<Member>, members: seq<Member>)
  {
    && |parts| == |sorted| && t == [123] + Commas(parts) + [125]
    && SameMembers(sorted, members) && InOrder(sorted)
  }

  /** A JSON text of the value, in canonical form. */
  ghost predicate Form(t: Bytes, v: Json)
    decreases v, 1
  {
    match v
    case Null => t == [110, 117, 108, 108]
    case Bool(b) => t == if b then [116, 114, 117, 101] else [102, 97, 108, 115, 101]
    case Num(n) => NumberForm(t, n)
    case Str(s) => StringForm(t, s)
    case Arr(items) =>
      exists parts: seq<Bytes> ::
        && |parts| == |items| && t == [91] + Commas(parts) + [93]
        && forall i :: 0 <= i < |items| ==> Form(parts[i], items[i])
    case Obj(members) =>
      exists parts: seq<Bytes>, sorted: seq<Member> ::
        && Framed(t, parts, sorted, members)
        && forall i :: 0 <= i < |sorted| && sorted[i] in members ==> MemberForm(parts[i], sorted[i])
  }

  ghost predicate MemberForm(t: Bytes, m: Member)
    decreases m, 0
  {
    exists name, value :: t == name + [58] + value && StringForm(name, m.name) && Form(value, m.value)
  }

  // ----- Strings, numbers and separators ---------------------------------------

  lemma StringHasForm(s: Bytes)
    ensures StringForm(StringText(s), s)
  {
    var t := StringText(s);
    assert t[1..|t| - 1] == Escaped(s);
    StringsReadBack(s);
    forall u | Unescaped(u) == Some(s) ensures |t| - 2 <= |u| { EscapedIsShortest(s, u); }
  }

  lemma NumberHasForm(n: Number)
    requires Valid(n) && NumberText(n).Ok?
    ensures NumberForm(NumberText(n).value, n)
  {
    if n.Finite? {
      NumberTextDenotes(n);
      hide Layout, Read, Equals;
      assert [] + Layout(n.digits, n.exponent) == Layout(n.digits, n.exponent);
    }
  }

  lemma {:induction false} SeparatedIsCommas(parts: seq<Bytes>)
    ensures Separated(parts) == Commas(parts)
  {
    if parts != [] {
      ContinuedIsCommas(parts[1..]);
      assert |parts| == 1 ==> parts[0] + Continued(parts[1..]) == parts[0];
      assert parts[0] + ([44] + Commas(parts[1..])) == parts[0] + [44] + Commas(parts[1..]);
    }
  }

  lemma {:induction false} ContinuedIsCommas(parts: seq<Bytes>)
    ensures Continued(parts) == if parts == [] then [] else [44] + Commas(parts)
  {
    if parts != [] {
      ContinuedIsCommas(parts[1..]);
      assert |parts| == 1 ==> parts[0] + Continued(parts[1..]) == parts[0];
      assert parts[0] + ([44] + Commas(parts[1..])) == parts[0] + [44] + Commas(parts[1..]);
    }
  }

  // ----- Members in order -------------------------------------------------------

  /** The members that these entries were made of. */
  lemma {:induction false} MembersOf(order: seq<Entry>, members: seq<Member>, depth: nat) returns (sorted: seq<Member>)
    requires forall e :: e in order ==> exists m :: m in members && EntryOf(m, depth) == Ok(e)
    ensures |sorted| == |order|
    ensures forall i :: 0 <= i < |order| ==> sorted[i] in members && EntryOf(sorted[i], depth) == Ok(order[i])
  {
    hide EntryOf;
    if order == [] {
      sorted := [];
    } else {
      var front := order[..|order| - 1];
      assert order[|order| - 1] in order && forall e :: e in front ==> e in order;
      var m :| m in members && EntryOf(m, depth) == Ok(order[|order| - 1]);
      sorted := MembersOf(front, members, depth);
      sorted := sorted + [m];
    }
  }

  lemma EntryFields(m: Member, depth: nat, e: Entry)
    requires EntryOf(m, depth) == Ok(e)
    ensures e.name == m.name && Utf.Utf16(m.name) == Some(e.key) && Canonical(m.value, depth, []) == Ok(e.text)
  {
    hide Canonical, Utf.Utf16;
  }

  /** The members of an object that has a text, in the order of the text. */
  lemma SortedMembers(members: seq<Member>, depth: nat, es: seq<Entry>) returns (sorted: seq<Member>)
    requires Entries(members, depth) == Ok(es) && Keyed(es) && NamesDistinct(es)
    ensures SameMembers(sorted, members) && InOrder(sorted) && |Sort(es)| == |sorted|
    ensures forall i :: 0 <= i < |sorted| ==> EntryOf(sorted[i], depth) == Ok(Sort(es)[i])
  {
    hide EntryOf, Sort, Entries, Keyed, Canonical, Utf.Utf16, Less;
    var order := Sort(es);
    SortFacts(es);
    EntriesAreEntries(members, depth);
    forall e | e in order ensures exists m :: m in members && EntryOf(m, depth) == Ok(e) {
      var k :| 0 <= k < |es| && es[k] == e;
      assert members[k] in members && EntryOf(members[k], depth) == Ok(e);
    }
    sorted := MembersOf(order, members, depth);
    forall i | 0 <= i < |sorted| ensures Utf.Utf16(sorted[i].name) == Some(order[i].key) {
      EntryFields(sorted[i], depth, order[i]);
    }
    forall k | 0 <= k < |members| ensures members[k] in sorted {
      assert es[k] in order;
      var i :| 0 <= i < |order| && order[i] == es[k];
      SameName(members, depth, es, k, sorted[i]);
    }
  }

  lemma SameName(members: seq<Member>, depth: nat, es: seq<Entry>, k: nat, m: Member)
    requires |es| == |members| && k < |members| && m in members && NamesDistinct(es)
    requires forall i :: 0 <= i < |members| ==> EntryOf(members[i], depth) == Ok(es[i])
    requires EntryOf(m, depth) == Ok(es[k])
    ensures m == members[k]
  {
    hide EntryOf;
    var j :| 0 <= j < |members| && members[j] == m;
    assert es[j].name == es[k].name;
  }

  // ----- Every canonical text --------------------------------------------------

  /** Every text the program writes is a JSON text of its value in canonical form. */
  lemma {:induction false} CanonicalHasForm(v: Json, depth: nat)
    requires Canonical(v, depth, []).Ok?
    ensures Form(Canonical(v, depth, []).value, v)
    decreases v
  {
    hide Canonical, Form, Separated, Commas, MemberTexts, Sort, Keyed, NamesDistinct, EntryOf, Entries, Framed,
      MemberForm, MemberText, InOrder;
    var t := Canonical(v, depth, []).value;
    if v.Arr? {
      var parts := ArrayShape(v.items, depth);
      SeparatedIsCommas(parts);
      forall i | 0 <= i < |v.items| ensures Form(parts[i], v.items[i]) { CanonicalHasForm(v.items[i], depth + 1); }
      ArrayForm(t, v, parts);
    } else if v.Obj? {
      var es := ObjectShape(v.members, depth);
      var sorted := SortedMembers(v.members, depth + 1, es);
      var order := Sort(es);
      forall i | 0 <= i < |sorted| ensures MemberForm(MemberText(order[i]), sorted[i]) {
        assert sorted[i] in v.members;
        EntryFields(sorted[i], depth + 1, order[i]);
        CanonicalHasForm(sorted[i].value, depth + 1);
        MemberHasForm(order[i], sorted[i]);
      }
      ObjectIsFramed(t, order, sorted, v.members);
      ObjectForm(t, v, MemberTexts(order), sorted);
    } else {
      ScalarForm(v, depth);
    }
  }

  lemma ScalarForm(v: Json, depth: nat)
    requires Canonical(v, depth, []).Ok? && !v.Arr? && !v.Obj?
    ensures Form(Canonical(v, depth, []).value, v)
  {
    hide NumberForm, StringForm, NumberText, StringText;
    if v.Num? { NumberHasForm(v.number); }
    if v.Str? { StringHasForm(v.text); }
  }

  lemma ArrayForm(t: Bytes, v: Json, parts: seq<Bytes>)
    requires v.Arr? && |parts| == |v.items| && t == [91] + (Commas(parts) + [93])
    requires forall i :: 0 <= i < |parts| ==> Form(parts[i], v.items[i])
    ensures Form(t, v)
  {
    hide Commas;
    assert t == [91] + Commas(parts) + [93];
  }

  lemma MemberHasForm(e: Entry, m: Member)
    requires e.name == m.name && Form(e.text, m.value)
    ensures MemberForm(MemberText(e), m)
  {
    hide Form, StringForm, StringText;
    StringHasForm(e.name);
    assert MemberText(e) == StringText(e.name) + [58] + e.text;
  }

  lemma ObjectForm(t: Bytes, v: Json, parts: seq<Bytes>, sorted: seq<Member>)
    requires v.Obj? && Framed(t, parts, sorted, v.members)
    requires forall i :: 0 <= i < |parts| ==> MemberForm(parts[i], sorted[i])
    ensures Form(t, v)
  {
    hide MemberForm, Commas, SameMembers, InOrder;
  }

  lemma ObjectIsFramed(t: Bytes, order: seq<Entry>, sorted: seq<Member>, members: seq<Member>)
    requires |order| == |sorted| && SameMembers(sorted, members) && InOrder(sorted)
    requires t == [123] + (Separated(MemberTexts(order)) + [125])
    ensures Framed(t, MemberTexts(order), sorted, members)
    ensures |MemberTexts(order)| == |order|
    ensures forall i :: 0 <= i < |order| ==> MemberTexts(order)[i] == MemberText(order[i])
  {
    hide Commas, Separated, SameMembers, InOrder, MemberText;
    SeparatedIsCommas(MemberTexts(order));
    assert t == [123] + Commas(MemberTexts(order)) + [125];
  }
}
