/** Canonical JSON text of a value: the scheme of RFC 8785, as agent cards are signed over it. */
module CanonicalJson {
  import opened Protocol
  import opened Utf
  import opened JsonNumber
  import opened JsonString

  const MAX_DEPTH: nat := 128

  const COMMA: Byte := 44
  const COLON: Byte := 58
  const OPEN_BRACKET: Byte := 91
  const CLOSE_BRACKET: Byte := 93
  const OPEN_BRACE: Byte := 123
  const CLOSE_BRACE: Byte := 125
  const NULL_TEXT: Bytes := [110, 117, 108, 108]
  const TRUE_TEXT: Bytes := [116, 114, 117, 101]
  const FALSE_TEXT: Bytes := [102, 97, 108, 115, 101]

  // ----- Values, as the parser hands them over --------------------------------

  lemma EmptyIsValid()
    ensures ValidUtf8([])
  {
    assert EncodeAll([]) == [];
  }

  /** Member names are valid UTF-8. */
  type Name = s: Bytes | ValidUtf8(s) ghost witness (EmptyIsValid(); [])

  type Double = n: Number | Valid(n) witness Zero(false)

  datatype Member = Member(name: Name, value: Json)

  datatype Json =
    | Null
    | Bool(value: bool)
    | Num(number: Double)
    | Str(text: Bytes)
    | Arr(items: seq<Json>)
    | Obj(members: seq<Member>)

  // ----- The canonical text --------------------------------------------------

  /** A member with its sort key and the canonical text of its value. */
  datatype Entry = Entry(key: seq<int>, name: Bytes, text: Bytes)

  function Insert(e: Entry, sorted: seq<Entry>): seq<Entry>
  {
    if sorted == [] || !Less(sorted[0].key, e.key) then [e] + sorted else [sorted[0]] + Insert(e, sorted[1..])
  }

  /** Members by key. */
  function Sort(es: seq<Entry>): seq<Entry>
  {
    if es == [] then [] else Insert(es[0], Sort(es[1..]))
  }

  predicate AdjacentDuplicate(es: seq<Entry>)
  {
    exists i :: 0 < i < |es| && es[i].name == es[i - 1].name
  }

  function Kept(es: seq<Entry>, excluded: Bytes): seq<Entry>
  {
    if es == [] then []
    else
      Kept(es[..|es| - 1], excluded) +
      (if excluded != [] && es[|es| - 1].name == excluded then [] else [es[|es| - 1]])
  }

  function Separated(texts: seq<Bytes>): Bytes
  {
    if texts == [] then [] else texts[0] + Continued(texts[1..])
  }

  function Continued(texts: seq<Bytes>): Bytes
  {
    if texts == [] then [] else [COMMA] + (texts[0] + Continued(texts[1..]))
  }

  function MemberText(e: Entry): Bytes
  {
    StringText(e.name) + ([COLON] + e.text)
  }

  function MemberTexts(es: seq<Entry>): seq<Bytes>
  {
    seq(|es|, i requires 0 <= i < |es| => MemberText(es[i]))
  }

  /** The text of an object, its members sorted: an error if a name appears twice. */
  function ObjectText(sorted: seq<Entry>, excluded: Bytes): Result<Bytes, ()>
  {
    if AdjacentDuplicate(sorted) then Err(())
    else Ok([OPEN_BRACE] + (Separated(MemberTexts(Kept(sorted, excluded))) + [CLOSE_BRACE]))
  }

  function Canonical(v: Json, depth: nat, excluded: Bytes): Result<Bytes, ()>
    decreases v
  {
    match v
    case Null => Ok(NULL_TEXT)
    case Bool(b) => Ok(if b then TRUE_TEXT else FALSE_TEXT)
    case Num(n) => NumberText(n)
    case Str(s) => Ok(StringText(s))
    case Arr(items) =>
      if depth >= MAX_DEPTH then Err(())
      else
        var texts := Texts(items, depth + 1);
        if texts.Err? then Err(()) else Ok([OPEN_BRACKET] + (Separated(texts.value) + [CLOSE_BRACKET]))
    case Obj(members) =>
      if depth >= MAX_DEPTH then Err(())
      else
        var es := Entries(members, depth + 1);
        if es.Err? then Err(()) else ObjectText(Sort(es.value), excluded)
  }

  function Texts(items: seq<Json>, depth: nat): Result<seq<Bytes>, ()>
    decreases items
  {
    if items == [] then Ok([])
    else
      var text, rest := Canonical(items[0], depth, []), Texts(items[1..], depth);
      if text.Err? || rest.Err? then Err(()) else Ok([text.value] + rest.value)
  }

  function Entries(members: seq<Member>, depth: nat): Result<seq<Entry>, ()>
    decreases members
  {
    if members == [] then Ok([])
    else
      var key, text := Utf16(members[0].name), Canonical(members[0].value, depth, []);
      var rest := Entries(members[1..], depth);
      if key.None? || text.Err? || rest.Err? then Err(())
      else Ok([Entry(key.value, members[0].name, text.value)] + rest.value)
  }

  // ----- Writing an object's members ------------------------------------------

  lemma {:induction false} ContinuedAppends(texts: seq<Bytes>, text: Bytes)
    ensures Continued(texts + [text]) == Continued(texts) + ([COMMA] + text)
  {
    if texts == [] {
      assert texts + [text] == [text] && Continued([text][1..]) == [];
    } else {
      ContinuedAppends(texts[1..], text);
      assert (texts + [text])[1..] == texts[1..] + [text];
    }
  }

  lemma SeparatedAppends(texts: seq<Bytes>, text: Bytes)
    ensures Separated(texts + [text]) == if texts == [] then text else Separated(texts) + ([COMMA] + text)
  {
    if texts == [] {
      assert (texts + [text])[1..] == [];
    } else {
      assert (texts + [text])[1..] == texts[1..] + [text];
      ContinuedAppends(texts[1..], text);
    }
  }

  /** What is written once these members are kept. */
  function Written(kept: seq<Entry>): Bytes
  {
    [OPEN_BRACE] + Separated(MemberTexts(kept))
  }

  lemma WrittenAppends(kept: seq<Entry>, member: Entry)
    ensures Written(kept + [member]) == Written(kept) + ((if kept == [] then [] else [COMMA]) + MemberText(member))
  {
    MemberTextsAppend(kept, member);
    SeparatedAppends(MemberTexts(kept), MemberText(member));
    hide MemberText, MemberTexts, Separated;
    NothingSeparated();
    Associative([OPEN_BRACE], Separated(MemberTexts(kept)), [COMMA] + MemberText(member));
    Associative([], [], MemberText(member));
  }

  lemma MemberTextsAppend(kept: seq<Entry>, member: Entry)
    ensures MemberTexts(kept + [member]) == MemberTexts(kept) + [MemberText(member)]
    ensures kept == [] <==> MemberTexts(kept) == []
  {
    hide MemberText;
  }

  lemma Associative(a: Bytes, b: Bytes, c: Bytes)
    ensures a + (b + c) == a + b + c && [] + c == c && a + [] == a
  {
  }

  lemma NothingSeparated()
    ensures Separated([]) == []
  {
  }

  lemma KeptAppends(es: seq<Entry>, k: nat, excluded: Bytes)
    requires k < |es|
    ensures Kept(es[..k + 1], excluded) ==
      if excluded != [] && es[k].name == excluded then Kept(es[..k], excluded) else Kept(es[..k], excluded) + [es[k]]
  {
    assert es[..k + 1][..k] == es[..k];
  }

  /** Writes the sorted members with the separators between those that are kept, and stops at a repeated name. */
  method AppendMembers(members: seq<Entry>, excluded: Bytes, before: Bytes) returns (r: Result<Bytes, ()>)
    ensures ObjectText(members, excluded).Err? ==> r.Err?
    ensures ObjectText(members, excluded).Ok? ==> r == Ok(before + ObjectText(members, excluded).value)
  {
    hide MemberText, Kept, Written, ObjectText, AdjacentDuplicate;
    var output := before + [OPEN_BRACE];
    var first := true;
    assert members[..0] == [] && members[..|members|] == members;
    KeptNothing(excluded);
    ObjectIsWritten(members, excluded);
    for index := 0 to |members|
      invariant NoneAdjacent(members, index)
      invariant output == before + Written(Kept(members[..index], excluded))
      invariant first == (Kept(members[..index], excluded) == [])
    {
      var member := members[index];
      KeptAppends(members, index, excluded);
      AdjacentSoFar(members, index);
      if index != 0 && member.name == members[index - 1].name {
        return Err(());
      }
      if excluded != [] && member.name == excluded {
        continue;
      }
      ghost var kept := Kept(members[..index], excluded);
      WrittenAppends(kept, member);
      Associative(before, Written(kept), (if first then [] else [COMMA]) + MemberText(member));
      output := AppendMember(member, first, output);
      first := false;
    }
    NoDuplicates(members);
    Associative(before, Written(Kept(members, excluded)), [CLOSE_BRACE]);
    return Ok(output + [CLOSE_BRACE]);
  }

  ghost predicate NoneAdjacent(members: seq<Entry>, k: nat)
    requires k <= |members|
  {
    forall i :: 0 < i < k ==> members[i].name != members[i - 1].name
  }

  lemma AdjacentSoFar(members: seq<Entry>, k: nat)
    requires k < |members| && NoneAdjacent(members, k)
    ensures if k != 0 && members[k].name == members[k - 1].name then AdjacentDuplicate(members)
            else NoneAdjacent(members, k + 1)
  {
  }

  lemma NoDuplicates(members: seq<Entry>)
    requires NoneAdjacent(members, |members|)
    ensures !AdjacentDuplicate(members)
  {
  }

  lemma KeptNothing(excluded: Bytes)
    ensures Kept([], excluded) == [] && Written([]) == [OPEN_BRACE]
  {
    NothingSeparated();
    assert MemberTexts([]) == [];
  }

  lemma ObjectIsWritten(members: seq<Entry>, excluded: Bytes)
    ensures ObjectText(members, excluded) ==
      if AdjacentDuplicate(members) then Err(()) else Ok(Written(Kept(members, excluded)) + [CLOSE_BRACE])
  {
    Associative([OPEN_BRACE], Separated(MemberTexts(Kept(members, excluded))), [CLOSE_BRACE]);
  }

  method AppendMember(member: Entry, first: bool, before: Bytes) returns (output: Bytes)
    ensures output == before + ((if first then [] else [COMMA]) + MemberText(member))
  {
    hide StringText;
    output := before;
    if !first {
      output := output + [COMMA];
    }
    output := AppendString(member.name, output);
    output := output + [COLON];
    output := output + member.text;
  }
}
