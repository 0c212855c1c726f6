/** Canonical text does not depend on member order, catches every duplicate name, and can leave out a root member. */
module CanonicalOrder {
  import opened Protocol
  import opened Utf
  import opened JsonNumber
  import opened CanonicalJson

  // ----- Members and items one by one ----------------------------------------

  function EntryOf(m: Member, depth: nat): Result<Entry, ()>
  {
    var key, text := Utf16(m.name), Canonical(m.value, depth, []);
    if key.None? || text.Err? then Err(()) else Ok(Entry(key.value, m.name, text.value))
  }

  lemma {:induction false} EntriesAreEntries(members: seq<Member>, depth: nat)
    ensures Entries(members, depth).Ok? <==> forall i :: 0 <= i < |members| ==> EntryOf(members[i], depth).Ok?
    ensures Entries(members, depth).Ok? ==>
      && |Entries(members, depth).value| == |members|
      && forall i :: 0 <= i < |members| ==> Entries(members, depth).value[i] == EntryOf(members[i], depth).value
  {
    hide Canonical, Utf16;
    if members != [] {
      EntriesAreEntries(members[1..], depth);
      assert forall i :: 0 < i < |members| ==> members[i] == members[1..][i - 1];
      assert EntryOf(members[0], depth).Ok? <==>
        Utf16(members[0].name).Some? && Canonical(members[0].value, depth, []).Ok?;
    }
  }

  lemma {:induction false} TextsAreTexts(items: seq<Json>, depth: nat)
    ensures Texts(items, depth).Ok? <==> forall i :: 0 <= i < |items| ==> Canonical(items[i], depth, []).Ok?
    ensures Texts(items, depth).Ok? ==>
      && |Texts(items, depth).value| == |items|
      && forall i :: 0 <= i < |items| ==> Texts(items, depth).value[i] == Canonical(items[i], depth, []).value
  {
    hide Canonical;
    if items != [] {
      TextsAreTexts(items[1..], depth);
      assert forall i :: 0 < i < |items| ==> items[i] == items[1..][i - 1];
    }
  }

  // ----- Sorting by key ------------------------------------------------------

  /** Entries made from members: the key is the name's. */
  ghost predicate Keyed(es: seq<Entry>)
  {
    forall i :: 0 <= i < |es| ==> ValidUtf8(es[i].name) && Utf16(es[i].name) == Some(es[i].key)
  }

  ghost predicate Ascending(es: seq<Entry>)
  {
    forall i, j :: 0 <= i < j < |es| ==> !Less(es[j].key, es[i].key)
  }

  ghost predicate Strict(es: seq<Entry>)
  {
    forall i, j :: 0 <= i < j < |es| ==> Less(es[i].key, es[j].key)
  }

  lemma {:induction false} InsertAscends(e: Entry, sorted: seq<Entry>)
    requires Ascending(sorted)
    ensures Ascending(Insert(e, sorted)) && |Insert(e, sorted)| == |sorted| + 1
    ensures forall x :: x in Insert(e, sorted) <==> x == e || x in sorted
  {
    hide Less;
    if sorted != [] {
      var rest := sorted[1..];
      assert forall x :: x in sorted <==> x == sorted[0] || x in rest;
      if Less(sorted[0].key, e.key) {
        InsertAscends(e, rest);
        var result := Insert(e, rest);
        forall j | 0 <= j < |result| ensures !Less(result[j].key, sorted[0].key) {
          assert result[j] == e || result[j] in rest;
          if result[j] == e { LessAsymmetric(sorted[0].key, e.key); }
        }
      } else {
        forall j | 0 <= j < |sorted| ensures !Less(sorted[j].key, e.key) {
          if j > 0 { NotLessTransitive(sorted[j].key, sorted[0].key, e.key); }
        }
      }
    }
  }

  lemma LessAsymmetric(a: seq<int>, b: seq<int>)
    requires Less(a, b)
    ensures !Less(b, a)
  {
    if Less(b, a) {
      LessTransitive(a, b, a);
      LessIrreflexive(a);
    }
  }

  lemma NotLessTransitive(c: seq<int>, b: seq<int>, a: seq<int>)
    requires !Less(c, b) && !Less(b, a)
    ensures !Less(c, a)
  {
    if Less(c, a) {
      LessTotal(b, c);
      if Less(b, c) { LessTransitive(b, c, a); }
    }
  }

  lemma {:induction false} SortAscends(es: seq<Entry>)
    ensures Ascending(Sort(es)) && |Sort(es)| == |es| && forall x :: x in Sort(es) <==> x in es
  {
    if es != [] {
      SortAscends(es[1..]);
      InsertAscends(es[0], Sort(es[1..]));
      assert forall x :: x in es <==> x == es[0] || x in es[1..];
    }
  }

  // ----- Duplicates ----------------------------------------------------------

  ghost predicate NamesDistinct(es: seq<Entry>)
  {
    forall i, j :: 0 <= i < j < |es| ==> es[i].name != es[j].name
  }

  ghost function Names(es: seq<Entry>): set<Bytes>
  {
    if es == [] then {} else Names(es[..|es| - 1]) + {es[|es| - 1].name}
  }

  lemma {:induction false} NamesAre(es: seq<Entry>, name: Bytes)
    ensures name in Names(es) <==> exists i :: 0 <= i < |es| && es[i].name == name
  {
    if es != [] {
      var front := es[..|es| - 1];
      NamesAre(front, name);
      assert forall i :: 0 <= i < |front| ==> es[i] == front[i];
    }
  }

  lemma {:induction false} DistinctNamesCount(es: seq<Entry>)
    ensures |Names(es)| <= |es| && (NamesDistinct(es) <==> |Names(es)| == |es|)
  {
    if es != [] {
      var front, last := es[..|es| - 1], es[|es| - 1];
      DistinctNamesCount(front);
      NamesAre(front, last.name);
      assert forall i :: 0 <= i < |front| ==> es[i] == front[i];
      if last.name in Names(front) {
        assert Names(es) == Names(front);
      }
    }
  }

  /** As many entries, and the same ones. */
  ghost predicate SameEntries(es: seq<Entry>, fs: seq<Entry>)
  {
    |es| == |fs| && forall x :: x in es <==> x in fs
  }

  lemma SameEntriesDistinct(es: seq<Entry>, fs: seq<Entry>)
    requires SameEntries(es, fs)
    ensures NamesDistinct(es) <==> NamesDistinct(fs)
  {
    DistinctNamesCount(es);
    DistinctNamesCount(fs);
    forall name ensures name in Names(es) <==> name in Names(fs) {
      NamesAre(es, name);
      NamesAre(fs, name);
      forall i | 0 <= i < |es| ensures es[i] in fs {}
      forall i | 0 <= i < |es| ensures fs[i] in es {}
    }
    assert Names(es) == Names(fs);
  }

  lemma SortKeyed(es: seq<Entry>)
    requires Keyed(es)
    ensures Keyed(Sort(es))
  {
    SortAscends(es);
    var sorted := Sort(es);
    forall i | 0 <= i < |sorted| ensures ValidUtf8(sorted[i].name) && Utf16(sorted[i].name) == Some(sorted[i].key) {
      assert sorted[i] in es;
    }
  }

  /** After sorting, a repeated name stands next to itself: names with equal keys are equal. */
  lemma AdjacentCheckCatchesDuplicates(sorted: seq<Entry>)
    requires Ascending(sorted) && Keyed(sorted)
    ensures AdjacentDuplicate(sorted) <==> !NamesDistinct(sorted)
    ensures NamesDistinct(sorted) ==> Strict(sorted)
  {
    hide Less, Utf16;
    if !NamesDistinct(sorted) {
      var i, j :| 0 <= i < j < |sorted| && sorted[i].name == sorted[j].name;
      LessTotal(sorted[i].key, sorted[i + 1].key);
      KeyInjective(sorted[i].name, sorted[i + 1].name);
      assert sorted[i + 1].name == sorted[i + 1 - 1].name;
    }
    if NamesDistinct(sorted) {
      forall i, j | 0 <= i < j < |sorted| ensures Less(sorted[i].key, sorted[j].key) {
        LessTotal(sorted[i].key, sorted[j].key);
        KeyInjective(sorted[i].name, sorted[j].name);
      }
    }
  }

  /** Strictly sorted sequences with the same elements are equal. */
  lemma {:induction false} StrictUnique(s: seq<Entry>, t: seq<Entry>)
    requires Strict(s) && Strict(t) && forall x :: x in s <==> x in t
    ensures s == t
  {
    hide Less;
    assert t != [] ==> t[0] in t;
    assert s != [] ==> s[0] in s;
    if s != [] {
      assert s[0] in t && t[0] in s;
      var i :| 0 <= i < |t| && t[i] == s[0];
      var j :| 0 <= j < |s| && s[j] == t[0];
      if i > 0 && j > 0 { LessAsymmetric(s[0].key, t[0].key); }
      assert s[0] == t[0];
      LessIrreflexive(s[0].key);
      var s', t' := s[1..], t[1..];
      forall x ensures x in s' <==> x in t' {
        assert (x in s <==> x == s[0] || x in s') && (x in t <==> x == t[0] || x in t');
        assert s[0] !in s' && t[0] !in t';
      }
      StrictUnique(s', t');
      assert s == [s[0]] + s' && t == [t[0]] + t';
    }
  }

  lemma EntriesKeyed(members: seq<Member>, depth: nat)
    requires Entries(members, depth).Ok?
    ensures Keyed(Entries(members, depth).value)
  {
    hide Canonical, Utf16;
    EntriesAreEntries(members, depth);
  }

  /** Sorting, the adjacent check and the key order, put together. */
  lemma SortFacts(es: seq<Entry>)
    requires Keyed(es)
    ensures Keyed(Sort(es)) && |Sort(es)| == |es| && forall x :: x in Sort(es) <==> x in es
    ensures AdjacentDuplicate(Sort(es)) <==> !NamesDistinct(es)
    ensures NamesDistinct(es) ==> Strict(Sort(es))
  {
    hide Keyed, Ascending, NamesDistinct, AdjacentDuplicate, Strict, Sort;
    SortAscends(es);
    SortKeyed(es);
    SameEntriesDistinct(Sort(es), es);
    AdjacentCheckCatchesDuplicates(Sort(es));
  }

  /** The sort need not be stable: any ascending arrangement of the entries gives the same text, or is refused alike. */
  lemma AnySortWillDo(sorted: seq<Entry>, es: seq<Entry>, excluded: Bytes)
    requires Ascending(sorted) && Keyed(sorted) && Keyed(es) && SameEntries(sorted, es)
    ensures ObjectText(sorted, excluded) == ObjectText(Sort(es), excluded)
  {
    hide Keyed, Ascending, NamesDistinct, AdjacentDuplicate, Strict, Sort;
    SortFacts(es);
    AdjacentCheckCatchesDuplicates(sorted);
    SameEntriesDistinct(sorted, es);
    if NamesDistinct(es) { StrictUnique(sorted, Sort(es)); }
  }

  lemma ObjectCanonical(members: seq<Member>, depth: nat, excluded: Bytes)
    ensures Canonical(Obj(members), depth, excluded) ==
      if depth >= MAX_DEPTH || Entries(members, depth + 1).Err? then Err(())
      else ObjectText(Sort(Entries(members, depth + 1).value), excluded)
  {
    hide ObjectText, Sort, Entries;
  }

  lemma RefusedIffDuplicate(es: seq<Entry>, excluded: Bytes)
    requires Keyed(es)
    ensures ObjectText(Sort(es), excluded).Err? <==> !NamesDistinct(es)
  {
    hide NamesDistinct, AdjacentDuplicate, Strict, Sort, Keyed;
    SortFacts(es);
  }

  /** An object is refused for a repeated name, wherever it stands, and for nothing else once its values have texts. */
  lemma DuplicatesAreRefused(members: seq<Member>, depth: nat, excluded: Bytes)
    requires depth < MAX_DEPTH && Entries(members, depth + 1).Ok?
    ensures Canonical(Obj(members), depth, excluded).Ok? <==> DistinctNames(members)
  {
    hide Canonical, Utf16, Entries, ObjectText, Sort, Keyed;
    var es := Entries(members, depth + 1).value;
    ObjectCanonical(members, depth, excluded);
    EntriesKeyed(members, depth + 1);
    RefusedIffDuplicate(es, excluded);
    EntriesAreEntries(members, depth + 1);
    forall i | 0 <= i < |members| ensures es[i].name == members[i].name {
      assert es[i] == EntryOf(members[i], depth + 1).value;
    }
  }

  predicate DistinctNames(members: seq<Member>)
  {
    forall i, j :: 0 <= i < j < |members| ==> members[i].name != members[j].name
  }

  /** Finite numbers, no name twice in an object, and no array or object nested 128 deep. */
  predicate HasText(v: Json, depth: nat)
    decreases v
  {
    match v
    case Num(n) => !n.NotFinite?
    case Arr(items) => depth < 128 && forall i :: 0 <= i < |items| ==> HasText(items[i], depth + 1)
    case Obj(members) =>
      && depth < 128 && DistinctNames(members)
      && forall i :: 0 <= i < |members| ==> HasText(members[i].value, depth + 1)
    case _ => true
  }

  /** A value is refused for a number that is not finite, a name repeated in one object or nesting beyond the limit, at
      any depth, and for nothing else. */
  lemma {:induction false} RefusedExactly(v: Json, depth: nat, excluded: Bytes)
    ensures Canonical(v, depth, excluded).Ok? <==> HasText(v, depth)
    decreases v
  {
    hide Canonical, EntryOf, DistinctNames;
    if v.Arr? {
      forall i | 0 <= i < |v.items|
        ensures Canonical(v.items[i], depth + 1, []).Ok? <==> HasText(v.items[i], depth + 1)
      {
        RefusedExactly(v.items[i], depth + 1, []);
      }
      ArrayRefused(v.items, depth, excluded);
    } else if v.Obj? {
      var ms := v.members;
      forall i | 0 <= i < |ms| ensures EntryOf(ms[i], depth + 1).Ok? <==> HasText(ms[i].value, depth + 1) {
        RefusedExactly(ms[i].value, depth + 1, []);
        EntryExists(ms[i], depth + 1);
      }
      ObjectRefused(ms, depth, excluded);
    } else {
      ScalarRefused(v, depth, excluded);
    }
  }

  lemma ScalarRefused(v: Json, depth: nat, excluded: Bytes)
    requires !v.Arr? && !v.Obj?
    ensures Canonical(v, depth, excluded).Ok? <==> HasText(v, depth)
  {
  }

  lemma ArrayRefused(items: seq<Json>, depth: nat, excluded: Bytes)
    ensures Canonical(Arr(items), depth, excluded).Ok? <==>
      depth < MAX_DEPTH && forall i :: 0 <= i < |items| ==> Canonical(items[i], depth + 1, []).Ok?
  {
    TextsAreTexts(items, depth + 1);
    ArrayCanonical(items, depth, excluded);
    hide Canonical;
  }

  lemma ObjectRefused(members: seq<Member>, depth: nat, excluded: Bytes)
    ensures Canonical(Obj(members), depth, excluded).Ok? <==>
      && depth < MAX_DEPTH && DistinctNames(members)
      && forall i :: 0 <= i < |members| ==> EntryOf(members[i], depth + 1).Ok?
  {
    hide Canonical, EntryOf, DistinctNames, ObjectText, Sort;
    ObjectCanonical(members, depth, excluded);
    EntriesAreEntries(members, depth + 1);
    if depth < MAX_DEPTH && Entries(members, depth + 1).Ok? {
      DuplicatesAreRefused(members, depth, excluded);
    }
  }

  lemma ArrayCanonical(items: seq<Json>, depth: nat, excluded: Bytes)
    ensures Canonical(Arr(items), depth, excluded).Ok? <==> depth < MAX_DEPTH && Texts(items, depth + 1).Ok?
  {
    hide Texts, Separated;
  }

  lemma EntryExists(m: Member, depth: nat)
    ensures EntryOf(m, depth).Ok? <==> Canonical(m.value, depth, []).Ok?
  {
    hide Canonical, Utf16;
    KeyInjective(m.name, m.name);
  }

  // ----- Order of members ----------------------------------------------------

  predicate Inverse(p: seq<nat>, q: seq<nat>, n: nat)
  {
    && |p| == |q| == n
    && (forall i :: 0 <= i < n ==> p[i] < n && q[i] < n)
    && (forall i :: 0 <= i < n ==> q[p[i]] == i && p[q[i]] == i)
  }

  /** Equal but for the order of members, at any depth, and the sign of zero. */
  ghost predicate Alike(a: Json, b: Json)
    decreases a
  {
    match a
    case Null => b.Null?
    case Bool(_) => a == b
    case Num(n) => b.Num? && SameNumber(n, b.number)
    case Str(_) => a == b
    case Arr(items) =>
      b.Arr? && |b.items| == |items| && forall i :: 0 <= i < |items| ==> Alike(items[i], b.items[i])
    case Obj(members) =>
      && b.Obj? && |b.members| == |members|
      && exists p, q :: Inverse(p, q, |members|) && forall i :: 0 <= i < |members| ==>
           members[i].name == b.members[p[i]].name && Alike(members[i].value, b.members[p[i]].value)
  }

  /** The same entries in another order. */
  ghost predicate Permuted(es: seq<Entry>, fs: seq<Entry>, p: seq<nat>, q: seq<nat>)
  {
    && Inverse(p, q, |es|) && |fs| == |es|
    && (forall i :: 0 <= i < |es| ==> es[i] == fs[p[i]])
    && (forall j :: 0 <= j < |es| ==> fs[j] == es[q[j]])
  }

  lemma PermutedText(es: seq<Entry>, fs: seq<Entry>, p: seq<nat>, q: seq<nat>, excluded: Bytes)
    requires Permuted(es, fs, p, q) && Keyed(es) && Keyed(fs)
    ensures ObjectText(Sort(es), excluded) == ObjectText(Sort(fs), excluded)
  {
    hide Keyed, NamesDistinct, AdjacentDuplicate, Strict, Sort, ObjectText;
    SortAscends(es);
    SortKeyed(es);
    assert SameEntries(Sort(es), fs) by {
      forall x ensures x in es <==> x in fs { PermutedElements(es, fs, p, q, x); }
    }
    AnySortWillDo(Sort(es), fs, excluded);
  }

  lemma PermutedElements(es: seq<Entry>, fs: seq<Entry>, p: seq<nat>, q: seq<nat>, x: Entry)
    requires Permuted(es, fs, p, q)
    ensures x in es <==> x in fs
  {
    assert Permuted(fs, es, q, p);
    hide Permuted;
    if x in es { PermutedIn(es, fs, p, q, x); }
    if x in fs { PermutedIn(fs, es, q, p, x); }
  }

  lemma PermutedIn(es: seq<Entry>, fs: seq<Entry>, p: seq<nat>, q: seq<nat>, x: Entry)
    requires Permuted(es, fs, p, q) && x in es
    ensures x in fs
  {
    var i :| 0 <= i < |es| && es[i] == x;
    assert fs[p[i]] == x;
  }

  /** Values that differ only in member order, at any depth, or in the sign of zeros have the same canonical text, or
      are both refused. */
  lemma {:induction false} MemberOrderDoesNotMatter(a: Json, b: Json, depth: nat, excluded: Bytes)
    requires Alike(a, b)
    ensures Canonical(a, depth, excluded) == Canonical(b, depth, excluded)
    decreases a
  {
    hide Canonical, EntryOf, Alike;
    if a.Arr? {
      AlikeArrays(a, b);
      forall i | 0 <= i < |a.items|
        ensures Canonical(a.items[i], depth + 1, []) == Canonical(b.items[i], depth + 1, [])
      {
        MemberOrderDoesNotMatter(a.items[i], b.items[i], depth + 1, []);
      }
      SameTexts(a.items, b.items, depth, excluded);
    } else if a.Obj? {
      var members := a.members;
      var p, q := AlikeObjects(a, b);
      forall i | 0 <= i < |members| ensures EntryOf(members[i], depth + 1) == EntryOf(b.members[p[i]], depth + 1) {
        MemberOrderDoesNotMatter(members[i].value, b.members[p[i]].value, depth + 1, []);
        SameEntry(members[i], b.members[p[i]], depth + 1);
      }
      PermutedObjects(members, b.members, p, q, depth, excluded);
    } else {
      ScalarsAlike(a, b, depth, excluded);
    }
  }

  lemma AlikeArrays(a: Json, b: Json)
    requires Alike(a, b) && a.Arr?
    ensures b.Arr? && |b.items| == |a.items| && forall i :: 0 <= i < |a.items| ==> Alike(a.items[i], b.items[i])
  {
  }

  lemma AlikeObjects(a: Json, b: Json) returns (p: seq<nat>, q: seq<nat>)
    requires Alike(a, b) && a.Obj?
    ensures b.Obj? && |b.members| == |a.members| && Inverse(p, q, |a.members|)
    ensures forall i :: 0 <= i < |a.members| ==>
      a.members[i].name == b.members[p[i]].name && Alike(a.members[i].value, b.members[p[i]].value)
  {
    p, q :| Inverse(p, q, |a.members|) && forall i :: 0 <= i < |a.members| ==>
      a.members[i].name == b.members[p[i]].name && Alike(a.members[i].value, b.members[p[i]].value);
  }

  lemma ScalarsAlike(a: Json, b: Json, depth: nat, excluded: Bytes)
    requires Alike(a, b) && !a.Arr? && !a.Obj?
    ensures Canonical(a, depth, excluded) == Canonical(b, depth, excluded)
  {
  }

  lemma SameEntry(m: Member, n: Member, depth: nat)
    requires m.name == n.name && Canonical(m.value, depth, []) == Canonical(n.value, depth, [])
    ensures EntryOf(m, depth) == EntryOf(n, depth)
  {
    hide Canonical, Utf16;
  }

  lemma SameTexts(items: seq<Json>, others: seq<Json>, depth: nat, excluded: Bytes)
    requires |items| == |others|
    requires forall i :: 0 <= i < |items| ==> Canonical(items[i], depth + 1, []) == Canonical(others[i], depth + 1, [])
    ensures Canonical(Arr(items), depth, excluded) == Canonical(Arr(others), depth, excluded)
  {
    assert Texts(items, depth + 1) == Texts(others, depth + 1) by {
      hide Canonical;
      TextsAreTexts(items, depth + 1);
      TextsAreTexts(others, depth + 1);
      if Texts(items, depth + 1).Ok? { assert Texts(items, depth + 1).value == Texts(others, depth + 1).value; }
    }
    hide Texts;
  }

  lemma PermutedObjects(ms: seq<Member>, ns: seq<Member>, p: seq<nat>, q: seq<nat>, depth: nat, excluded: Bytes)
    requires |ns| == |ms| && Inverse(p, q, |ms|)
    requires forall i :: 0 <= i < |ms| ==> EntryOf(ms[i], depth + 1) == EntryOf(ns[p[i]], depth + 1)
    ensures Canonical(Obj(ms), depth, excluded) == Canonical(Obj(ns), depth, excluded)
  {
    hide Canonical, EntryOf, ObjectText, Sort, Entries, Keyed;
    var es, fs := Entries(ms, depth + 1), Entries(ns, depth + 1);
    ObjectCanonical(ms, depth, excluded);
    ObjectCanonical(ns, depth, excluded);
    EntriesAreEntries(ms, depth + 1);
    EntriesAreEntries(ns, depth + 1);
    forall j | 0 <= j < |ns| ensures EntryOf(ns[j], depth + 1) == EntryOf(ms[q[j]], depth + 1) {
      assert p[q[j]] == j;
    }
    if es.Ok? {
      EntriesKeyed(ms, depth + 1);
      EntriesKeyed(ns, depth + 1);
      PermutedText(es.value, fs.value, p, q, excluded);
    }
  }

  // ----- Leaving out a root member -------------------------------------------

  function Without(members: seq<Member>, name: Bytes): seq<Member>
  {
    if members == [] then []
    else
      Without(members[..|members| - 1], name) +
      (if members[|members| - 1].name == name then [] else [members[|members| - 1]])
  }

  lemma EntriesAppend(members: seq<Member>, m: Member, depth: nat)
    ensures Entries(members + [m], depth).Ok? <==> Entries(members, depth).Ok? && EntryOf(m, depth).Ok?
    ensures Entries(members + [m], depth).Ok? ==>
      Entries(members + [m], depth).value == Entries(members, depth).value + [EntryOf(m, depth).value]
  {
    hide Entries, EntryOf;
    EntriesAreEntries(members, depth);
    EntriesAreEntries(members + [m], depth);
    assert forall i :: 0 <= i < |members| ==> (members + [m])[i] == members[i];
    assert (members + [m])[|members|] == m;
  }

  /** What is left of the entries are the entries of the members left. */
  lemma {:induction false} WithoutEntries(members: seq<Member>, depth: nat, name: Bytes)
    requires Entries(members, depth).Ok? && name != []
    ensures Entries(Without(members, name), depth).Ok?
    ensures Entries(Without(members, name), depth).value == Kept(Entries(members, depth).value, name)
  {
    hide Entries, EntryOf, Kept, Without;
    if members == [] {
      NothingWithout(depth, name);
    } else {
      var front, last := members[..|members| - 1], members[|members| - 1];
      assert members == front + [last];
      EntriesAppend(front, last, depth);
      WithoutEntries(front, depth, name);
      KeptAppend(Entries(front, depth).value, EntryOf(last, depth).value, name);
      WithoutAppend(front, last, name);
      EntryName(last, depth);
      if last.name != name {
        EntriesAppend(Without(front, name), last, depth);
      }
    }
  }

  lemma NothingWithout(depth: nat, name: Bytes)
    ensures Entries([], depth) == Ok([]) && Without([], name) == [] && Kept([], name) == []
  {
  }

  lemma WithoutAppend(members: seq<Member>, m: Member, name: Bytes)
    ensures Without(members + [m], name) ==
      if m.name == name then Without(members, name) else Without(members, name) + [m]
  {
    assert (members + [m])[..|members|] == members;
  }

  lemma EntryName(m: Member, depth: nat)
    requires EntryOf(m, depth).Ok?
    ensures EntryOf(m, depth).value.name == m.name
  {
    hide Canonical, Utf16;
  }

  lemma KeptAppend(es: seq<Entry>, e: Entry, name: Bytes)
    requires name != []
    ensures Kept(es + [e], name) == if e.name == name then Kept(es, name) else Kept(es, name) + [e]
  {
    assert (es + [e])[..|es|] == es;
  }

  lemma {:induction false} KeptAre(es: seq<Entry>, name: Bytes, x: Entry)
    requires name != []
    ensures x in Kept(es, name) <==> x in es && x.name != name
  {
    if es != [] {
      var front, last := es[..|es| - 1], es[|es| - 1];
      assert es == front + [last];
      KeptAppend(front, last, name);
      KeptAre(front, name, x);
    }
  }

  lemma {:induction false} KeptStrict(es: seq<Entry>, name: Bytes)
    requires name != [] && Strict(es)
    ensures Strict(Kept(es, name))
  {
    hide Less;
    if es != [] {
      var front, last := es[..|es| - 1], es[|es| - 1];
      assert es == front + [last];
      KeptAppend(front, last, name);
      KeptStrict(front, name);
      var kept := Kept(front, name);
      forall i | 0 <= i < |kept| ensures Less(kept[i].key, last.key) {
        KeptAre(front, name, kept[i]);
        var j :| 0 <= j < |front| && front[j] == kept[i];
        assert es[j] == front[j];
      }
    }
  }

  lemma {:induction false} KeptDistinct(es: seq<Entry>, name: Bytes)
    requires name != [] && NamesDistinct(es)
    ensures NamesDistinct(Kept(es, name))
  {
    if es != [] {
      var front, last := es[..|es| - 1], es[|es| - 1];
      assert es == front + [last];
      KeptAppend(front, last, name);
      KeptDistinct(front, name);
      var kept := Kept(front, name);
      forall i | 0 <= i < |kept| ensures kept[i].name != last.name {
        KeptAre(front, name, kept[i]);
        var j :| 0 <= j < |front| && front[j] == kept[i];
        assert es[j] == front[j];
      }
    }
  }

  lemma KeptSorts(es: seq<Entry>, name: Bytes)
    requires Keyed(es) && NamesDistinct(es) && name != []
    ensures Kept(Sort(es), name) == Sort(Kept(es, name)) && !AdjacentDuplicate(Sort(Kept(es, name)))
  {
    var kept := Kept(es, name);
    assert Keyed(kept) by {
      hide Utf16;
      forall i | 0 <= i < |kept| ensures kept[i] in es { KeptAre(es, name, kept[i]); }
    }
    hide Sort, Kept, Keyed, Strict, NamesDistinct, AdjacentDuplicate;
    SortFacts(es);
    KeptStrict(Sort(es), name);
    KeptDistinct(es, name);
    SortFacts(kept);
    forall x ensures x in Kept(Sort(es), name) <==> x in Sort(kept) {
      KeptAre(Sort(es), name, x);
      KeptAre(es, name, x);
    }
    StrictUnique(Kept(Sort(es), name), Sort(kept));
  }

  lemma {:induction false} KeptAll(es: seq<Entry>)
    ensures Kept(es, []) == es
  {
    if es != [] {
      KeptAll(es[..|es| - 1]);
      assert es == es[..|es| - 1] + [es[|es| - 1]];
    }
  }

  lemma ExclusionKeepsTheRest(members: seq<Member>, name: Bytes)
    requires name != []
    ensures Canonical(Obj(members), 0, name) ==
      if Canonical(Obj(members), 0, []).Ok? then Canonical(Obj(Without(members, name)), 0, []) else Err(())
    ensures Canonical(Obj(members), 0, []).Ok? ==> Canonical(Obj(Without(members, name)), 0, []).Ok?
  {
    hide Canonical, Entries, Sort, Kept, Keyed, NamesDistinct, AdjacentDuplicate;
    ObjectCanonical(members, 0, name);
    ObjectCanonical(members, 0, []);
    ObjectCanonical(Without(members, name), 0, []);
    var es := Entries(members, 1);
    if es.Ok? {
      WithoutEntries(members, 1, name);
      EntriesKeyed(members, 1);
      SortFacts(es.value);
      if NamesDistinct(es.value) {
        KeptSorts(es.value, name);
        KeptAll(Sort(es.value));
        KeptAll(Sort(Kept(es.value, name)));
      }
    }
  }

  lemma {:induction false} WithoutAre(members: seq<Member>, name: Bytes, m: Member)
    ensures m in Without(members, name) <==> m in members && m.name != name
  {
    if members != [] {
      var front, last := members[..|members| - 1], members[|members| - 1];
      assert members == front + [last];
      WithoutAre(front, name, m);
    }
  }

  predicate Once(members: seq<Member>, name: Bytes)
  {
    forall i, j :: 0 <= i < j < |members| ==> members[i].name != name || members[j].name != name
  }

  /** What bears this name has a text as a member's value. */
  predicate Readable(members: seq<Member>, name: Bytes)
  {
    forall i :: 0 <= i < |members| && members[i].name == name ==> HasText(members[i].value, 1)
  }

  lemma {:induction false} DistinctWithout(members: seq<Member>, name: Bytes)
    ensures DistinctNames(members) <==> DistinctNames(Without(members, name)) && Once(members, name)
  {
    if members != [] {
      hide DistinctNames, Without, Once, Fresh;
      var front, last := members[..|members| - 1], members[|members| - 1];
      assert members == front + [last];
      DistinctWithout(front, name);
      WithoutAppend(front, last, name);
      LastIsNew(front, last);
      OnceAppend(front, last, name);
      if last.name != name {
        LastIsNew(Without(front, name), last);
        FreshWithout(front, name, last.name);
      }
    }
  }

  lemma FreshWithout(members: seq<Member>, name: Bytes, other: Bytes)
    requires other != name
    ensures Fresh(members, other) <==> Fresh(Without(members, name), other)
  {
    hide Without;
    forall m ensures m in Without(members, name) <==> m in members && m.name != name { WithoutAre(members, name, m); }
  }

  lemma OnceAppend(front: seq<Member>, last: Member, name: Bytes)
    ensures Once(front + [last], name) <==> Once(front, name) && (last.name == name ==> Fresh(front, name))
  {
    var members := front + [last];
    assert members[|front|] == last && forall i :: 0 <= i < |front| ==> members[i] == front[i];
    if Once(members, name) && last.name == name {
      forall m | m in front ensures m.name != name {
        var i :| 0 <= i < |front| && front[i] == m;
        assert members[i] == m;
      }
    }
  }

  predicate Fresh(members: seq<Member>, name: Bytes)
  {
    forall m :: m in members ==> m.name != name
  }

  lemma LastIsNew(front: seq<Member>, last: Member)
    ensures DistinctNames(front + [last]) <==> DistinctNames(front) && Fresh(front, last.name)
  {
    var members := front + [last];
    assert forall i :: 0 <= i < |front| ==> members[i] == front[i];
    if DistinctNames(members) {
      forall m | m in front ensures m.name != last.name {
        var i :| 0 <= i < |front| && front[i] == m;
        assert members[i].name != members[|front|].name;
      }
    }
  }

  /** Whether the whole has a text follows from the rest and from what is excluded. */
  lemma WholeHasText(members: seq<Member>, name: Bytes)
    ensures HasText(Obj(members), 0) <==>
      HasText(Obj(Without(members, name)), 0) && Once(members, name) && Readable(members, name)
  {
    hide DistinctNames, Once, Without;
    var rest := Without(members, name);
    DistinctWithout(members, name);
    assert (forall m :: m in members ==> HasText(m.value, 1)) <==>
      (forall m :: m in rest ==> HasText(m.value, 1)) && Readable(members, name) by {
      forall m ensures m in rest <==> m in members && m.name != name { WithoutAre(members, name, m); }
    }
  }

  /** Excluding a root member is canonicalising the object without it, unless only what is excluded stands in the way:
      the excluded member is still read, so it must not be repeated and must have a text of its own. */
  lemma ExclusionLeavesOutTheMember(members: seq<Member>, name: Bytes)
    requires name != []
    ensures Canonical(Obj(members), 0, name) == Canonical(Obj(Without(members, name)), 0, []) <==>
      (HasText(Obj(Without(members, name)), 0) ==> Once(members, name) && Readable(members, name))
  {
    hide Canonical, HasText, Once, Readable, Without;
    ExclusionKeepsTheRest(members, name);
    WholeHasText(members, name);
    RefusedExactly(Obj(members), 0, []);
    RefusedExactly(Obj(Without(members, name)), 0, []);
    OneError(Canonical(Obj(Without(members, name)), 0, []));
  }

  lemma OneError(r: Result<Bytes, ()>)
    ensures r.Err? ==> r == Err(())
  {
    if r.Err? { assert r.error == (); }
  }

  /** An excluded member that has no text of its own, here for a name repeated in it, still fails the whole. */
  lemma ExclusionStillReads(name: Name)
    requires name != []
    ensures var bad := Obj([Member(name, Null), Member(name, Null)]);
      && Canonical(Obj([Member(name, bad)]), 0, name).Err?
      && Without([Member(name, bad)], name) == [] && Canonical(Obj([]), 0, []).Ok?
  {
    hide Canonical;
    var inner := [Member(name, Null), Member(name, Null)];
    var outer := [Member(name, Obj(inner))];
    assert inner[0].name == inner[1].name && !HasText(outer[0].value, 1);
    RefusedExactly(Obj(outer), 0, name);
    RefusedExactly(Obj([]), 0, []);
  }
}
