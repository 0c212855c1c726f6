/** Pages of the listing, and walks from page to page while the store is being written to. */
module Paging {
  import opened Protocol
  import opened ListTasks
  import opened TaskStore

  type Store = map<Bytes, Entry>

  // ----- One page ------------------------------------------------------------

  /** The listed tasks that pass the request's filters, in listing order. */
  function Chosen(order: seq<Cursor>, m: Store, request: Request): seq<Cursor>
  {
    if order == [] then []
    else
      var last := order[|order| - 1];
      Chosen(order[..|order| - 1], m, request) +
      (if last.taskId in m && Matches(m[last.taskId].task, request) then [last] else [])
  }

  /** Where the listing continues after a boundary: `std::set::upper_bound`. */
  function UpperBound(order: seq<Cursor>, boundary: Option<Cursor>): (k: nat)
    ensures k <= |order|
    ensures forall i :: 0 <= i < k ==> boundary.Some? && !Precedes(boundary.value, order[i])
    ensures k < |order| && boundary.Some? ==> Precedes(boundary.value, order[k])
  {
    if order == [] || boundary.None? || Precedes(boundary.value, order[0]) then 0
    else 1 + UpperBound(order[1..], boundary)
  }

  function Candidates(order: seq<Cursor>, m: Store, request: Request, boundary: Option<Cursor>): seq<Cursor>
  {
    Chosen(order[UpperBound(order, boundary)..], m, request)
  }

  /** Page size 0 stands for no limit. */
  predicate HasMore(candidates: seq<Cursor>, size: nat)
  {
    size != 0 && |candidates| > size
  }

  function PageOf(candidates: seq<Cursor>, size: nat): seq<Cursor>
  {
    if HasMore(candidates, size) then candidates[..size] else candidates
  }

  lemma {:induction false} ChosenConcat(a: seq<Cursor>, b: seq<Cursor>, m: Store, request: Request)
    ensures Chosen(a + b, m, request) == Chosen(a, m, request) + Chosen(b, m, request)
    decreases |b|
  {
    if b == [] {
      assert a + b == a;
    } else {
      ChosenConcat(a, b[..|b| - 1], m, request);
      assert (a + b)[..|a + b| - 1] == a + b[..|b| - 1];
    }
  }

  lemma {:induction false} ChosenIsFilter(order: seq<Cursor>, m: Store, request: Request)
    requires Sorted(order)
    ensures var chosen := Chosen(order, m, request);
      && Sorted(chosen)
      && forall c :: c in chosen <==> c in order && c.taskId in m && Matches(m[c.taskId].task, request)
  {
    if order != [] {
      var front, last := order[..|order| - 1], order[|order| - 1];
      ChosenIsFilter(front, m, request);
      assert order == front + [last];
      var chosen := Chosen(front, m, request);
      forall i | 0 <= i < |chosen| ensures Precedes(chosen[i], last) { assert chosen[i] in front; }
    }
  }

  lemma RestIsAfter(order: seq<Cursor>, boundary: Option<Cursor>, c: Cursor)
    requires Sorted(order) && c in order
    ensures c in order[UpperBound(order, boundary)..] <==> (boundary.Some? ==> Precedes(boundary.value, c))
  {
    hide Precedes, UpperBound;
    var k := UpperBound(order, boundary);
    var rest := order[k..];
    var i :| 0 <= i < |order| && order[i] == c;
    if i < k {
      PrecedesIrreflexive(c);
      assert forall j :: 0 <= j < |rest| ==> rest[j] == order[k + j];
    } else {
      assert c == rest[i - k];
      if boundary.Some? && i > k { PrecedesTransitive(boundary.value, order[k], c); }
    }
  }

  /** The candidates are what matches strictly after the boundary. */
  lemma CandidatesAreAfter(order: seq<Cursor>, m: Store, request: Request, boundary: Option<Cursor>)
    requires Sorted(order)
    ensures Sorted(Candidates(order, m, request, boundary))
    ensures forall c :: c in Candidates(order, m, request, boundary) <==>
      && c in order && c.taskId in m && Matches(m[c.taskId].task, request)
      && (boundary.Some? ==> Precedes(boundary.value, c))
  {
    hide Precedes, Chosen, Matches, UpperBound;
    var rest := order[UpperBound(order, boundary)..];
    ChosenIsFilter(rest, m, request);
    forall c | c in order
      ensures c in rest <==> (boundary.Some? ==> Precedes(boundary.value, c))
    {
      RestIsAfter(order, boundary, c);
    }
  }

  // ----- Walks under concurrent writes ---------------------------------------

  /** The store as one page request sees it: its entries and their listing. */
  datatype View = View(m: Store, order: seq<Cursor>)

  ghost predicate Lists(v: View)
  {
    && Sorted(v.order)
    && (forall c :: c in v.order ==> c.taskId in v.m && v.m[c.taskId].updatedAt == c.updatedAt)
    && (forall id :: id in v.m ==> Cursor(v.m[id].updatedAt, id) in v.order)
  }

  lemma FitsLists(rep: Rep)
    requires Fits(rep)
    ensures Lists(View(Entries(rep), rep.order))
  {
  }

  /** What writes can do: create entries, and move entries to later update times and higher revisions. */
  ghost predicate Later(m: Store, m': Store)
  {
    forall id :: id in m ==>
      id in m' && (m'[id] == m[id] || (m'[id].updatedAt > m[id].updatedAt && m'[id].revision > m[id].revision))
  }

  lemma WritesMoveLater(m: Store, task: Task, now: int)
    requires Written(m, task, now).Some?
    ensures Later(m, Written(m, task, now).value)
  {
  }

  lemma LaterTransitive(a: Store, b: Store, c: Store)
    requires Later(a, b) && Later(b, c)
    ensures Later(a, c)
  {
  }

  /** The page a walk gets from its `j`-th request, which continues after the last task of the page before. */
  function PageAt(views: seq<View>, request: Request, j: nat): seq<Cursor>
    requires j < |views|
    decreases j, 2
  {
    PageOf(CandidatesAt(views, request, j), request.pageSize)
  }

  function CandidatesAt(views: seq<View>, request: Request, j: nat): seq<Cursor>
    requires j < |views|
    decreases j, 1
  {
    Candidates(views[j].order, views[j].m, request, BoundaryAt(views, request, j))
  }

  function BoundaryAt(views: seq<View>, request: Request, j: nat): Option<Cursor>
    requires j < |views|
    decreases j, 0
  {
    if j == 0 then None
    else
      var page := PageAt(views, request, j - 1);
      if page == [] then None else Some(page[|page| - 1])
  }

  /** A walk with pages of at least one task: writes may come between requests, and every page but the last gave a
      token for the next. */
  ghost predicate Walk(views: seq<View>, request: Request)
  {
    && request.pageSize >= 1 && views != []
    && (forall j :: 0 <= j < |views| ==> Lists(views[j]))
    && (forall j :: 0 <= j < |views| - 1 ==> Later(views[j].m, views[j + 1].m))
    && (forall j :: 0 <= j < |views| - 1 ==> HasMore(CandidatesAt(views, request, j), request.pageSize))
  }

  predicate AtOrBefore(a: Cursor, b: Cursor)
  {
    a == b || Precedes(a, b)
  }

  lemma {:induction false} LaterAcross(views: seq<View>, request: Request, j: nat, k: nat)
    requires Walk(views, request) && j <= k < |views|
    ensures Later(views[j].m, views[k].m)
    decreases k - j
  {
    hide HasMore, Lists, CandidatesAt;
    if j < k {
      LaterAcross(views, request, j, k - 1);
      LaterTransitive(views[j].m, views[k - 1].m, views[k].m);
    }
  }

  /** The tasks of a page come after the boundary it was asked for, in order. */
  lemma PageIsAfterBoundary(views: seq<View>, request: Request, j: nat)
    requires Walk(views, request) && j < |views|
    ensures Sorted(PageAt(views, request, j))
    ensures forall c :: c in PageAt(views, request, j) ==>
      && c in views[j].order
      && (BoundaryAt(views, request, j).Some? ==> Precedes(BoundaryAt(views, request, j).value, c))
    ensures j > 0 ==> BoundaryAt(views, request, j).Some?
  {
    CandidatesAreAfter(views[j].order, views[j].m, request, BoundaryAt(views, request, j));
    if j > 0 {
      assert HasMore(CandidatesAt(views, request, j - 1), request.pageSize);
    }
  }

  /** Everything an earlier page returned is at or before the boundary of a later one. */
  lemma {:induction false} PagesAdvance(views: seq<View>, request: Request, j: nat, k: nat, c: Cursor)
    requires Walk(views, request) && j < k < |views| && c in PageAt(views, request, j)
    ensures BoundaryAt(views, request, k).Some? && AtOrBefore(c, BoundaryAt(views, request, k).value)
    decreases k - j
  {
    hide Precedes, Walk, PageAt, CandidatesAt;
    var page := PageAt(views, request, k - 1);
    PageIsAfterBoundary(views, request, k - 1);
    PageIsAfterBoundary(views, request, k);
    var last := page[|page| - 1];
    if j == k - 1 {
      var i :| 0 <= i < |page| && page[i] == c;
    } else {
      PagesAdvance(views, request, j, k - 1, c);
      var mid := BoundaryAt(views, request, k - 1).value;
      assert last in page;
      if c != mid { PrecedesTransitive(c, mid, last); }
    }
  }

  /** No walk returns a task twice, whatever is written in between. */
  lemma WalkNeverRepeats(views: seq<View>, request: Request, j: nat, a: nat, k: nat, b: nat)
    requires Walk(views, request) && j < |views| && k < |views|
    requires a < |PageAt(views, request, j)| && b < |PageAt(views, request, k)|
    requires j < k || (j == k && a < b)
    ensures PageAt(views, request, j)[a].taskId != PageAt(views, request, k)[b].taskId
  {
    var x, y := PageAt(views, request, j)[a], PageAt(views, request, k)[b];
    PageIsAfterBoundary(views, request, j);
    PageIsAfterBoundary(views, request, k);
    assert x in views[j].order && y in views[k].order;
    PrecedesIrreflexive(x);
    if j < k {
      PagesAdvance(views, request, j, k, x);
      var boundary := BoundaryAt(views, request, k).value;
      if x != boundary { PrecedesTransitive(x, boundary, y); }
      LaterAcross(views, request, j, k);
    }
    assert Precedes(x, y);
  }

  /** Writes leave the entry alone throughout the walk. */
  ghost predicate Untouched(views: seq<View>, id: Bytes)
    requires views != []
  {
    forall j :: 0 <= j < |views| ==> id in views[j].m && id in views[0].m && views[j].m[id] == views[0].m[id]
  }

  lemma SplitByPage(views: seq<View>, request: Request, k: nat, c: Cursor)
    requires Walk(views, request) && 0 < k < |views| && c in CandidatesAt(views, request, k - 1)
    ensures c in PageAt(views, request, k - 1) || Precedes(BoundaryAt(views, request, k).value, c)
    ensures BoundaryAt(views, request, k).Some?
  {
    hide Later, Candidates;
    var candidates, page := CandidatesAt(views, request, k - 1), PageAt(views, request, k - 1);
    assert HasMore(candidates, request.pageSize);
    CandidatesAreAfter(views[k - 1].order, views[k - 1].m, request, BoundaryAt(views, request, k - 1));
    var i :| 0 <= i < |candidates| && candidates[i] == c;
    if i < |page| { assert page[i] == c; }
  }

  ghost predicate ReturnedBefore(views: seq<View>, request: Request, k: nat, c: Cursor)
    requires k <= |views|
  {
    exists j :: 0 <= j < k && c in PageAt(views, request, j)
  }

  lemma StaysAhead(views: seq<View>, request: Request, k: nat, c: Cursor)
    requires Walk(views, request) && k < |views|
    requires c in views[k].order && c.taskId in views[k].m && Matches(views[k].m[c.taskId].task, request)
    requires k > 0 ==> c in CandidatesAt(views, request, k - 1) && c !in PageAt(views, request, k - 1)
    ensures c in CandidatesAt(views, request, k)
  {
    hide Candidates, PageAt, Later, HasMore;
    CandidatesAreAfter(views[k].order, views[k].m, request, BoundaryAt(views, request, k));
    if k > 0 {
      SplitByPage(views, request, k, c);
    }
  }

  /** Until a page returns it, an untouched matching task stays ahead of the walk. */
  lemma {:induction false} UntouchedIsAhead(views: seq<View>, request: Request, id: Bytes, k: nat)
    requires Walk(views, request) && Untouched(views, id) && Matches(views[0].m[id].task, request) && k < |views|
    ensures var c := Cursor(views[0].m[id].updatedAt, id);
      ReturnedBefore(views, request, k, c) || c in CandidatesAt(views, request, k)
  {
    hide PageAt, CandidatesAt, Later, HasMore;
    var c := Cursor(views[0].m[id].updatedAt, id);
    assert Lists(views[k]) && views[k].m[id] == views[0].m[id];
    if k > 0 {
      UntouchedIsAhead(views, request, id, k - 1);
    }
    if k == 0 || (c in CandidatesAt(views, request, k - 1) && c !in PageAt(views, request, k - 1)) {
      StaysAhead(views, request, k, c);
    }
  }

  /** A completed walk returns every matching task that was left alone (and, by the lemma above, only once). */
  lemma CompletedWalkReturnsUntouched(views: seq<View>, request: Request, id: Bytes)
    requires Walk(views, request) && Untouched(views, id) && Matches(views[0].m[id].task, request)
    requires !HasMore(CandidatesAt(views, request, |views| - 1), request.pageSize)
    ensures ReturnedBefore(views, request, |views|, Cursor(views[0].m[id].updatedAt, id))
  {
    var last := |views| - 1;
    LastPageIsAll(views, request);
    hide PageAt, CandidatesAt, Walk;
    UntouchedIsAhead(views, request, id, last);
    var c := Cursor(views[0].m[id].updatedAt, id);
    if c in CandidatesAt(views, request, last) { assert c in PageAt(views, request, last); }
  }

  lemma LastPageIsAll(views: seq<View>, request: Request)
    requires views != [] && !HasMore(CandidatesAt(views, request, |views| - 1), request.pageSize)
    ensures PageAt(views, request, |views| - 1) == CandidatesAt(views, request, |views| - 1)
  {
  }

  /** The ids returned by the first `k` pages: at least one new one a page, all at or before the next boundary. */
  lemma {:induction false} PagesCollect(views: seq<View>, request: Request, k: nat) returns (ids: set<Bytes>)
    requires Walk(views, request) && 0 < k < |views|
    ensures |ids| >= k && BoundaryAt(views, request, k).Some?
    ensures forall id :: id in ids ==>
      && id in views[k - 1].m
      && AtOrBefore(Cursor(views[k - 1].m[id].updatedAt, id), BoundaryAt(views, request, k).value)
  {
    hide Walk, BoundaryAt, Later;
    BoundaryIsListed(views, request, k);
    var boundary := BoundaryAt(views, request, k).value;
    if k == 1 {
      ids := {boundary.taskId};
    } else {
      var before := PagesCollect(views, request, k - 1);
      var mid := BoundaryAt(views, request, k - 1).value;
      ids := before + {boundary.taskId};
      forall id | id in before
        ensures id != boundary.taskId && id in views[k - 1].m
        ensures AtOrBefore(Cursor(views[k - 1].m[id].updatedAt, id), boundary)
      {
        MovesForward(views[k - 2].m, views[k - 1].m, id, mid, boundary);
      }
    }
  }

  lemma BoundaryIsListed(views: seq<View>, request: Request, k: nat)
    requires Walk(views, request) && 0 < k < |views|
    ensures BoundaryAt(views, request, k).Some?
    ensures var boundary := BoundaryAt(views, request, k).value;
      && boundary.taskId in views[k - 1].m && views[k - 1].m[boundary.taskId].updatedAt == boundary.updatedAt
      && (k > 1 ==>
           && BoundaryAt(views, request, k - 1).Some? && Precedes(BoundaryAt(views, request, k - 1).value, boundary)
           && Later(views[k - 2].m, views[k - 1].m))
  {
    PageIsAfterBoundary(views, request, k);
    PageIsAfterBoundary(views, request, k - 1);
    var boundary := BoundaryAt(views, request, k).value;
    assert boundary in PageAt(views, request, k - 1) && Lists(views[k - 1]);
  }

  lemma MovesForward(m: Store, m': Store, id: Bytes, mid: Cursor, boundary: Cursor)
    requires Later(m, m') && id in m && AtOrBefore(Cursor(m[id].updatedAt, id), mid) && Precedes(mid, boundary)
    requires boundary.taskId in m' && m'[boundary.taskId].updatedAt == boundary.updatedAt
    ensures id != boundary.taskId && id in m' && AtOrBefore(Cursor(m'[id].updatedAt, id), boundary)
  {
    var before, after := Cursor(m[id].updatedAt, id), Cursor(m'[id].updatedAt, id);
    if before != mid { PrecedesTransitive(before, mid, boundary); }
    PrecedesIrreflexive(boundary);
    if after != before { PrecedesTransitive(after, before, boundary); }
  }

  /** A walk needs no more requests than there are tasks (or one, if there are none). */
  lemma WalkIsBounded(views: seq<View>, request: Request)
    requires Walk(views, request)
    ensures |views| <= 1 || |views| <= |views[|views| - 1].m|
  {
    hide Walk, BoundaryAt, AtOrBefore;
    var n := |views|;
    if n >= 2 {
      LaterAcross(views, request, n - 2, n - 1);
      var ids := PagesCollect(views, request, n - 1);
      var extra := OneMore(views, request, n - 1);
      assert ids + {extra} <= views[n - 1].m.Keys;
      SubsetSize(ids + {extra}, views[n - 1].m.Keys);
    }
  }

  lemma SubsetSize(a: set<Bytes>, b: set<Bytes>)
    requires a <= b
    ensures |a| <= |b|
  {
    assert b == a + (b - a);
  }

  /** A page with a token leaves a task behind its last one. */
  lemma OneMore(views: seq<View>, request: Request, k: nat) returns (id: Bytes)
    requires Walk(views, request) && 0 < k < |views| && BoundaryAt(views, request, k).Some?
    ensures id in views[k - 1].m
    ensures !AtOrBefore(Cursor(views[k - 1].m[id].updatedAt, id), BoundaryAt(views, request, k).value)
  {
    var candidates, page := CandidatesAt(views, request, k - 1), PageAt(views, request, k - 1);
    assert HasMore(candidates, request.pageSize);
    CandidatesAreAfter(views[k - 1].order, views[k - 1].m, request, BoundaryAt(views, request, k - 1));
    var boundary, extra := page[|page| - 1], candidates[request.pageSize];
    assert extra in candidates && Precedes(boundary, extra);
    PrecedesIrreflexive(boundary);
    if Precedes(extra, boundary) { PrecedesTransitive(boundary, extra, boundary); }
    id := extra.taskId;
  }
}
