/** Listing through the security layer: pages of the tasks a caller may see, found by walking the store's own pages. */
module VisibleTasks {
  import opened Protocol
  import opened ListTasks
  import opened TaskStore
  import opened Paging
  import opened InMemoryTaskStore

  /** `CanAccessTask` for the caller at hand. */
  type Policy = Task -> bool

  /** `ScopeTaskList`: the query to run on the caller's behalf, if any. */
  type Scope = Request -> Option<Request>

  datatype VisiblePage = VisiblePage(taskIds: seq<Bytes>, totalSize: nat, nextPageToken: Bytes)

  // ----- The simple form -----------------------------------------------------

  predicate Sees(c: Cursor, m: Store, query: Request, policy: Policy)
  {
    c.taskId in m && policy(Projected(m[c.taskId].task, query.includeArtifacts, query.historyLength))
  }

  function Visible(listed: seq<Cursor>, m: Store, query: Request, policy: Policy): seq<Cursor>
  {
    if listed == [] then []
    else
      var last := listed[|listed| - 1];
      Visible(listed[..|listed| - 1], m, query, policy) + (if Sees(last, m, query, policy) then [last] else [])
  }

  function Beyond(cursors: seq<Cursor>, boundary: Option<Cursor>): seq<Cursor>
  {
    if cursors == [] then []
    else
      var last := cursors[|cursors| - 1];
      Beyond(cursors[..|cursors| - 1], boundary) +
      (if boundary.None? || Precedes(boundary.value, last) then [last] else [])
  }

  function IdsOf(cursors: seq<Cursor>): seq<Bytes>
  {
    seq(|cursors|, i requires 0 <= i < |cursors| => cursors[i].taskId)
  }

  function NextVisible(visible: seq<Cursor>, boundary: Option<Cursor>, size: nat): seq<Cursor>
  {
    PageOf(Beyond(visible, boundary), size)
  }

  /** The page of `visible` after `boundary`, the size of the whole, and a token when more remains. */
  ghost predicate Selected(page: VisiblePage, visible: seq<Cursor>, boundary: Option<Cursor>, size: nat)
  {
    var next := NextVisible(visible, boundary, size);
    && page.taskIds == IdsOf(next)
    && page.totalSize == |visible|
    && (HasMore(Beyond(visible, boundary), size) ==> next != [] && page.nextPageToken == Token(next[|next| - 1]))
    && (!HasMore(Beyond(visible, boundary), size) ==> page.nextPageToken == [])
  }

  lemma {:induction false} VisibleIsFilter(listed: seq<Cursor>, m: Store, query: Request, policy: Policy)
    requires Sorted(listed)
    ensures var visible := Visible(listed, m, query, policy);
      Sorted(visible) && forall c :: c in visible <==> c in listed && Sees(c, m, query, policy)
  {
    hide Sees;
    if listed != [] {
      var front, last := listed[..|listed| - 1], listed[|listed| - 1];
      VisibleIsFilter(front, m, query, policy);
      assert listed == front + [last];
      var visible := Visible(front, m, query, policy);
      forall i | 0 <= i < |visible| ensures Precedes(visible[i], last) { assert visible[i] in front; }
    }
  }

  // ----- The store's own pages -----------------------------------------------

  lemma UpperBoundAt(order: seq<Cursor>, i: nat)
    requires Sorted(order) && i < |order|
    ensures UpperBound(order, Some(order[i])) == i + 1
  {
    hide Precedes, UpperBound;
    var k := UpperBound(order, Some(order[i]));
    PrecedesIrreflexive(order[i]);
    assert i + 1 < |order| ==> Precedes(order[i], order[i + 1]);
    if k < i {
      PrecedesTransitive(order[i], order[k], order[i]);
    }
  }

  /** Continuing after the `k`-th candidate leaves the others. */
  lemma CandidatesContinue(order: seq<Cursor>, m: Store, query: Request, boundary: Option<Cursor>, k: nat)
    requires Sorted(order) && 0 < k <= |Candidates(order, m, query, boundary)|
    ensures var candidates := Candidates(order, m, query, boundary);
      Candidates(order, m, query, Some(candidates[k - 1])) == candidates[k..]
  {
    hide Precedes, UpperBound, Chosen, Matches, Sorted;
    var u := UpperBound(order, boundary);
    var rest, candidates := order[u..], Candidates(order, m, query, boundary);
    SuffixSorted(order, u);
    var p := ChosenSplit(rest, m, query, k);
    UpperBoundAt(order, u + p);
    assert order[u + p] == rest[p] && order[u + p + 1..] == rest[p + 1..];
  }

  lemma SuffixSorted(order: seq<Cursor>, u: nat)
    requires Sorted(order) && u <= |order|
    ensures Sorted(order[u..])
  {
  }

  /** Behind the `k`-th chosen entry come the chosen ones after the first `k`. */
  lemma ChosenSplit(rest: seq<Cursor>, m: Store, query: Request, k: nat) returns (p: nat)
    requires Sorted(rest) && 0 < k <= |Chosen(rest, m, query)|
    ensures p < |rest| && rest[p] == Chosen(rest, m, query)[k - 1]
    ensures Chosen(rest[p + 1..], m, query) == Chosen(rest, m, query)[k..]
  {
    hide Precedes, Chosen, Matches, Sorted;
    var chosen := Chosen(rest, m, query);
    ChosenIsFilter(rest, m, query);
    assert chosen[k - 1] in chosen;
    p :| 0 <= p < |rest| && rest[p] == chosen[k - 1];
    var head := rest[..p + 1];
    assert rest == head + rest[p + 1..];
    ChosenConcat(head, rest[p + 1..], m, query);
    LastChosen(head, m, query);
    SortedOnce(chosen, k - 1, |Chosen(head, m, query)| - 1);
  }

  lemma SortedOnce(cursors: seq<Cursor>, i: nat, j: nat)
    requires Sorted(cursors) && i < |cursors| && j < |cursors| && cursors[i] == cursors[j]
    ensures i == j
  {
    hide Precedes;
    PrecedesIrreflexive(cursors[i]);
  }

  lemma LastChosen(head: seq<Cursor>, m: Store, query: Request)
    requires head != [] && head[|head| - 1].taskId in m && Matches(m[head[|head| - 1].taskId].task, query)
    ensures var chosen := Chosen(head, m, query); chosen != [] && chosen[|chosen| - 1] == head[|head| - 1]
  {
  }

  /** The requests choose the same tasks and show them alike. */
  predicate Alike(a: Request, b: Request)
  {
    && a.contextId == b.contextId && a.statusFilter == b.statusFilter && a.statusAfter == b.statusAfter
    && a.includeArtifacts == b.includeArtifacts && a.historyLength == b.historyLength
  }

  lemma {:induction false} AlikeChooseAlike(order: seq<Cursor>, m: Store, a: Request, b: Request)
    requires Alike(a, b)
    ensures Chosen(order, m, a) == Chosen(order, m, b)
  {
    if order != [] {
      AlikeChooseAlike(order[..|order| - 1], m, a, b);
    }
  }

  lemma AlikeCandidates(order: seq<Cursor>, m: Store, a: Request, b: Request, boundary: Option<Cursor>)
    requires Alike(a, b)
    ensures Candidates(order, m, a, boundary) == Candidates(order, m, b, boundary)
  {
    AlikeChooseAlike(order[UpperBound(order, boundary)..], m, a, b);
  }

  // ----- Selecting one page of the visible tasks -----------------------------

  /** The listed tasks looked at so far have been counted and selected from. */
  ghost predicate Selecting(page: VisiblePage, last: Cursor, visible: seq<Cursor>, boundary: Option<Cursor>, size: nat)
  {
    var next := NextVisible(visible, boundary, size);
    Selected(page, visible, boundary, size) && (next != [] ==> last == next[|next| - 1])
  }

  lemma SelectingStep(page: VisiblePage, last: Cursor, visible: seq<Cursor>, boundary: Option<Cursor>,
                      size: nat, c: Cursor)
    requires Selecting(page, last, visible, boundary, size) && size > 0
    ensures var counted := page.(totalSize := page.totalSize + 1);
      if boundary.Some? && !Precedes(boundary.value, c) then
        Selecting(counted, last, visible + [c], boundary, size)
      else if |page.taskIds| < size then
        Selecting(counted.(taskIds := page.taskIds + [c.taskId]), c, visible + [c], boundary, size)
      else if page.nextPageToken == [] then
        Selecting(counted.(nextPageToken := Token(last)), last, visible + [c], boundary, size)
      else
        Selecting(counted, last, visible + [c], boundary, size)
  {
    hide Beyond, Token, Precedes;
    var rest := Beyond(visible, boundary);
    BeyondAppends(visible, boundary, c);
    if boundary.None? || Precedes(boundary.value, c) {
      if |rest| >= size {
        assert (rest + [c])[..size] == rest[..size];
      } else {
        IdsAppend(rest, c);
      }
    }
  }

  lemma BeyondAppends(cursors: seq<Cursor>, boundary: Option<Cursor>, c: Cursor)
    ensures Beyond(cursors + [c], boundary) ==
      if boundary.None? || Precedes(boundary.value, c) then Beyond(cursors, boundary) + [c]
      else Beyond(cursors, boundary)
  {
    assert (cursors + [c])[..|cursors|] == cursors;
  }

  lemma IdsAppend(cursors: seq<Cursor>, c: Cursor)
    ensures IdsOf(cursors + [c]) == IdsOf(cursors) + [c.taskId]
  {
  }

  ghost predicate Keyed(m: Store)
  {
    forall id :: id in m ==> m[id].task.id == id
  }

  lemma VisibleStep(seen: seq<Cursor>, page: seq<Cursor>, i: nat, m: Store, query: Request, policy: Policy)
    requires i < |page|
    ensures var before := Visible(seen + page[..i], m, query, policy);
      var after := Visible(seen + page[..i + 1], m, query, policy);
      after == if Sees(page[i], m, query, policy) then before + [page[i]] else before
  {
    hide Visible;
    assert seen + page[..i + 1] == seen + page[..i] + [page[i]];
    VisibleAppends(seen + page[..i], page[i], m, query, policy);
  }

  lemma VisibleAppends(listed: seq<Cursor>, c: Cursor, m: Store, query: Request, policy: Policy)
    ensures var before := Visible(listed, m, query, policy);
      Visible(listed + [c], m, query, policy) == if Sees(c, m, query, policy) then before + [c] else before
  {
    hide Sees;
    assert (listed + [c])[..|listed|] == listed;
  }

  /** Walks the store's pages to their end. */
  method SelectTaskIds(store: InMemoryTaskStore, request: Request, policy: Policy, cursor: Option<Cursor>,
                       pageSize: nat)
    returns (selected: VisiblePage)
    requires store.Valid() && pageSize > 0
    ensures var m := store.Contents();
      Selected(selected, Visible(Chosen(store.order, m, request), m, request, policy), cursor, pageSize)
  {
    hide Fits, Entries, Candidates, Chosen, Visible, Selected, Selecting, IsPage, Boundary, Precedes, Token, Shows,
         Keyed, Sees, Projected, Matches;
    selected := VisiblePage([], 0, []);
    var query := request.(pageSize := MAX_PAGE_SIZE, includeTotalSize := false, pageToken := []);
    var lastSelected := Cursor(0, []);
    ghost var m, seen := store.Contents(), [];
    ghost var all := Chosen(store.order, m, request);
    WalkStarts(store.Value(), request, policy, cursor, pageSize);
    var more := true;
    while more
      invariant Alike(query, request) && query.pageSize > 0 && !query.includeTotalSize
      invariant Selecting(selected, lastSelected, Visible(seen, m, request, policy), cursor, pageSize)
      invariant more ==> Boundary(query.pageToken).Ok?
      invariant more ==> seen + Candidates(store.order, m, request, Boundary(query.pageToken).value) == all
      invariant !more ==> seen == all
      decreases |all| - |seen|, more
    {
      var listed := store.List(query);
      WalkContinues(store.Value(), query, request, listed.value);
      var tasks, cursors := listed.value.tasks, listed.value.cursors;
      assert |tasks| == |cursors| by { ShownSizes(tasks, cursors, m, request); }
      assert seen + cursors[..0] == seen && cursors[..|cursors|] == cursors;
      for index := 0 to |tasks|
        invariant Selecting(selected, lastSelected, Visible(seen + cursors[..index], m, request, policy),
                            cursor, pageSize)
      {
        var task, boundary := tasks[index], cursors[index];
        ShownTask(tasks, cursors, m, request, policy, index);
        VisibleStep(seen, cursors, index, m, request, policy);
        if !policy(task) {
          continue;
        }
        SelectingStep(selected, lastSelected, Visible(seen + cursors[..index], m, request, policy),
                      cursor, pageSize, boundary);
        selected := selected.(totalSize := selected.totalSize + 1);
        if cursor.Some? && !Precedes(cursor.value, boundary) {
          continue;
        }
        if |selected.taskIds| < pageSize {
          selected := selected.(taskIds := selected.taskIds + [task.id]);
          lastSelected := boundary;
        } else if selected.nextPageToken == [] {
          var token := EncodeListPageToken(lastSelected);
          selected := selected.(nextPageToken := token);
        }
      }
      seen := seen + cursors;
      query := query.(pageToken := listed.value.nextPageToken);
      more := query.pageToken != [];
    }
    SelectingIsSelected(selected, lastSelected, Visible(seen, m, request, policy), cursor, pageSize);
  }

  lemma ShownSizes(tasks: seq<Task>, cursors: seq<Cursor>, m: Store, query: Request)
    requires Shows(tasks, cursors, m, query)
    ensures |tasks| == |cursors|
  {
  }

  /** The policy is asked about the task as it is shown. */
  lemma ShownTask(tasks: seq<Task>, cursors: seq<Cursor>, m: Store, query: Request, policy: Policy, i: nat)
    requires Shows(tasks, cursors, m, query) && Keyed(m) && i < |tasks|
    ensures |tasks| == |cursors|
    ensures policy(tasks[i]) == Sees(cursors[i], m, query, policy) && tasks[i].id == cursors[i].taskId
  {
  }

  lemma SelectingIsSelected(page: VisiblePage, last: Cursor, visible: seq<Cursor>, boundary: Option<Cursor>, size: nat)
    requires Selecting(page, last, visible, boundary, size)
    ensures Selected(page, visible, boundary, size)
  {
  }

  lemma WalkStarts(rep: Rep, request: Request, policy: Policy, cursor: Option<Cursor>, pageSize: nat)
    requires Fits(rep)
    ensures Boundary([]) == Ok(None)
    ensures Candidates(rep.order, Entries(rep), request, None) == Chosen(rep.order, Entries(rep), request)
    ensures Selecting(VisiblePage([], 0, []), Cursor(0, []), Visible([], Entries(rep), request, policy),
                      cursor, pageSize)
  {
    assert rep.order[0..] == rep.order;
  }

  /** The token of a page leads on to the candidates behind it. */
  lemma WalkContinues(rep: Rep, query: Request, request: Request, response: Response)
    requires Fits(rep) && query.pageSize > 0 && Boundary(query.pageToken).Ok? && Alike(query, request)
    requires IsPage(response, rep.order, Entries(rep), query, Boundary(query.pageToken).value)
    ensures Shows(response.tasks, response.cursors, Entries(rep), request) && Keyed(Entries(rep))
    ensures var candidates := Candidates(rep.order, Entries(rep), request, Boundary(query.pageToken).value);
      var next := Boundary(response.nextPageToken);
      if response.nextPageToken == [] then candidates == response.cursors
      else
        && response.cursors != [] && next == Ok(Some(response.cursors[|response.cursors| - 1]))
        && response.cursors + Candidates(rep.order, Entries(rep), request, next.value) == candidates
  {
    hide Token, Boundary, Fits, Entries, Candidates, Keyed, Projected;
    var m, boundary := Entries(rep), Boundary(query.pageToken).value;
    var candidates := Candidates(rep.order, m, query, boundary);
    AlikeCandidates(rep.order, m, query, request, boundary);
    EntriesKeyed(rep);
    if HasMore(candidates, query.pageSize) {
      assert candidates[query.pageSize - 1] == response.cursors[|response.cursors| - 1];
      TokenContinues(rep, request, boundary, query.pageSize);
    }
  }

  lemma EntriesKeyed(rep: Rep)
    requires Fits(rep)
    ensures Keyed(Entries(rep))
  {
    hide Ordered;
  }

  lemma TokenContinues(rep: Rep, request: Request, boundary: Option<Cursor>, k: nat)
    requires Fits(rep) && 0 < k <= |Candidates(rep.order, Entries(rep), request, boundary)|
    ensures var candidates := Candidates(rep.order, Entries(rep), request, boundary);
      && Token(candidates[k - 1]) != [] && Boundary(Token(candidates[k - 1])) == Ok(Some(candidates[k - 1]))
      && Candidates(rep.order, Entries(rep), request, Some(candidates[k - 1])) == candidates[k..]
  {
    hide Token, Boundary, Candidates, Fits, Entries;
    FitsLists(rep);
    var last := Candidates(rep.order, Entries(rep), request, boundary)[k - 1];
    CandidatesContinue(rep.order, Entries(rep), request, boundary, k);
    CandidatesAreAfter(rep.order, Entries(rep), request, boundary);
    assert last in Candidates(rep.order, Entries(rep), request, boundary);
    ListedIsValid(rep, last);
    BoundaryOfToken(last);
    TokenIsNotEmpty(last);
  }

  lemma TokenIsNotEmpty(c: Cursor)
    ensures Token(c) != []
  {
  }

  lemma ListedIsValid(rep: Rep, c: Cursor)
    requires Fits(rep) && c in rep.order
    ensures ValidCursor(c)
  {
    var i := rep.indices[c.taskId];
    assert ValidCursor(CursorOf(rep, i));
  }

  // ----- The request as a whole ----------------------------------------------

  function PageSizeOf(request: Request): nat
  {
    if request.pageSize == 0 then 50 else request.pageSize
  }

  /** The page of tasks a caller gets: each selected task is fetched again and must still be accessible in full. */
  ghost predicate Answers(r: Result<Response, Error>, page: seq<Cursor>, visible: seq<Cursor>, m: Store, policy: Policy,
                          request: Request)
    requires Boundary(request.pageToken).Ok?
  {
    && (r.Ok? <==> forall i :: 0 <= i < |page| ==> page[i].taskId in m && policy(m[page[i].taskId].task))
    && (r.Err? ==> r.error == NotFound)
    && (r.Ok? ==>
          && Shows(r.value.tasks, page, m, request)
          && r.value.pageSize == PageSizeOf(request)
          && Selected(VisiblePage(IdsOf(page), r.value.totalSize, r.value.nextPageToken), visible,
                      Boundary(request.pageToken).value, PageSizeOf(request)))
  }

  /** The answer to a request that is run as `query`. */
  ghost predicate AnswersQuery(r: Result<Response, Error>, order: seq<Cursor>, m: Store, policy: Policy,
                               request: Request, query: Request)
    requires Boundary(request.pageToken).Ok?
  {
    var visible := Visible(Chosen(order, m, query), m, query, policy);
    Answers(r, NextVisible(visible, Boundary(request.pageToken).value, PageSizeOf(request)),
            visible, m, policy, request)
  }

  lemma SelectedIds(selected: VisiblePage, visible: seq<Cursor>, boundary: Option<Cursor>, size: nat)
    requires Selected(selected, visible, boundary, size)
    ensures selected.taskIds == IdsOf(NextVisible(visible, boundary, size))
    ensures forall id :: id in selected.taskIds ==>
      exists c :: c in NextVisible(visible, boundary, size) && c.taskId == id
  {
    hide Token, Beyond, NextVisible;
    var page := NextVisible(visible, boundary, size);
    forall id | id in selected.taskIds ensures exists c :: c in page && c.taskId == id {
      var i :| 0 <= i < |page| && selected.taskIds[i] == id;
      assert page[i] in page && page[i].taskId == id;
    }
  }

  /** Fetches the selected tasks again, and stops at the first one that is not accessible. */
  method FetchTasks(store: InMemoryTaskStore, ids: seq<Bytes>, policy: Policy, request: Request)
    returns (r: Result<seq<Task>, Error>)
    requires store.Valid()
    requires forall i :: 0 <= i < |ids| ==> ids[i] != [] && ids[i] in store.Contents()
    ensures r.Ok? <==> forall i :: 0 <= i < |ids| ==> policy(store.Contents()[ids[i]].task)
    ensures r.Err? ==> r.error == NotFound
    ensures r.Ok? ==> |r.value| == |ids|
    ensures r.Ok? ==> forall i :: 0 <= i < |ids| ==>
      r.value[i] == Projected(store.Contents()[ids[i]].task, request.includeArtifacts, request.historyLength)
  {
    hide Fits, Entries;
    ghost var m := store.Contents();
    var tasks: seq<Task> := [];
    for i := 0 to |ids|
      invariant |tasks| == i
      invariant forall k :: 0 <= k < i ==>
        && policy(m[ids[k]].task)
        && tasks[k] == Projected(m[ids[k]].task, request.includeArtifacts, request.historyLength)
    {
      var task := store.Get(ids[i]);
      if !policy(task.value) {
        return Err(NotFound);
      }
      tasks := tasks + [Projected(task.value, request.includeArtifacts, request.historyLength)];
    }
    return Ok(tasks);
  }

  method ListVisibleTasks(store: InMemoryTaskStore, scope: Scope, policy: Policy, request: Request)
    returns (r: Result<Response, Error>)
    requires store.Valid()
    ensures request.pageSize > 100 ==> r == Err(Validation)
    ensures request.pageSize <= 100 && Boundary(request.pageToken).Err? ==> r == Err(InvalidCursor)
    ensures request.pageSize <= 100 && Boundary(request.pageToken).Ok? ==>
      var scoped := scope(request.(historyLength := None, includeArtifacts := true));
      if scoped.None? then r == Ok(Response([], PageSizeOf(request), 0, [], []))
      else
        AnswersQuery(r, store.order, store.Contents(), policy, request, scoped.value)
  {
    hide Fits, Entries, Boundary, Visible, Chosen, Beyond, Token, Selected, Sorted;
    if request.pageSize > MAX_PAGE_SIZE {
      return Err(Validation);
    }
    var cursor := ParseListPageToken(request.pageToken);
    if cursor.Err? {
      return Err(cursor.error);
    }
    var size := if request.pageSize == 0 then DEFAULT_PAGE_SIZE else request.pageSize;
    var scoped := scope(request.(historyLength := None, includeArtifacts := true));
    if scoped.None? {
      return Ok(Response([], size, 0, [], []));
    }
    var selected := SelectTaskIds(store, scoped.value, policy, cursor.value, size);
    ghost var m := store.Contents();
    ghost var visible := Visible(Chosen(store.order, m, scoped.value), m, scoped.value, policy);
    ghost var page := NextVisible(visible, cursor.value, size);
    SelectedAreStored(store.Value(), scoped.value, policy, cursor.value, size);
    SelectedIds(selected, visible, cursor.value, size);
    var fetched := FetchTasks(store, selected.taskIds, policy, request);
    assert forall i :: 0 <= i < |page| ==> selected.taskIds[i] == page[i].taskId;
    if fetched.Err? {
      return Err(fetched.error);
    }
    return Ok(Response(fetched.value, size, selected.totalSize, selected.nextPageToken, []));
  }

  lemma {:induction false} BeyondIsFilter(cursors: seq<Cursor>, boundary: Option<Cursor>)
    ensures forall c :: c in Beyond(cursors, boundary) <==>
      c in cursors && (boundary.None? || Precedes(boundary.value, c))
  {
    hide Precedes;
    if cursors != [] {
      var front, last := cursors[..|cursors| - 1], cursors[|cursors| - 1];
      BeyondIsFilter(front, boundary);
      assert cursors == front + [last];
    }
  }

  lemma SelectedAreStored(rep: Rep, query: Request, policy: Policy, boundary: Option<Cursor>, size: nat)
    requires Fits(rep)
    ensures var visible := Visible(Chosen(rep.order, Entries(rep), query), Entries(rep), query, policy);
      && Sorted(visible) && (forall c :: c in visible ==> ValidCursor(c))
      && forall c :: c in NextVisible(visible, boundary, size) ==>
         c.taskId != [] && Sees(c, Entries(rep), query, policy)
  {
    hide Fits, Entries, Chosen, Visible, Beyond, Matches, Sees, Sorted, Precedes;
    FitsLists(rep);
    var m := Entries(rep);
    var listed := Chosen(rep.order, m, query);
    var visible := Visible(listed, m, query, policy);
    ChosenIsFilter(rep.order, m, query);
    VisibleIsFilter(listed, m, query, policy);
    BeyondIsFilter(visible, boundary);
    forall c | c in visible ensures ValidCursor(c) { ListedIsValid(rep, c); }
    forall c | c in NextVisible(visible, boundary, size) ensures c in visible { assert c in Beyond(visible, boundary); }
  }

  /** A scope that leaves the projection alone shows the policy the stored tasks themselves, so no fetch fails. */
  lemma FullViewNeverFails(r: Result<Response, Error>, rep: Rep, policy: Policy, request: Request, query: Request)
    requires Fits(rep) && Boundary(request.pageToken).Ok? && query.historyLength == None && query.includeArtifacts
    requires AnswersQuery(r, rep.order, Entries(rep), policy, request, query)
    ensures r.Ok?
  {
    var m, boundary, size := Entries(rep), Boundary(request.pageToken).value, PageSizeOf(request);
    SelectedAreStored(rep, query, policy, boundary, size);
    hide Fits, Entries, Chosen, Visible, Beyond, NextVisible, Boundary;
    var page := NextVisible(Visible(Chosen(rep.order, m, query), m, query, policy), boundary, size);
    forall i | 0 <= i < |page| ensures page[i].taskId in m && policy(m[page[i].taskId].task) {
      assert page[i] in page && Sees(page[i], m, query, policy);
      assert Projected(m[page[i].taskId].task, true, None) == m[page[i].taskId].task;
    }
  }

  // ----- Following the tokens ------------------------------------------------

  /** In a sorted sequence, what lies beyond an entry is what follows it. */
  lemma {:induction false} BeyondEntry(cursors: seq<Cursor>, i: nat)
    requires Sorted(cursors) && i < |cursors|
    ensures Beyond(cursors, Some(cursors[i])) == cursors[i + 1..]
  {
    hide Precedes;
    var front, last := cursors[..|cursors| - 1], cursors[|cursors| - 1];
    PrecedesIrreflexive(last);
    if i < |front| {
      BeyondEntry(front, i);
      assert cursors[i + 1..] == front[i + 1..] + [last];
    } else {
      NothingBeyond(front, last);
    }
  }

  lemma {:induction false} NothingBeyond(cursors: seq<Cursor>, last: Cursor)
    requires forall i :: 0 <= i < |cursors| ==> Precedes(cursors[i], last)
    ensures Beyond(cursors, Some(last)) == []
  {
    hide Precedes;
    if cursors != [] {
      var c := cursors[|cursors| - 1];
      NothingBeyond(cursors[..|cursors| - 1], last);
      if Precedes(last, c) {
        PrecedesTransitive(last, c, last);
        PrecedesIrreflexive(last);
      }
    }
  }

  lemma {:induction false} BeyondNone(cursors: seq<Cursor>)
    ensures Beyond(cursors, None) == cursors
  {
    if cursors != [] {
      BeyondNone(cursors[..|cursors| - 1]);
    }
  }

  /** The pages a caller selects who follows the tokens, from `token` to the page without one. */
  ghost predicate Collects(pages: seq<VisiblePage>, visible: seq<Cursor>, token: Bytes, size: nat)
    decreases |pages|
  {
    && pages != [] && Boundary(token).Ok? && Selected(pages[0], visible, Boundary(token).value, size)
    && if pages[0].nextPageToken == [] then |pages| == 1
       else Collects(pages[1..], visible, pages[0].nextPageToken, size)
  }

  function Joined(pages: seq<VisiblePage>): seq<Bytes>
  {
    if pages == [] then [] else pages[0].taskIds + Joined(pages[1..])
  }

  /** What the caller may see of the store. */
  ghost function VisibleIn(rep: Rep, query: Request, policy: Policy): seq<Cursor>
    requires Fits(rep)
  {
    Visible(Chosen(rep.order, Entries(rep), query), Entries(rep), query, policy)
  }

  ghost predicate Listing(visible: seq<Cursor>)
  {
    Sorted(visible) && forall c :: c in visible ==> ValidCursor(c)
  }

  /** Whatever a store holds: following the tokens from the start comes to an end, after no more pages than there are
      visible tasks, or one. */
  lemma TokensEnd(rep: Rep, query: Request, policy: Policy, size: nat) returns (pages: seq<VisiblePage>)
    requires Fits(rep) && size > 0
    ensures Collects(pages, VisibleIn(rep, query, policy), [], size)
    ensures |pages| <= 1 || |pages| <= |VisibleIn(rep, query, policy)|
  {
    hide Fits, Entries, Visible, Chosen, Collects, Sorted;
    var visible := VisibleIn(rep, query, policy);
    SelectedAreStored(rep, query, policy, None, size);
    BeyondNone(visible);
    assert visible[0..] == visible;
    pages := PagesFrom(visible, [], size, 0);
  }

  /** And the pages selected on the way hold the visible tasks, each once and in order. */
  lemma TokensCoverTheVisible(pages: seq<VisiblePage>, rep: Rep, query: Request, policy: Policy, size: nat)
    requires Fits(rep) && size > 0 && Collects(pages, VisibleIn(rep, query, policy), [], size)
    ensures Joined(pages) == IdsOf(VisibleIn(rep, query, policy))
  {
    hide Fits, Entries, Visible, Chosen, Collects, Sorted;
    var visible := VisibleIn(rep, query, policy);
    SelectedAreStored(rep, query, policy, None, size);
    BeyondNone(visible);
    assert visible[0..] == visible;
    TokensCoverTheRest(pages, visible, [], size, 0);
  }

  /** The token of the page after the first `k` leads on behind it. */
  lemma NextToken(visible: seq<Cursor>, size: nat, k: nat)
    requires Listing(visible) && 0 < size < |visible| - k
    ensures var last := visible[k..][..size][size - 1];
      && Token(last) != [] && Boundary(Token(last)) == Ok(Some(last))
      && Beyond(visible, Some(last)) == visible[k + size..]
  {
    hide Sorted, Boundary, Beyond, Token;
    var last := visible[k + size - 1];
    assert last in visible && last == visible[k..][..size][size - 1];
    BoundaryOfToken(last);
    TokenIsNotEmpty(last);
    BeyondEntry(visible, k + size - 1);
  }

  lemma {:induction false} PagesFrom(visible: seq<Cursor>, token: Bytes, size: nat, k: nat)
    returns (pages: seq<VisiblePage>)
    requires size > 0 && Listing(visible) && k <= |visible|
    requires Boundary(token).Ok? && Beyond(visible, Boundary(token).value) == visible[k..]
    ensures Collects(pages, visible, token, size) && (|pages| <= 1 || |pages| <= |visible| - k)
    decreases |visible| - k
  {
    hide Listing, Boundary, Beyond, Token;
    if |visible| - k > size {
      var page := visible[k..][..size];
      NextToken(visible, size, k);
      var first, rest := VisiblePage(IdsOf(page), |visible|, Token(page[size - 1])), [];
      rest := PagesFrom(visible, first.nextPageToken, size, k + size);
      pages := [first] + rest;
      assert pages[1..] == rest;
    } else {
      pages := [VisiblePage(IdsOf(visible[k..]), |visible|, [])];
    }
  }

  lemma {:induction false} TokensCoverTheRest(pages: seq<VisiblePage>, visible: seq<Cursor>, token: Bytes, size: nat,
                                              k: nat)
    requires size > 0 && Listing(visible) && k <= |visible|
    requires Collects(pages, visible, token, size) && Beyond(visible, Boundary(token).value) == visible[k..]
    ensures Joined(pages) == IdsOf(visible[k..])
    decreases |pages|
  {
    hide Listing, Boundary, Beyond, Token;
    if |visible| - k > size {
      NextToken(visible, size, k);
      TokensCoverTheRest(pages[1..], visible, pages[0].nextPageToken, size, k + size);
      assert visible[k..] == visible[k..][..size] + visible[k + size..];
    } else {
      assert Joined(pages[1..]) == [];
    }
  }
}
