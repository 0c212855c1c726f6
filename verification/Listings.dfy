/** What a list response shows, field by field: which tasks pass the filters, in which order, and how much of them. */
module Listings {
  import opened Protocol
  import opened ListTasks
  import opened TaskStore
  import opened Paging
  import opened InMemoryTaskStore

  /** The status carries a time, and it is not before the cutoff. */
  predicate Since(status: Status, cutoff: Timestamp)
  {
    && status.timestamp.Some?
    && !Less([status.timestamp.value.seconds, status.timestamp.value.nanos], [cutoff.seconds, cutoff.nanos])
  }

  /** The task has what the request asks for: its context, its state, and a status time from the cutoff on. */
  predicate Qualifies(task: Task, request: Request)
  {
    && (request.contextId != [] ==> task.contextId == request.contextId)
    && (request.statusFilter.Some? ==> task.status.state == request.statusFilter.value)
    && (request.statusAfter.Some? ==> Since(task.status, request.statusAfter.value))
  }

  lemma MatchesIsQualifies(task: Task, request: Request)
    ensures Matches(task, request) <==> Qualifies(task, request)
  {
    if task.status.timestamp.Some? && request.statusAfter.Some? {
      var t, c := task.status.timestamp.value, request.statusAfter.value;
      assert [t.seconds, t.nanos][1..] == [t.nanos] && [c.seconds, c.nanos][1..] == [c.nanos];
      assert [t.nanos][1..] == [] && [c.nanos][1..] == [];
      assert Less([t.nanos], [c.nanos]) <==> t.nanos < c.nanos;
    }
  }

  /** Later update first; of two updated at the same time, the one with the greater id. */
  predicate Before(a: Cursor, b: Cursor)
  {
    a.updatedAt > b.updatedAt || (a.updatedAt == b.updatedAt && Less(b.taskId, a.taskId))
  }

  predicate AfterBoundary(c: Cursor, boundary: Option<Cursor>)
  {
    boundary.Some? ==> Before(boundary.value, c)
  }

  /** What of a stored task a listing shows: identity, context and status; artifacts if asked for; the last messages of
      its history, as many as asked for. */
  predicate Abridges(shown: Task, task: Task, request: Request)
  {
    && shown.id == task.id && shown.contextId == task.contextId && shown.status == task.status
    && shown.artifacts == (if request.includeArtifacts then task.artifacts else [])
    && |shown.history| <= |task.history| && shown.history == task.history[|task.history| - |shown.history|..]
    && |shown.history| == (if request.historyLength.None? || request.historyLength.value > |task.history|
                           then |task.history| else request.historyLength.value)
  }

  lemma ProjectedAbridges(task: Task, request: Request)
    ensures Abridges(Projected(task, request.includeArtifacts, request.historyLength), task, request)
  {
  }

  /** Every task of the response is a stored one, abridged, that lies after the boundary and passes each filter. */
  lemma ListedQualify(rep: Rep, request: Request, response: Response, i: nat)
    requires Fits(rep) && Boundary(request.pageToken).Ok? && i < |response.tasks|
    requires IsPage(response, rep.order, Entries(rep), request, Boundary(request.pageToken).value)
    ensures var m, shown := Entries(rep), response.tasks[i];
      && shown.id in m && Abridges(shown, m[shown.id].task, request)
      && AfterBoundary(Cursor(m[shown.id].updatedAt, shown.id), Boundary(request.pageToken).value)
      && (request.contextId != [] ==> shown.contextId == request.contextId)
      && (request.statusFilter.Some? ==> shown.status.state == request.statusFilter.value)
      && (request.statusAfter.Some? ==> Since(shown.status, request.statusAfter.value))
  {
    hide Fits, Entries, Matches, Projected, Boundary, Token;
    var m, boundary, c := Entries(rep), Boundary(request.pageToken).value, response.cursors[i];
    PageIsListed(rep, request, boundary, response, c);
    MatchesIsQualifies(m[c.taskId].task, request);
    ProjectedAbridges(m[c.taskId].task, request);
    StoredUnderId(rep, c.taskId);
  }

  lemma PageIsListed(rep: Rep, request: Request, boundary: Option<Cursor>, response: Response, c: Cursor)
    requires Fits(rep) && IsPage(response, rep.order, Entries(rep), request, boundary) && c in response.cursors
    ensures c.taskId in Entries(rep) && Entries(rep)[c.taskId].updatedAt == c.updatedAt
    ensures Matches(Entries(rep)[c.taskId].task, request) && AfterBoundary(c, boundary)
  {
    hide Fits, Entries, Matches, Candidates, Token, Shows;
    FitsLists(rep);
    CandidatesAreAfter(rep.order, Entries(rep), request, boundary);
    assert c in Candidates(rep.order, Entries(rep), request, boundary);
  }

  lemma StoredUnderId(rep: Rep, id: Bytes)
    requires Fits(rep) && id in Entries(rep)
    ensures Entries(rep)[id].task.id == id
  {
    hide Ordered;
  }

  /** Conversely: a stored task that lies after the boundary and passes each filter is on the page, or the response has
      a token and the task lies behind the last one on the page. */
  lemma QualifiedAreListed(rep: Rep, request: Request, response: Response, id: Bytes)
    requires Fits(rep) && Boundary(request.pageToken).Ok? && id in Entries(rep)
    requires IsPage(response, rep.order, Entries(rep), request, Boundary(request.pageToken).value)
    requires Qualifies(Entries(rep)[id].task, request)
    requires AfterBoundary(Cursor(Entries(rep)[id].updatedAt, id), Boundary(request.pageToken).value)
    ensures
      || (exists i :: 0 <= i < |response.tasks| && response.tasks[i].id == id)
      || (&& response.nextPageToken != [] && response.cursors != []
          && Before(response.cursors[|response.cursors| - 1], Cursor(Entries(rep)[id].updatedAt, id)))
  {
    hide Fits, Entries, Matches, Candidates, Token, Projected, Boundary;
    var m, c := Entries(rep), Cursor(Entries(rep)[id].updatedAt, id);
    var boundary := Boundary(request.pageToken).value;
    var candidates := Candidates(rep.order, m, request, boundary);
    FitsLists(rep);
    CandidatesAreAfter(rep.order, m, request, boundary);
    MatchesIsQualifies(m[id].task, request);
    var k :| 0 <= k < |candidates| && candidates[k] == c;
    if k < |response.cursors| {
      assert response.cursors[k] == c;
      StoredUnderId(rep, id);
      ShownId(response.tasks, response.cursors, m, request, k);
    } else {
      TokenIsNotEmpty(response.cursors[|response.cursors| - 1]);
    }
  }

  lemma TokenIsNotEmpty(c: Cursor)
    ensures Token(c) != []
  {
  }

  lemma ShownId(tasks: seq<Task>, cursors: seq<Cursor>, m: Store, request: Request, k: nat)
    requires Shows(tasks, cursors, m, request) && k < |cursors|
    ensures |tasks| == |cursors| && cursors[k].taskId in m && tasks[k].id == m[cursors[k].taskId].task.id
  {
  }

  /** The page is in order; it holds at most as many tasks as asked for, and exactly that many if it has a token. */
  lemma ListedInOrder(rep: Rep, request: Request, response: Response)
    requires Fits(rep) && Boundary(request.pageToken).Ok?
    requires IsPage(response, rep.order, Entries(rep), request, Boundary(request.pageToken).value)
    ensures |response.cursors| == |response.tasks| == response.pageSize
    ensures request.pageSize != 0 ==> |response.tasks| <= request.pageSize
    ensures response.nextPageToken != [] ==> request.pageSize != 0 && |response.tasks| == request.pageSize
    ensures forall i, j :: 0 <= i < j < |response.cursors| ==> Before(response.cursors[i], response.cursors[j])
  {
    hide Fits, Entries, Matches, Candidates, Token, Projected, Boundary;
    FitsLists(rep);
    CandidatesAreAfter(rep.order, Entries(rep), request, Boundary(request.pageToken).value);
  }

  /** The total, when asked for, counts the stored tasks that pass each filter. */
  lemma TotalCountsQualified(rep: Rep, request: Request, response: Response)
    requires Fits(rep) && Boundary(request.pageToken).Ok?
    requires IsPage(response, rep.order, Entries(rep), request, Boundary(request.pageToken).value)
    ensures response.totalSize ==
      if request.includeTotalSize then |set id | id in Entries(rep) && Qualifies(Entries(rep)[id].task, request)| else 0
  {
    hide Fits, Entries, Matches, Candidates, Token, Projected, Boundary, Qualifies;
    var m := Entries(rep);
    forall id | id in m ensures Matches(m[id].task, request) <==> Qualifies(m[id].task, request) {
      MatchesIsQualifies(m[id].task, request);
    }
    assert (set id | id in m && Matches(m[id].task, request)) == set id | id in m && Qualifies(m[id].task, request);
  }
}
