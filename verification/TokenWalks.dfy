/** Walks as a caller makes them: each list request carries the token of the response before. */
module TokenWalks {
  import opened Protocol
  import opened ListTasks
  import opened TaskStore
  import opened Paging
  import opened InMemoryTaskStore
  import opened VisibleTasks

  function RequestAt(request: Request, responses: seq<Response>, j: nat): Request
    requires j <= |responses|
  {
    request.(pageToken := if j == 0 then [] else responses[j - 1].nextPageToken)
  }

  /** The store answered the `j`-th request, in the state it had then, as its `List` does. */
  ghost predicate Answered(rep: Rep, request: Request, responses: seq<Response>, j: nat)
    requires j < |responses|
  {
    var asked := RequestAt(request, responses, j);
    && Fits(rep) && Boundary(asked.pageToken).Ok?
    && IsPage(responses[j], rep.order, Entries(rep), asked, Boundary(asked.pageToken).value)
  }

  /** Operations of any kind and number come between the requests, and every response but the last has a token. */
  ghost predicate TokenWalk(reps: seq<Rep>, ops: seq<seq<Operation>>, request: Request, responses: seq<Response>)
  {
    && |reps| == |responses| == |ops| + 1 && request.pageSize >= 1
    && (forall j :: 0 <= j < |reps| ==> Answered(reps[j], request, responses, j))
    && (forall j :: 0 <= j < |ops| ==> Entries(reps[j + 1]) == Run(Entries(reps[j]), ops[j]))
    && (forall j :: 0 <= j < |ops| ==> responses[j].nextPageToken != [])
  }

  ghost function Views(reps: seq<Rep>): seq<View>
    requires forall j :: 0 <= j < |reps| ==> Fits(reps[j])
  {
    seq(|reps|, j requires 0 <= j < |reps| => View(Entries(reps[j]), reps[j].order))
  }

  lemma {:induction false} TokensContinue(reps: seq<Rep>, request: Request, responses: seq<Response>, j: nat)
    requires j < |reps| == |responses| && request.pageSize >= 1
    requires forall k :: 0 <= k < |reps| ==> Answered(reps[k], request, responses, k) && Fits(reps[k])
    requires forall k :: 0 <= k < j ==> responses[k].nextPageToken != []
    ensures PageAt(Views(reps), request, j) == responses[j].cursors
    ensures HasMore(CandidatesAt(Views(reps), request, j), request.pageSize) <==> responses[j].nextPageToken != []
  {
    hide Fits, Entries, Candidates, Boundary, Chosen, UpperBound, Token;
    var asked, views := RequestAt(request, responses, j), Views(reps);
    assert Answered(reps[j], request, responses, j);
    var boundary := Boundary(asked.pageToken).value;
    assert boundary == BoundaryAt(views, request, j) by {
      if j == 0 {
        NoTokenNoBoundary();
      } else {
        TokensContinue(reps, request, responses, j - 1);
        TokenOfPage(reps[j - 1], request, responses, j - 1);
      }
    }
    AlikeCandidates(reps[j].order, Entries(reps[j]), asked, request, boundary);
    TokenOfPage(reps[j], request, responses, j);
  }

  lemma NoTokenNoBoundary()
    ensures Boundary([]) == Ok(None)
  {
  }

  lemma TokenOfPage(rep: Rep, request: Request, responses: seq<Response>, j: nat)
    requires j < |responses| && request.pageSize >= 1 && Answered(rep, request, responses, j)
    ensures var asked := RequestAt(request, responses, j);
      var candidates := Candidates(rep.order, Entries(rep), asked, Boundary(asked.pageToken).value);
      HasMore(candidates, asked.pageSize) <==> responses[j].nextPageToken != []
    ensures responses[j].nextPageToken != [] ==>
      && responses[j].cursors != []
      && Boundary(responses[j].nextPageToken) == Ok(Some(responses[j].cursors[|responses[j].cursors| - 1]))
  {
    hide Fits, Entries, Candidates, Boundary, Token;
    var asked := RequestAt(request, responses, j);
    var boundary := Boundary(asked.pageToken).value;
    var candidates := Candidates(rep.order, Entries(rep), asked, boundary);
    if HasMore(candidates, asked.pageSize) {
      TokenContinues(rep, asked, boundary, asked.pageSize);
    }
  }

  /** Following the tokens is a walk, so the walk theorems hold of the responses. */
  lemma TokenWalkIsWalk(reps: seq<Rep>, ops: seq<seq<Operation>>, request: Request, responses: seq<Response>)
    requires TokenWalk(reps, ops, request, responses)
    ensures forall j :: 0 <= j < |reps| ==> Fits(reps[j])
    ensures Walk(Views(reps), request)
    ensures forall j :: 0 <= j < |reps| ==> PageAt(Views(reps), request, j) == responses[j].cursors
    ensures forall j :: 0 <= j < |reps| ==>
      (HasMore(CandidatesAt(Views(reps), request, j), request.pageSize) <==> responses[j].nextPageToken != [])
  {
    hide Fits, Entries, Boundary, Later, CandidatesAt, PageAt, Answered, Lists, HasMore, Run;
    forall j | 0 <= j < |reps| ensures Fits(reps[j]) { AnsweredFits(reps[j], request, responses, j); }
    var views := Views(reps);
    forall j | 0 <= j < |reps|
      ensures PageAt(views, request, j) == responses[j].cursors && Lists(views[j])
      ensures HasMore(CandidatesAt(views, request, j), request.pageSize) <==> responses[j].nextPageToken != []
    {
      TokensContinue(reps, request, responses, j);
      FitsLists(reps[j]);
    }
    forall j | 0 <= j < |reps| - 1 ensures Later(views[j].m, views[j + 1].m) {
      RunMovesLater(Entries(reps[j]), ops[j]);
    }
  }

  /** No task appears twice in the responses, whatever ran between the requests. */
  lemma ResponsesNeverRepeat(reps: seq<Rep>, ops: seq<seq<Operation>>, request: Request, responses: seq<Response>,
                             j: nat, a: nat, k: nat, b: nat)
    requires TokenWalk(reps, ops, request, responses) && j < |responses| && k < |responses|
    requires a < |responses[j].cursors| && b < |responses[k].cursors| && (j < k || (j == k && a < b))
    ensures responses[j].cursors[a].taskId != responses[k].cursors[b].taskId
  {
    hide TokenWalk, Walk, PageAt;
    assert |reps| == |responses| by { SameLengths(reps, ops, request, responses); }
    TokenWalkIsWalk(reps, ops, request, responses);
    WalkNeverRepeats(Views(reps), request, j, a, k, b);
  }

  lemma SameLengths(reps: seq<Rep>, ops: seq<seq<Operation>>, request: Request, responses: seq<Response>)
    requires TokenWalk(reps, ops, request, responses)
    ensures |reps| == |responses| == |ops| + 1
  {
  }

  function Target(op: Operation): Bytes
  {
    match op
    case Put(task, _) => task.id
    case PutIf(task, _, _) => task.id
    case CancelTask(id, _) => id
    case Append(id, _, _, _) => id
  }

  /** Operations on other tasks leave an entry alone. */
  lemma {:induction false} RunLeavesOthers(m: Store, ops: seq<Operation>, id: Bytes)
    requires Keyed(m) && id in m && forall i :: 0 <= i < |ops| ==> Target(ops[i]) != id
    ensures id in Run(m, ops) && Run(m, ops)[id] == m[id]
    decreases |ops|
  {
    if ops != [] {
      assert Target(ops[0]) != id;
      RunLeavesOthers(Applied(m, ops[0]), ops[1..], id);
    }
  }

  lemma {:induction false} EntryStays(reps: seq<Rep>, ops: seq<seq<Operation>>, request: Request,
                                      responses: seq<Response>, id: Bytes, j: nat)
    requires TokenWalk(reps, ops, request, responses) && j < |reps|
    requires forall k :: 0 <= k < |reps| ==> Fits(reps[k])
    requires id in Entries(reps[0]) && forall k, i :: 0 <= k < |ops| && 0 <= i < |ops[k]| ==> Target(ops[k][i]) != id
    ensures id in Entries(reps[j]) && Entries(reps[j])[id] == Entries(reps[0])[id]
  {
    hide Fits, Entries, Answered, Run, Keyed;
    if j > 0 {
      EntryStays(reps, ops, request, responses, id, j - 1);
      EntriesKeyed(reps[j - 1]);
      RunLeavesOthers(Entries(reps[j - 1]), ops[j - 1], id);
    }
  }

  /** A walk whose last response has no token has returned every task that matched at the start and that no operation
      in between was about. */
  lemma ResponsesReturnTheRest(reps: seq<Rep>, ops: seq<seq<Operation>>, request: Request, responses: seq<Response>,
                               id: Bytes)
    requires TokenWalk(reps, ops, request, responses) && responses[|responses| - 1].nextPageToken == []
    requires Fits(reps[0]) && id in Entries(reps[0]) && Matches(Entries(reps[0])[id].task, request)
    requires forall k, i :: 0 <= k < |ops| && 0 <= i < |ops[k]| ==> Target(ops[k][i]) != id
    ensures exists j :: 0 <= j < |responses| && Cursor(Entries(reps[0])[id].updatedAt, id) in responses[j].cursors
  {
    hide Fits, Entries, Walk, PageAt, CandidatesAt, HasMore, Matches, Answered, Run;
    TokenWalkIsWalk(reps, ops, request, responses);
    forall j | 0 <= j < |reps| ensures id in Entries(reps[j]) && Entries(reps[j])[id] == Entries(reps[0])[id] {
      EntryStays(reps, ops, request, responses, id, j);
    }
    CompletedWalkReturnsUntouched(Views(reps), request, id);
  }

  lemma AnsweredFits(rep: Rep, request: Request, responses: seq<Response>, j: nat)
    requires j < |responses| && Answered(rep, request, responses, j)
    ensures Fits(rep)
  {
  }
}
