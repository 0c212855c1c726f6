/** The store's operations, each tied to what it does to the map from id to entry. */
module InMemoryTaskStore {
  import opened Protocol
  import opened ListTasks
  import opened TaskStore
  import opened Paging

  // ----- What the operations do to the map -----------------------------------

  /** An operation with the clock reading it takes; appending consults a rule that recognises duplicates. */
  datatype Operation =
    | Put(task: Task, now: int)
    | PutIf(task: Task, expected: nat, now: int)
    | CancelTask(id: Bytes, now: int)
    | Append(id: Bytes, message: Message, isDuplicate: (seq<Message>, Message) -> bool, now: int)

  /** Revision 0 stands for a task that is not stored. */
  function RevisionOf(m: Store, id: Bytes): nat
  {
    if id in m then m[id].revision else 0
  }

  /** The task an operation wants to store, if it gets that far. */
  function Wanted(m: Store, op: Operation): Option<Task>
  {
    match op
    case Put(task, _) => if task.id == [] then None else Some(task)
    case PutIf(task, expected, _) => if task.id == [] || RevisionOf(m, task.id) != expected then None else Some(task)
    case CancelTask(id, _) =>
      if id !in m || IsTerminal(m[id].task.status.state) then None
      else Some(m[id].task.(status := m[id].task.status.(state := Canceled)))
    case Append(id, message, isDuplicate, _) =>
      if id !in m || isDuplicate(m[id].task.history, message) then None
      else Some(m[id].task.(history := m[id].task.history + [message]))
  }

  function Attempt(m: Store, op: Operation): Option<Store>
  {
    if Wanted(m, op).None? then None else Written(m, Wanted(m, op).value, op.now)
  }

  /** A failed operation changes nothing. */
  function Applied(m: Store, op: Operation): Store
  {
    if Attempt(m, op).Some? then Attempt(m, op).value else m
  }

  function Run(m: Store, ops: seq<Operation>): Store
    decreases |ops|
  {
    if ops == [] then m else Run(Applied(m, ops[0]), ops[1..])
  }

  // ----- The same, field by field ---------------------------------------------

  /** A write stores the task under its id and nothing else, at the next revision and at the least time that is neither
      before the clock's nor one the entry had; it fails exactly when no such time is left. */
  lemma WrittenOnFields(m: Store, task: Task, now: int)
    ensures Written(m, task, now).None? <==> task.id in m && m[task.id].updatedAt == 0x7FFF_FFFF_FFFF_FFFF
    ensures Written(m, task, now).Some? ==>
      var m' := Written(m, task, now).value;
      var last, revision := if task.id in m then m[task.id].updatedAt else -1, RevisionOf(m, task.id);
      && task.id in m' && m'[task.id].task == task && m'[task.id].revision == revision + 1
      && m'[task.id].updatedAt >= now && m'[task.id].updatedAt > last
      && (m'[task.id].updatedAt == now || m'[task.id].updatedAt == last + 1)
      && (forall id :: id != task.id ==> (id in m' <==> id in m) && (id in m ==> m'[id] == m[id]))
  {
  }

  predicate Over(state: TaskState)
  {
    state == Completed || state == Failed || state == Canceled || state == Rejected
  }

  /** Cancelling sets the state and leaves the rest of the task; a task that is over is left alone. */
  lemma CancelledOnFields(m: Store, id: Bytes, now: int)
    requires id in m && m[id].task.id == id
    ensures var m' := Applied(m, CancelTask(id, now));
      if Over(m[id].task.status.state) || m[id].updatedAt == MAX_TIME then m' == m
      else
        && m'.Keys == m.Keys && m'[id].revision == m[id].revision + 1 && m'[id].task.status.state == Canceled
        && m'[id].task.id == id && m'[id].task.contextId == m[id].task.contextId
        && m'[id].task.artifacts == m[id].task.artifacts && m'[id].task.history == m[id].task.history
        && m'[id].task.status.timestamp == m[id].task.status.timestamp
        && m'[id].task.status.note == m[id].task.status.note
  {
  }

  /** Appending puts the message last and leaves the rest of the task; a duplicate is left out. */
  lemma AppendedOnFields(m: Store, op: Operation)
    requires op.Append? && op.id in m && m[op.id].task.id == op.id
    ensures var m' := Applied(m, op);
      if op.isDuplicate(m[op.id].task.history, op.message) || m[op.id].updatedAt == MAX_TIME then m' == m
      else
        && m'.Keys == m.Keys && m'[op.id].revision == m[op.id].revision + 1
        && |m'[op.id].task.history| == |m[op.id].task.history| + 1
        && m'[op.id].task.history[|m[op.id].task.history|] == op.message
        && m'[op.id].task.history[..|m[op.id].task.history|] == m[op.id].task.history
        && m'[op.id].task.id == op.id && m'[op.id].task.contextId == m[op.id].task.contextId
        && m'[op.id].task.status == m[op.id].task.status && m'[op.id].task.artifacts == m[op.id].task.artifacts
  {
  }

  lemma {:induction false} RunMovesLater(m: Store, ops: seq<Operation>)
    ensures Later(m, Run(m, ops))
    decreases |ops|
  {
    if ops != [] {
      var m' := Applied(m, ops[0]);
      assert Later(m, m');
      RunMovesLater(m', ops[1..]);
      LaterTransitive(m, m', Run(m', ops[1..]));
    }
  }

  /** Whatever ran since a snapshot was taken: if its revision is still current, so is its task. Hence a conditional
      write with that revision succeeds only on the very entry that was read. */
  lemma SameRevisionSameEntry(m: Store, ops: seq<Operation>, id: Bytes)
    requires id in m && RevisionOf(Run(m, ops), id) == RevisionOf(m, id)
    ensures id in Run(m, ops) && Run(m, ops)[id] == m[id]
  {
    RunMovesLater(m, ops);
  }

  /** Of several writers that hold the same revision of a task at most one succeeds: once one has, the revision is
      spent for good, whatever runs in between. */
  lemma OneWriterWins(m: Store, first: Operation, ops: seq<Operation>, second: Operation)
    requires first.PutIf? && second.PutIf?
    requires first.task.id == second.task.id && first.expected == second.expected
    requires Attempt(m, first).Some?
    ensures Attempt(Run(Applied(m, first), ops), second).None?
  {
    var m' := Applied(m, first);
    RunMovesLater(m', ops);
    assert RevisionOf(m', first.task.id) > first.expected;
  }

  // ----- Listing -------------------------------------------------------------

  ghost function Total(m: Store, request: Request): nat
  {
    |set id | id in m && Matches(m[id].task, request)|
  }

  /** The page of a listing request with these candidates: its tasks, where they stand, and the token. */
  ghost predicate Delivers(page: seq<Task>, cursors: seq<Cursor>, token: Bytes, candidates: seq<Cursor>, m: Store,
                           request: Request)
  {
    && cursors == PageOf(candidates, request.pageSize)
    && Shows(page, cursors, m, request)
    && (HasMore(candidates, request.pageSize) ==> cursors != [] && token == Token(cursors[|cursors| - 1]))
    && (!HasMore(candidates, request.pageSize) ==> token == [])
  }

  /** The response to a listing request on a store with this listing and these entries. */
  ghost predicate IsPage(response: Response, order: seq<Cursor>, m: Store, request: Request, boundary: Option<Cursor>)
  {
    && Delivers(response.tasks, response.cursors, response.nextPageToken,
                Candidates(order, m, request, boundary), m, request)
    && response.pageSize == |response.tasks|
    && response.totalSize == (if request.includeTotalSize then Total(m, request) else 0)
  }

  ghost predicate Shows(tasks: seq<Task>, cursors: seq<Cursor>, m: Store, request: Request)
  {
    && |tasks| == |cursors|
    && forall i :: 0 <= i < |cursors| ==>
         && cursors[i].taskId in m
         && tasks[i] == Projected(m[cursors[i].taskId].task, request.includeArtifacts, request.historyLength)
  }

  ghost function MatchingIds(tasks: seq<Task>, request: Request): set<Bytes>
  {
    set i | 0 <= i < |tasks| && Matches(tasks[i], request) :: tasks[i].id
  }

  lemma MatchingIdsStep(tasks: seq<Task>, indices: map<Bytes, nat>, i: nat, request: Request)
    requires Indexed(tasks, indices) && i < |tasks|
    ensures |MatchingIds(tasks[..i + 1], request)| ==
            |MatchingIds(tasks[..i], request)| + (if Matches(tasks[i], request) then 1 else 0)
  {
    hide Matches;
    var before, after := tasks[..i], tasks[..i + 1];
    assert after == before + [tasks[i]];
    assert tasks[i].id !in MatchingIds(before, request) by {
      if j :| 0 <= j < i && before[j].id == tasks[i].id { assert tasks[j].id == tasks[i].id; }
    }
    var more := if Matches(tasks[i], request) then {tasks[i].id} else {};
    forall id | id in MatchingIds(before, request) ensures id in MatchingIds(after, request) {
      var j :| 0 <= j < i && Matches(before[j], request) && before[j].id == id;
      assert after[j] == before[j];
    }
    assert after[i] == tasks[i];
    assert MatchingIds(after, request) == MatchingIds(before, request) + more;
  }

  lemma MatchingIdsAreCounted(rep: Rep, request: Request)
    requires Fits(rep)
    ensures |MatchingIds(rep.tasks, request)| == Total(Entries(rep), request)
  {
    var m := Entries(rep);
    assert Indexed(rep.tasks, rep.indices);
    forall i | 0 <= i < |rep.tasks| ensures rep.tasks[i].id in m && m[rep.tasks[i].id].task == rep.tasks[i] {}
    hide Matches, Fits;
    forall id | id in m && Matches(m[id].task, request) ensures id in MatchingIds(rep.tasks, request) {
      assert rep.tasks[rep.indices[id]] == m[id].task;
    }
    assert MatchingIds(rep.tasks, request) == set id | id in m && Matches(m[id].task, request);
  }

  lemma EveryTaskCounts(rep: Rep, request: Request)
    requires Fits(rep) && request.contextId == [] && request.statusFilter.None? && request.statusAfter.None?
    ensures Total(Entries(rep), request) == |rep.tasks|
  {
    var ids := set id | id in Entries(rep) && Matches(Entries(rep)[id].task, request);
    assert ids == rep.indices.Keys;
    IndexIsBijective(rep.tasks, rep.indices);
  }

  lemma {:induction false} IndexIsBijective(tasks: seq<Task>, indices: map<Bytes, nat>)
    requires Indexed(tasks, indices)
    ensures |indices.Keys| == |tasks|
  {
    if tasks == [] {
      assert indices.Keys == {};
    } else {
      var front, last := tasks[..|tasks| - 1], tasks[|tasks| - 1];
      var rest := indices - {last.id};
      assert Indexed(front, rest);
      IndexIsBijective(front, rest);
      assert indices.Keys == rest.Keys + {last.id};
    }
  }

  lemma ListedTasks(rep: Rep)
    requires Fits(rep)
    ensures Entries(rep).Keys == rep.indices.Keys
    ensures forall id :: id in rep.indices ==>
      rep.indices[id] < |rep.tasks| && Entries(rep)[id].task == rep.tasks[rep.indices[id]]
    ensures forall c :: c in rep.order ==> c.taskId in rep.indices
  {
    FitsLists(rep);
  }

  /** The first `k` entries after the boundary have been looked at. */
  ghost predicate Collected(page: seq<Task>, cursors: seq<Cursor>, rest: seq<Cursor>, k: nat,
                            m: Store, request: Request)
    requires k <= |rest|
  {
    && cursors == Chosen(rest[..k], m, request)
    && Shows(page, cursors, m, request)
    && (request.pageSize != 0 ==> |cursors| <= request.pageSize)
  }

  lemma CollectedNothing(rest: seq<Cursor>, m: Store, request: Request)
    ensures Collected([], [], rest, 0, m, request)
  {
    assert rest[..0] == [];
  }

  lemma CollectedStep(page: seq<Task>, cursors: seq<Cursor>, rest: seq<Cursor>, k: nat, m: Store, request: Request)
    requires k < |rest| && Collected(page, cursors, rest, k, m, request) && rest[k].taskId in m
    requires request.pageSize == 0 || |page| != request.pageSize || !Matches(m[rest[k].taskId].task, request)
    ensures var task := m[rest[k].taskId].task;
      if Matches(task, request)
      then Collected(page + [Projected(task, request.includeArtifacts, request.historyLength)], cursors + [rest[k]],
                     rest, k + 1, m, request)
      else Collected(page, cursors, rest, k + 1, m, request)
  {
    assert rest[..k + 1][..k] == rest[..k];
  }

  /** A full page, and one more match behind it. */
  lemma CollectedFull(page: seq<Task>, cursors: seq<Cursor>, rest: seq<Cursor>, k: nat, m: Store, request: Request)
    requires k < |rest| && Collected(page, cursors, rest, k, m, request)
    requires rest[k].taskId in m && Matches(m[rest[k].taskId].task, request) && |page| == request.pageSize != 0
    ensures cursors != []
    ensures Delivers(page, cursors, Token(cursors[|cursors| - 1]), Chosen(rest, m, request), m, request)
  {
    ChosenConcat(rest[..k + 1], rest[k + 1..], m, request);
    assert rest == rest[..k + 1] + rest[k + 1..] && rest[..k + 1][..k] == rest[..k];
    assert rest[..k + 1][k] == rest[k];
  }

  lemma CollectedAll(page: seq<Task>, cursors: seq<Cursor>, rest: seq<Cursor>, m: Store, request: Request)
    requires Collected(page, cursors, rest, |rest|, m, request)
    ensures Delivers(page, cursors, [], Chosen(rest, m, request), m, request)
  {
    assert rest[..|rest|] == rest;
  }

  // ----- The store itself ----------------------------------------------------

  predicate Int64(n: int)
  {
    -0x8000_0000_0000_0000 <= n <= MAX_TIME
  }

  class InMemoryTaskStore {
    var tasks: seq<Task>
    var revisions: seq<nat>
    var times: seq<int>
    var indices: map<Bytes, nat>
    var order: seq<Cursor>

    ghost function Value(): Rep
      reads this
    {
      Rep(tasks, revisions, times, indices, order)
    }

    ghost predicate Valid()
      reads this
    {
      Fits(Value())
    }

    ghost function Contents(): Store
      reads this
      requires Valid()
    {
      Entries(Value())
    }

    constructor ()
      ensures Valid() && Contents() == map[]
    {
      tasks, revisions, times, indices, order := [], [], [], map[], [];
    }

    /** Advances the update time of a slot, or gives a just appended task its first one. */
    method TouchTask(index: nat, now: int) returns (ok: bool)
      requires index < |tasks| && index <= |times|
      modifies this`times, this`order
      ensures index == |old(times)| ==>
        && ok && times == old(times) + [Max(0, now)]
        && order == Insert(old(order), Cursor(Max(0, now), tasks[index].id))
      ensures index < |old(times)| && old(times)[index] == MAX_TIME ==>
        !ok && times == old(times) && order == old(order)
      ensures index < |old(times)| && old(times)[index] != MAX_TIME ==>
        var time := Max(old(times)[index] + 1, now);
        && ok && times == old(times)[index := time]
        && order == Insert(Extract(old(order), Cursor(old(times)[index], tasks[index].id)),
                           Cursor(time, tasks[index].id))
    {
      var id := tasks[index].id;
      if index == |times| {
        var time := Max(0, now);
        order := Insert(order, Cursor(time, id));
        times := times + [time];
        return true;
      }
      if times[index] == MAX_TIME {
        return false;
      }
      var next := Max(times[index] + 1, now);
      order := Insert(Extract(order, Cursor(times[index], id)), Cursor(next, id));
      times := times[index := next];
      return true;
    }

    /** Writes over slot `index`, if its time can advance. */
    method Overwrite(index: nat, task: Task, now: int) returns (ok: bool)
      requires Valid() && Int64(now) && index < |tasks| && task.id == tasks[index].id
      modifies this
      ensures Valid()
      ensures ok == Written(old(Contents()), task, now).Some?
      ensures Contents() == if ok then Written(old(Contents()), task, now).value else old(Contents())
    {
      hide Fits, Entries, Written, Insert, Extract, Max;
      ghost var before := Value();
      OverwrittenIsWritten(before, index, task, now);
      ok := TouchTask(index, now);
      if !ok {
        return;
      }
      tasks := tasks[index := task];
      revisions := revisions[index := (revisions[index] + 1) % REVISIONS];
      assert Value() == Overwritten(before, index, task, Max(before.times[index] + 1, now));
    }

    /** Appends a task that is not stored yet. */
    method AppendTask(task: Task, now: int)
      requires Valid() && Int64(now) && task.id !in indices && task.id != []
      modifies this
      ensures Valid() && Some(Contents()) == Written(old(Contents()), task, now)
    {
      ghost var before := Value();
      AppendedFits(before, task, Max(0, now));
      tasks := tasks + [task];
      revisions := revisions + [1];
      indices := indices[task.id := |tasks| - 1];
      var ok := TouchTask(|tasks| - 1, now);
      assert Value() == Appended(before, task, Max(0, now));
    }

    method CreateOrUpdate(task: Task, now: int) returns (r: Result<(), Error>)
      requires Valid() && Int64(now)
      modifies this
      ensures Valid() && Contents() == Applied(old(Contents()), Put(task, now))
      ensures r == if task.id == [] then Err(Validation)
                   else if Attempt(old(Contents()), Put(task, now)).Some? then Ok(()) else Err(Internal)
    {
      if task.id == [] {
        return Err(Validation);
      }
      if task.id in indices {
        var ok := Overwrite(indices[task.id], task, now);
        return if ok then Ok(()) else Err(Internal);
      }
      AppendTask(task, now);
      return Ok(());
    }

    method GetSnapshot(id: Bytes) returns (r: Result<Snapshot, Error>)
      requires Valid()
      ensures r == if id == [] then Err(Validation)
                   else if id !in Contents() then Err(NotFound)
                   else Ok(Snapshot(Contents()[id].task, Contents()[id].revision))
    {
      if id == [] {
        return Err(Validation);
      }
      if id !in indices {
        return Err(NotFound);
      }
      return Ok(Snapshot(tasks[indices[id]], revisions[indices[id]]));
    }

    method CreateOrUpdateIfRevision(task: Task, expected: nat, now: int) returns (r: Result<WriteResult, Error>)
      requires Valid() && Int64(now)
      modifies this
      ensures Valid() && Contents() == Applied(old(Contents()), PutIf(task, expected, now))
      ensures r == if task.id == [] then Err(Validation)
                   else if RevisionOf(old(Contents()), task.id) != expected then Ok(Conflict)
                   else if Attempt(old(Contents()), PutIf(task, expected, now)).Some? then Ok(Updated)
                   else Err(Internal)
    {
      if task.id == [] {
        return Err(Validation);
      }
      if task.id !in indices {
        if expected != 0 {
          return Ok(Conflict);
        }
        AppendTask(task, now);
        return Ok(Updated);
      }
      if revisions[indices[task.id]] != expected {
        return Ok(Conflict);
      }
      var ok := Overwrite(indices[task.id], task, now);
      return if ok then Ok(Updated) else Err(Internal);
    }

    method Get(id: Bytes) returns (r: Result<Task, Error>)
      requires Valid()
      ensures r == if id == [] then Err(Validation)
                   else if id !in Contents() then Err(NotFound)
                   else Ok(Contents()[id].task)
    {
      if id == [] {
        return Err(Validation);
      }
      if id !in indices {
        return Err(NotFound);
      }
      return Ok(tasks[indices[id]]);
    }

    method CountMatching(request: Request) returns (total: nat)
      requires Valid()
      ensures total == Total(Contents(), request)
    {
      total := 0;
      assert Indexed(tasks, indices);
      MatchingIdsAreCounted(Value(), request);
      hide Valid, Total, Contents;
      for i := 0 to |tasks|
        invariant total == |MatchingIds(tasks[..i], request)|
      {
        MatchingIdsStep(tasks, indices, i, request);
        if Matches(tasks[i], request) {
          total := total + 1;
        }
      }
      assert tasks[..|tasks|] == tasks;
    }

    method List(request: Request) returns (r: Result<Response, Error>)
      requires Valid()
      ensures r.Err? ==> Boundary(request.pageToken) == Err(InvalidCursor) && r.error == InvalidCursor
      ensures r.Ok? ==>
        && Boundary(request.pageToken).Ok?
        && IsPage(r.value, order, Contents(), request, Boundary(request.pageToken).value)
    {
      var parsed := ParseListPageToken(request.pageToken);
      if parsed.Err? {
        return Err(parsed.error);
      }
      ghost var m := Contents();
      var filtered := request.contextId != [] || request.statusFilter.Some? || request.statusAfter.Some?;
      var total := 0;
      if filtered && request.includeTotalSize {
        total := CountMatching(request);
      } else if request.includeTotalSize {
        total := |tasks|;
        EveryTaskCounts(Value(), request);
      }
      var page, cursors, token := CollectPage(request, parsed.value);
      return Ok(Response(page, |page|, total, token, cursors));
    }

    /** The loop over the ordered set, from just after the boundary. */
    method CollectPage(request: Request, boundary: Option<Cursor>)
      returns (page: seq<Task>, cursors: seq<Cursor>, token: Bytes)
      requires Valid()
      ensures Delivers(page, cursors, token, Candidates(order, Contents(), request, boundary), Contents(), request)
    {
      hide Fits, Entries, UpperBound, Collected, Delivers, Chosen, Matches, Projected, Token;
      var start := UpperBound(order, boundary);
      ghost var m, rest := Contents(), order[start..];
      ListedTasks(Value());
      CollectedNothing(rest, m, request);
      page, cursors, token := [], [], [];
      for it := start to |order|
        invariant Collected(page, cursors, rest, it - start, m, request)
      {
        assert order[it] == rest[it - start] && order[it] in order;
        var task := tasks[indices[order[it].taskId]];
        if !Matches(task, request) {
          CollectedStep(page, cursors, rest, it - start, m, request);
          continue;
        }
        if request.pageSize != 0 && |page| == request.pageSize {
          CollectedFull(page, cursors, rest, it - start, m, request);
          token := EncodeListPageToken(cursors[|cursors| - 1]);
          return;
        }
        CollectedStep(page, cursors, rest, it - start, m, request);
        page := page + [Projected(task, request.includeArtifacts, request.historyLength)];
        cursors := cursors + [order[it]];
      }
      CollectedAll(page, cursors, rest, m, request);
      token := [];
    }

    method Cancel(id: Bytes, now: int) returns (r: Result<Task, Error>)
      requires Valid() && Int64(now)
      modifies this
      ensures Valid() && Contents() == Applied(old(Contents()), CancelTask(id, now))
      ensures r == if id == [] then Err(Validation)
                   else if id !in old(Contents()) then Err(NotFound)
                   else if IsTerminal(old(Contents())[id].task.status.state) then Err(NotCancelable)
                   else if Attempt(old(Contents()), CancelTask(id, now)).Some? then Ok(Contents()[id].task)
                   else Err(Internal)
    {
      if id == [] {
        return Err(Validation);
      }
      if id !in indices {
        return Err(NotFound);
      }
      var index := indices[id];
      if IsTerminal(tasks[index].status.state) {
        return Err(NotCancelable);
      }
      var task := tasks[index].(status := tasks[index].status.(state := Canceled));
      var ok := Overwrite(index, task, now);
      return if ok then Ok(task) else Err(Internal);
    }

    method AppendTaskHistory(id: Bytes, message: Message, isDuplicate: (seq<Message>, Message) -> bool, now: int)
      returns (r: Result<Task, Error>)
      requires Valid() && Int64(now)
      modifies this
      ensures Valid() && Contents() == Applied(old(Contents()), Append(id, message, isDuplicate, now))
      ensures r == if id == [] then Err(Validation)
                   else if id !in old(Contents()) then Err(NotFound)
                   else if isDuplicate(old(Contents())[id].task.history, message) then Ok(old(Contents())[id].task)
                   else if Attempt(old(Contents()), Append(id, message, isDuplicate, now)).Some?
                   then Ok(Contents()[id].task)
                   else Err(Internal)
    {
      if id == [] {
        return Err(Validation);
      }
      if id !in indices {
        return Err(NotFound);
      }
      var index := indices[id];
      if isDuplicate(tasks[index].history, message) {
        return Ok(tasks[index]);
      }
      var task := tasks[index].(history := tasks[index].history + [message]);
      var ok := Overwrite(index, task, now);
      return if ok then Ok(task) else Err(Internal);
    }
  }
}
