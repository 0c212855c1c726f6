/** The in-memory task store: five containers kept in step, and the map from id to entry they stand for. */
module TaskStore {
  import opened Protocol
  import opened ListTasks

  const REVISIONS: nat := 0x1_0000_0000_0000_0000

  datatype Entry = Entry(task: Task, revision: nat, updatedAt: int)

  datatype Snapshot = Snapshot(task: Task, revision: nat)

  datatype WriteResult = Updated | Conflict

  // ----- The ordered set -----------------------------------------------------

  ghost predicate Sorted(order: seq<Cursor>)
  {
    forall i, j :: 0 <= i < j < |order| ==> Precedes(order[i], order[j])
  }

  function Insert(order: seq<Cursor>, c: Cursor): seq<Cursor>
  {
    if order == [] || Precedes(c, order[0]) then [c] + order else [order[0]] + Insert(order[1..], c)
  }

  function Extract(order: seq<Cursor>, c: Cursor): seq<Cursor>
  {
    if order == [] then [] else if order[0] == c then order[1..] else [order[0]] + Extract(order[1..], c)
  }

  lemma {:induction false} InsertSorts(order: seq<Cursor>, c: Cursor)
    requires Sorted(order) && c !in order
    ensures Sorted(Insert(order, c)) && |Insert(order, c)| == |order| + 1
    ensures forall x :: x in Insert(order, c) <==> x in order || x == c
  {
    if order != [] {
      forall i | 0 <= i < |order| && Precedes(c, order[0])
        ensures Precedes(c, order[i])
      {
        if i > 0 { PrecedesTransitive(c, order[0], order[i]); }
      }
      if !Precedes(c, order[0]) {
        PrecedesTotal(c, order[0]);
        var rest := order[1..];
        InsertSorts(rest, c);
        assert forall x :: x in Insert(rest, c) ==> Precedes(order[0], x);
        assert forall x :: x in order <==> x == order[0] || x in rest;
      }
    }
  }

  lemma {:induction false} ExtractSorted(order: seq<Cursor>, c: Cursor)
    requires Sorted(order) && c in order
    ensures Sorted(Extract(order, c)) && |Extract(order, c)| == |order| - 1
    ensures forall x :: x in Extract(order, c) <==> x in order && x != c
  {
    PrecedesIrreflexive(c);
    var rest := order[1..];
    assert forall x :: x in order <==> x == order[0] || x in rest;
    if order[0] == c {
      assert forall i :: 0 <= i < |rest| ==> Precedes(c, rest[i]);
    } else {
      ExtractSorted(rest, c);
      var rest' := Extract(rest, c);
      forall i | 0 <= i < |rest'| ensures Precedes(order[0], rest'[i]) { assert rest'[i] in rest; }
    }
  }

  // ----- What the containers stand for ---------------------------------------

  datatype Rep = Rep(tasks: seq<Task>, revisions: seq<nat>, times: seq<int>,
                     indices: map<Bytes, nat>, order: seq<Cursor>)

  function CursorOf(rep: Rep, i: nat): Cursor
    requires i < |rep.tasks| == |rep.times|
  {
    Cursor(rep.times[i], rep.tasks[i].id)
  }

  /** The index map inverts the vector. */
  ghost predicate Indexed(tasks: seq<Task>, indices: map<Bytes, nat>)
  {
    && (forall id :: id in indices ==> indices[id] < |tasks| && tasks[indices[id]].id == id)
    && (forall i :: 0 <= i < |tasks| ==> tasks[i].id in indices && indices[tasks[i].id] == i)
  }

  /** An entry was written at most once per tick of its update time, so its revision cannot wrap. */
  ghost predicate Stamped(rep: Rep)
  {
    && |rep.tasks| == |rep.revisions| == |rep.times|
    && (forall i :: 0 <= i < |rep.tasks| ==>
          ValidCursor(CursorOf(rep, i)) && 1 <= rep.revisions[i] <= rep.times[i] + 1)
  }

  /** The ordered set lists exactly the current cursors. */
  ghost predicate Ordered(rep: Rep)
    requires |rep.tasks| == |rep.times|
  {
    && Sorted(rep.order)
    && (forall c :: c in rep.order ==>
          c.taskId in rep.indices && rep.indices[c.taskId] < |rep.times|
          && rep.times[rep.indices[c.taskId]] == c.updatedAt)
    && (forall i :: 0 <= i < |rep.tasks| ==> CursorOf(rep, i) in rep.order)
  }

  /** The containers agree. */
  ghost predicate Fits(rep: Rep)
  {
    Stamped(rep) && Indexed(rep.tasks, rep.indices) && Ordered(rep)
  }

  ghost function Entries(rep: Rep): map<Bytes, Entry>
    requires Fits(rep)
  {
    map id | id in rep.indices ::
      Entry(rep.tasks[rep.indices[id]], rep.revisions[rep.indices[id]], rep.times[rep.indices[id]])
  }

  function Max(a: int, b: int): int
  {
    if a >= b then a else b
  }

  /** One successful write: the entry's time strictly advances and its revision goes up by one; a new entry starts at
      revision 1 and at no negative time. `None` when the time of an existing entry is exhausted. */
  function Written(m: map<Bytes, Entry>, task: Task, now: int): Option<map<Bytes, Entry>>
  {
    if task.id !in m then Some(m[task.id := Entry(task, 1, Max(0, now))])
    else
      var e := m[task.id];
      if e.updatedAt == MAX_TIME then None
      else Some(m[task.id := Entry(task, e.revision + 1, Max(e.updatedAt + 1, now))])
  }

  /** The containers after writing over slot `i`. */
  function Overwritten(rep: Rep, i: nat, task: Task, time: int): Rep
    requires i < |rep.tasks| == |rep.revisions| == |rep.times|
  {
    Rep(rep.tasks[i := task], rep.revisions[i := (rep.revisions[i] + 1) % REVISIONS], rep.times[i := time], rep.indices,
        Insert(Extract(rep.order, CursorOf(rep, i)), Cursor(time, rep.tasks[i].id)))
  }

  lemma OverwrittenFits(rep: Rep, i: nat, task: Task, time: int)
    requires Fits(rep) && i < |rep.tasks| && task.id == rep.tasks[i].id && rep.times[i] < time <= MAX_TIME
    ensures Fits(Overwritten(rep, i, task, time))
    ensures Entries(Overwritten(rep, i, task, time)) ==
            Entries(rep)[task.id := Entry(task, rep.revisions[i] + 1, time)]
  {
    var rep' := Overwritten(rep, i, task, time);
    OverwrittenStamps(rep, i, task, time);
    OverwrittenOrder(rep, i, task, time);
    hide Stamped, Ordered, Overwritten, Indexed;
    forall id | id in rep.indices
      ensures Entries(rep')[id] == Entries(rep)[task.id := Entry(task, rep.revisions[i] + 1, time)][id]
    {
      SlotsAreDistinct(rep, i, id);
    }
  }

  lemma SlotIsEntry(rep: Rep, i: nat)
    requires Fits(rep) && i < |rep.tasks|
    ensures |rep.times| == |rep.revisions| == |rep.tasks| && ValidCursor(CursorOf(rep, i))
    ensures rep.tasks[i].id in Entries(rep)
    ensures Entries(rep)[rep.tasks[i].id] == Entry(rep.tasks[i], rep.revisions[i], rep.times[i])
  {
    hide Ordered;
  }

  /** Writing over a stored task's slot is a write of that task, and fails only when its time is exhausted. */
  lemma OverwrittenIsWritten(rep: Rep, i: nat, task: Task, now: int)
    requires Fits(rep) && i < |rep.tasks| && task.id == rep.tasks[i].id && now <= MAX_TIME
    ensures |rep.times| == |rep.revisions| == |rep.tasks|
    ensures if rep.times[i] == MAX_TIME then Written(Entries(rep), task, now) == None
            else
              var rep' := Overwritten(rep, i, task, Max(rep.times[i] + 1, now));
              Fits(rep') && Written(Entries(rep), task, now) == Some(Entries(rep'))
  {
    hide Fits, Entries;
    SlotIsEntry(rep, i);
    if rep.times[i] != MAX_TIME { OverwrittenFits(rep, i, task, Max(rep.times[i] + 1, now)); }
  }

  lemma SlotsAreDistinct(rep: Rep, i: nat, id: Bytes)
    requires Indexed(rep.tasks, rep.indices) && i < |rep.tasks| && id in rep.indices
    ensures rep.indices[id] == i <==> id == rep.tasks[i].id
  {
  }

  lemma OverwrittenStamps(rep: Rep, i: nat, task: Task, time: int)
    requires Stamped(rep) && Indexed(rep.tasks, rep.indices)
    requires i < |rep.tasks| && task.id == rep.tasks[i].id && rep.times[i] < time <= MAX_TIME
    ensures var rep' := Overwritten(rep, i, task, time);
      && Stamped(rep') && Indexed(rep'.tasks, rep'.indices) && rep'.indices == rep.indices
      && rep'.revisions == rep.revisions[i := rep.revisions[i] + 1]
      && rep'.tasks == rep.tasks[i := task] && rep'.times == rep.times[i := time]
  {
    var r := rep.revisions[i] + 1;
    assert ValidCursor(CursorOf(rep, i));
    assert r % REVISIONS == r;
    var rep' := Overwritten(rep, i, task, time);
    forall j | 0 <= j < |rep.tasks|
      ensures ValidCursor(CursorOf(rep', j)) && 1 <= rep'.revisions[j] <= rep'.times[j] + 1
    {
      assert ValidCursor(CursorOf(rep, j));
    }
  }

  lemma OverwrittenOrder(rep: Rep, i: nat, task: Task, time: int)
    requires Stamped(rep) && Indexed(rep.tasks, rep.indices) && Ordered(rep)
    requires i < |rep.tasks| && task.id == rep.tasks[i].id && rep.times[i] < time
    ensures Ordered(Overwritten(rep, i, task, time))
  {
    var rep' := Overwritten(rep, i, task, time);
    var before, after := CursorOf(rep, i), Cursor(time, task.id);
    forall j | 0 <= j < |rep.tasks| && j != i
      ensures CursorOf(rep', j) == CursorOf(rep, j) && rep.tasks[j].id != task.id
    {
      assert rep.indices[rep.tasks[j].id] == j && rep.indices[task.id] == i;
    }
    hide Stamped, Indexed;
    ExtractSorted(rep.order, before);
    InsertSorts(Extract(rep.order, before), after);
    assert CursorOf(rep', i) == after;
  }

  /** The containers after appending a new task. */
  function Appended(rep: Rep, task: Task, time: int): Rep
  {
    Rep(rep.tasks + [task], rep.revisions + [1], rep.times + [time], rep.indices[task.id := |rep.tasks|],
        Insert(rep.order, Cursor(time, task.id)))
  }

  lemma AppendedFits(rep: Rep, task: Task, time: int)
    requires Fits(rep) && task.id !in rep.indices && task.id != [] && 0 <= time <= MAX_TIME
    ensures Fits(Appended(rep, task, time))
    ensures Entries(Appended(rep, task, time)) == Entries(rep)[task.id := Entry(task, 1, time)]
  {
    var rep' := Appended(rep, task, time);
    hide Ordered;
    AppendedStamps(rep, task, time);
    AppendedOrder(rep, task, time);
  }

  lemma AppendedStamps(rep: Rep, task: Task, time: int)
    requires Stamped(rep) && Indexed(rep.tasks, rep.indices)
    requires task.id !in rep.indices && task.id != [] && 0 <= time <= MAX_TIME
    ensures var rep' := Appended(rep, task, time); Stamped(rep') && Indexed(rep'.tasks, rep'.indices)
  {
    var rep' := Appended(rep, task, time);
    forall j | 0 <= j < |rep.tasks|
      ensures ValidCursor(CursorOf(rep', j)) && 1 <= rep'.revisions[j] <= rep'.times[j] + 1
    {
      assert CursorOf(rep', j) == CursorOf(rep, j);
    }
  }

  lemma AppendedOrder(rep: Rep, task: Task, time: int)
    requires |rep.tasks| == |rep.times| && Indexed(rep.tasks, rep.indices) && Ordered(rep) && task.id !in rep.indices
    ensures Ordered(Appended(rep, task, time))
  {
    var rep' := Appended(rep, task, time);
    var added := Cursor(time, task.id);
    forall j | 0 <= j < |rep.tasks|
      ensures CursorOf(rep', j) == CursorOf(rep, j) && rep.tasks[j].id != task.id
    {
    }
    hide Indexed;
    InsertSorts(rep.order, added);
    assert CursorOf(rep', |rep.tasks|) == added;
  }
}
