/** The bounded queue that runs a stream's callbacks one after the other on shared workers. */
module SerialDispatch {
  import opened Protocol

  const MAX_TASKS: nat := 256
  const MAX_BYTES: nat := 4 * 1024 * 1024

  datatype Queued<T> = Queued(task: T, bytes: nat)

  datatype Dispatch<T> = Dispatch(tasks: seq<Queued<T>>, pendingBytes: int, scheduled: bool)

  // ----- The sections under the queue's mutex --------------------------------

  predicate Refuses<T>(d: Dispatch<T>, bytes: nat, terminal: bool)
  {
    var bounded := if bytes < MAX_BYTES then bytes else MAX_BYTES;
    !terminal && (|d.tasks| >= MAX_TASKS || d.pendingBytes > MAX_BYTES - bounded)
  }

  function Pushed<T>(d: Dispatch<T>, task: T, bytes: nat): Dispatch<T>
  {
    Dispatch(d.tasks + [Queued(task, bytes)], d.pendingBytes + bytes, true)
  }

  function Popped<T>(d: Dispatch<T>): Dispatch<T>
    requires d.tasks != []
  {
    Dispatch(d.tasks[1..], d.pendingBytes - d.tasks[0].bytes, d.scheduled)
  }

  function Sum<T>(tasks: seq<Queued<T>>): nat
  {
    if tasks == [] then 0 else tasks[0].bytes + Sum(tasks[1..])
  }

  ghost predicate OnlyBytesAt<T>(tasks: seq<Queued<T>>, k: nat)
  {
    k < |tasks| && forall j :: 0 <= j < |tasks| && j != k ==> tasks[j].bytes == 0
  }

  /** A single task of the queue has bytes. */
  ghost predicate OnlyOneWithBytes<T>(tasks: seq<Queued<T>>)
  {
    exists k :: OnlyBytesAt(tasks, k)
  }

  ghost predicate Within<T>(d: Dispatch<T>)
  {
    && d.pendingBytes == Sum(d.tasks)
    && (d.pendingBytes <= MAX_BYTES || OnlyOneWithBytes(d.tasks))
  }

  lemma {:induction false} SumAppends<T>(tasks: seq<Queued<T>>, q: Queued<T>)
    ensures Sum(tasks + [q]) == Sum(tasks) + q.bytes
  {
    if tasks == [] {
      assert tasks + [q] == [q] && Sum([q][1..]) == 0;
    } else {
      SumAppends(tasks[1..], q);
      assert (tasks + [q])[1..] == tasks[1..] + [q];
    }
  }

  lemma {:induction false} EmptySum<T>(tasks: seq<Queued<T>>)
    ensures Sum(tasks) == 0 <==> forall j :: 0 <= j < |tasks| ==> tasks[j].bytes == 0
  {
    if tasks != [] {
      EmptySum(tasks[1..]);
      assert forall j :: 0 < j < |tasks| ==> tasks[j] == tasks[1..][j - 1];
    }
  }

  /** Terminal tasks carry no bytes; an accepted task of more than the limit finds no other bytes queued. */
  lemma PushedWithin<T>(d: Dispatch<T>, task: T, bytes: nat, terminal: bool)
    requires Within(d) && !Refuses(d, bytes, terminal) && (terminal ==> bytes == 0)
    ensures Within(Pushed(d, task, bytes))
  {
    var tasks := Pushed(d, task, bytes).tasks;
    SumAppends(d.tasks, Queued(task, bytes));
    if d.pendingBytes + bytes > MAX_BYTES {
      if d.pendingBytes == 0 {
        EmptySum(d.tasks);
        assert OnlyBytesAt(tasks, |d.tasks|);
      } else {
        var k: nat :| OnlyBytesAt(d.tasks, k);
        assert OnlyBytesAt(tasks, k);
      }
    }
  }

  lemma PoppedWithin<T>(d: Dispatch<T>)
    requires Within(d) && d.tasks != []
    ensures d.tasks[0].bytes <= d.pendingBytes && Within(Popped(d))
  {
    var rest := d.tasks[1..];
    if Sum(rest) > MAX_BYTES {
      var k: nat :| OnlyBytesAt(d.tasks, k);
      EmptySum(rest);
      assert forall j :: 0 <= j < |rest| ==> rest[j] == d.tasks[j + 1];
      assert OnlyBytesAt(rest, k - 1);
    }
  }

  /** A task is refused exactly if 256 are queued, or if bytes are queued and with its own they are more than 4 MiB; a
      terminal task never is. */
  lemma RefusesExactly<T>(d: Dispatch<T>, bytes: nat, terminal: bool)
    requires d.pendingBytes == Sum(d.tasks)
    ensures Refuses(d, bytes, terminal) <==>
      !terminal && (|d.tasks| >= 256 || (Sum(d.tasks) > 0 && Sum(d.tasks) + bytes > 4_194_304))
  {
  }

  // ----- Any number of producers, and the drains they submit ------------------

  /** A drain is a call of the drain loop that was handed to the workers and has not returned: between two tasks, or
      running one. `accepted` and `started` record the tasks in the order of acceptance and of execution. */
  datatype State<T> =
    State(d: Dispatch<T>, drains: seq<Option<T>>, accepted: seq<T>, started: seq<T>, terminals: nat)

  datatype Step<T> = Enqueue(task: T, bytes: nat, terminal: bool) | Drain(index: nat)

  ghost predicate Enabled<T>(s: State<T>, step: Step<T>)
  {
    match step
    case Enqueue(_, bytes, terminal) => terminal ==> bytes == 0
    case Drain(i) => i < |s.drains|
  }

  ghost function Apply<T>(s: State<T>, step: Step<T>): State<T>
    requires Enabled(s, step)
  {
    if step.Enqueue? then
      if Refuses(s.d, step.bytes, step.terminal) then s
      else s.(d := Pushed(s.d, step.task, step.bytes),
              drains := if s.d.scheduled then s.drains else s.drains + [None],
              accepted := s.accepted + [step.task],
              terminals := s.terminals + (if step.terminal then 1 else 0))
    else if s.drains[step.index].Some? then s.(drains := s.drains[step.index := None])
    else if s.d.tasks == [] then
      s.(d := s.d.(scheduled := false), drains := s.drains[..step.index] + s.drains[step.index + 1..])
    else
      var task := s.d.tasks[0].task;
      s.(d := Popped(s.d), drains := s.drains[step.index := Some(task)], started := s.started + [task])
  }

  function TasksOf<T>(tasks: seq<Queued<T>>): seq<T>
  {
    seq(|tasks|, i requires 0 <= i < |tasks| => tasks[i].task)
  }

  function Initial<T>(): State<T>
  {
    State(Dispatch([], 0, false), [], [], [], 0)
  }

  ghost predicate Inv<T>(s: State<T>)
  {
    && |s.drains| == (if s.d.scheduled then 1 else 0)
    && (s.d.tasks != [] ==> s.d.scheduled)
    && s.accepted == s.started + TasksOf(s.d.tasks)
    && Within(s.d)
    && |s.d.tasks| <= MAX_TASKS + s.terminals
  }

  ghost predicate Reaches<T(!new)>(s: State<T>, steps: seq<Step<T>>, s': State<T>)
    decreases |steps|
  {
    if steps == [] then s' == s
    else Enabled(s, steps[0]) && Reaches(Apply(s, steps[0]), steps[1..], s')
  }

  lemma StepKeeps<T>(s: State<T>, step: Step<T>)
    requires Inv(s) && Enabled(s, step)
    ensures Inv(Apply(s, step))
  {
    hide Within;
    if step.Enqueue? {
      if !Refuses(s.d, step.bytes, step.terminal) {
        PushedWithin(s.d, step.task, step.bytes, step.terminal);
        assert TasksOf(Pushed(s.d, step.task, step.bytes).tasks) == TasksOf(s.d.tasks) + [step.task];
      }
    } else if s.drains[step.index].None? {
      if s.d.tasks == [] {
        WithinIgnoresSchedule(s.d);
      } else {
        PoppedWithin(s.d);
        assert TasksOf(s.d.tasks) == [s.d.tasks[0].task] + TasksOf(s.d.tasks[1..]);
      }
    }
  }

  lemma WithinIgnoresSchedule<T>(d: Dispatch<T>)
    requires Within(d)
    ensures Within(d.(scheduled := false))
  {
  }

  /** Whatever producers and workers do: at most one drain is outstanding, and one exactly while `scheduled` is set; a
      queue with tasks is scheduled; tasks start once each, in the order they were accepted; and the bytes queued stay
      within the limit unless a single task holds them all. */
  lemma {:induction false} DispatchIsSerial<T(!new)>(s: State<T>, steps: seq<Step<T>>, s': State<T>)
    requires Inv(s) && Reaches(s, steps, s')
    ensures |s'.drains| <= 1 && (|s'.drains| == 1 <==> s'.d.scheduled)
    ensures s'.d.tasks != [] ==> s'.d.scheduled
    ensures s'.accepted == s'.started + TasksOf(s'.d.tasks)
    ensures s'.d.pendingBytes == Sum(s'.d.tasks)
    ensures s'.d.pendingBytes <= MAX_BYTES || OnlyOneWithBytes(s'.d.tasks)
    ensures |s'.d.tasks| <= MAX_TASKS + s'.terminals
    decreases |steps|
  {
    if steps != [] {
      StepKeeps(s, steps[0]);
      DispatchIsSerial(Apply(s, steps[0]), steps[1..], s');
    }
  }

  lemma InitialInv<T>()
    ensures Inv(Initial<T>())
  {
  }

  // ----- The queue as an object ----------------------------------------------

  class SerialStreamDispatch<T(0)> {
    var tasks: seq<Queued<T>>
    var pendingBytes: nat
    var scheduled: bool

    ghost function Value(): Dispatch<T>
      reads this
    {
      Dispatch(tasks, pendingBytes, scheduled)
    }

    constructor ()
      ensures Value() == Initial<T>().d
    {
      tasks, pendingBytes, scheduled := [], 0, false;
    }

    /** Returns whether the task was taken, and whether a drain is to be submitted. */
    method Enqueue(task: T, bytes: nat, terminal: bool) returns (accepted: bool, schedule: bool)
      requires Within(Value()) && (terminal ==> bytes == 0)
      modifies this
      ensures Within(Value())
      ensures accepted == !Refuses(old(Value()), bytes, terminal)
      ensures accepted <==>
        terminal || (|old(tasks)| < MAX_TASKS && (old(pendingBytes) == 0 || old(pendingBytes) + bytes <= MAX_BYTES))
      ensures schedule == (accepted && !old(scheduled))
      ensures Value() == if accepted then Pushed(old(Value()), task, bytes) else old(Value())
    {
      var bounded := if bytes < MAX_BYTES then bytes else MAX_BYTES;
      if !terminal && (|tasks| >= MAX_TASKS || pendingBytes > MAX_BYTES - bounded) {
        return false, false;
      }
      PushedWithin(Value(), task, bytes, terminal);
      tasks := tasks + [Queued(task, bytes)];
      pendingBytes := pendingBytes + bytes;
      schedule := !scheduled;
      scheduled := true;
      return true, schedule;
    }

    /** The locked part of the drain loop: the next task to run, or the end of the drain. */
    method Next() returns (task: Option<T>)
      requires Within(Value())
      modifies this
      ensures Within(Value())
      ensures old(tasks) == [] ==> task == None && Value() == old(Value()).(scheduled := false)
      ensures old(tasks) != [] ==>
        old(tasks)[0].bytes <= old(pendingBytes) && task == Some(old(tasks)[0].task) && Value() == Popped(old(Value()))
    {
      if tasks == [] {
        WithinIgnoresSchedule(Value());
        scheduled := false;
        return None;
      }
      PoppedWithin(Value());
      var queued := tasks[0];
      tasks := tasks[1..];
      pendingBytes := pendingBytes - queued.bytes;
      return Some(queued.task);
    }
  }
}
