/** Cancelling a client stream: the cancel callback, the registration it races with, and the observer it silences. One
    step is one locked section, one wait that ends, or one call into user code. */
module CancelHandshake {
  // ----- State ---------------------------------------------------------------

  /** Callbacks run on the dispatch executor, or the whole session on a thread that the handle owns. */
  datatype Mode = Executor | OwnedWorker

  datatype Call = OnEvent | OnError | OnCompleted

  /** A metadata or chunk callback, or the completion callback. */
  datatype Kind = Delivery | Completion

  /** The thread that serves the stream: between callbacks, inside one, past the check that cancellation was not
      requested and before the observer call, inside that call, and past the call that ends the trace. */
  datatype Runner =
    | Outside
    | Inside(kind: Kind)
    | Committed(kind: Kind, call: Call)
    | Calling(kind: Kind, call: Call)
    | Finishing

  datatype Registration = Unregistered | Owing | Done

  datatype CancelPc = Starting | CallingBack | Joining | Waiting | Returned

  /** `inside`: the caller's thread is running a stream callback. `owes`: it has copied the callback to call. `joins`:
      it took the worker thread. */
  datatype Canceller = Canceller(at: CancelPc, inside: bool, owes: bool, joins: bool)

  /** `scope` is whether a callback thread id is set; `entered` whether the completion callback was entered; `trace` the
      observer calls begun and `runs` the calls of the cancel callback. */
  datatype State = State(
    mode: Mode,
    requested: bool,
    stored: bool,
    registration: Registration,
    runs: nat,
    joinable: bool,
    runner: Runner,
    scope: bool,
    entered: bool,
    left: bool,
    trace: seq<Call>,
    cancellers: map<nat, Canceller>)

  // ----- Steps ---------------------------------------------------------------

  datatype Step =
    | Register
    | RegisterCall
    | StartCancel(id: nat, inside: bool)
    | CancelLock(id: nat, onWorker: bool)
    | CancelCallBack(id: nat)
    | CancelJoin(id: nat)
    | CancelWait(id: nat)
    | Enter(kind: Kind)
    | Check(call: Call)
    | Begin
    | End
    | Leave

  ghost predicate Pending(s: State, id: nat, at: CancelPc)
  {
    id in s.cancellers && s.cancellers[id].at == at
  }

  /** Callbacks of a stream come one at a time, and none after completion. A delivery only makes events. */
  ghost predicate Enabled(s: State, step: Step)
  {
    match step
    case Register => s.registration.Unregistered?
    case RegisterCall => s.registration.Owing?
    case StartCancel(id, _) => id !in s.cancellers
    case CancelLock(id, onWorker) => Pending(s, id, Starting) && (onWorker ==> s.cancellers[id].inside)
    case CancelCallBack(id) => Pending(s, id, CallingBack)
    case CancelJoin(id) => Pending(s, id, Joining) && (s.cancellers[id].joins ==> s.left)
    case CancelWait(id) => Pending(s, id, Waiting) && (s.mode.Executor? ==> s.cancellers[id].inside || !s.scope)
    case Enter(kind) =>
      (s.runner.Outside? || (s.mode.OwnedWorker? && s.runner == Inside(Delivery))) && !s.entered && !s.left
    case Check(call) => s.runner.Inside? && (s.runner.kind.Delivery? ==> call.OnEvent?)
    case Begin => s.runner.Committed?
    case End => s.runner.Calling?
    case Leave =>
      && (s.runner.Inside? || s.runner.Finishing?)
      && (s.mode.OwnedWorker? ==> s.runner != Inside(Delivery))
  }

  ghost function SetCanceller(s: State, id: nat, c: Canceller): State
  {
    s.(cancellers := s.cancellers[id := c])
  }

  /** The section of `Cancel` under the cancellation mutex. */
  ghost function LockSection(s: State, id: nat, onWorker: bool): State
    requires id in s.cancellers
  {
    var c := s.cancellers[id].(
      at := CallingBack, owes := !s.requested && s.stored, joins := s.joinable && !onWorker);
    s.(requested := true, joinable := s.joinable && onWorker, cancellers := s.cancellers[id := c])
  }

  ghost function Apply(s: State, step: Step): State
    requires Enabled(s, step)
  {
    match step
    case Register => if s.requested then s.(registration := Owing) else s.(registration := Done, stored := true)
    case RegisterCall => s.(registration := Done, runs := s.runs + 1)
    case StartCancel(id, inside) => SetCanceller(s, id, Canceller(Starting, inside, false, false))
    case CancelLock(id, onWorker) => LockSection(s, id, onWorker)
    case CancelCallBack(id) =>
      SetCanceller(s, id, s.cancellers[id].(at := Joining, owes := false))
        .(runs := if s.cancellers[id].owes then s.runs + 1 else s.runs)
    case CancelJoin(id) => SetCanceller(s, id, s.cancellers[id].(at := Waiting))
    case CancelWait(id) => SetCanceller(s, id, s.cancellers[id].(at := Returned))
    case Enter(kind) => s.(runner := Inside(kind), scope := s.mode.Executor?, entered := s.entered || kind.Completion?)
    case Check(call) =>
      s.(runner := if !s.requested then Committed(s.runner.kind, call)
                   else if call.OnEvent? then s.runner else Finishing)
    case Begin => s.(runner := Calling(s.runner.kind, s.runner.call), trace := s.trace + [s.runner.call])
    case End => s.(runner := if s.runner.call.OnEvent? then Inside(s.runner.kind) else Finishing)
    case Leave => s.(runner := Outside, scope := false, left := s.left || s.mode.OwnedWorker?)
  }

  ghost predicate Initial(s: State)
  {
    && (s.mode.Executor? ==> !s.joinable && s.runner == Outside)
    && (s.mode.OwnedWorker? ==> s.joinable && s.runner == Inside(Delivery))
    && s == State(s.mode, false, false, Unregistered, 0, s.joinable, s.runner, false, false, false, [], map[])
  }

  ghost predicate Reaches(s: State, steps: seq<Step>, s': State)
    decreases |steps|
  {
    if steps == [] then s' == s
    else Enabled(s, steps[0]) && Reaches(Apply(s, steps[0]), steps[1..], s')
  }

  ghost predicate Reachable(s: State)
  {
    exists start, steps :: Initial(start) && Reaches(start, steps, s)
  }

  // ----- Invariants ----------------------------------------------------------

  predicate Owes(s: State, id: nat)
  {
    id in s.cancellers && s.cancellers[id].owes
  }

  /** The callback is owed or was run once exactly when it was registered and cancellation was requested; whoever came
      second owes it. */
  ghost predicate OneCallback(s: State)
  {
    && (s.stored ==> s.registration.Done?)
    && (s.registration.Owing? ==> s.requested)
    && (s.registration.Done? && !s.requested ==> s.stored)
    && (forall id :: Owes(s, id) ==> s.requested && s.cancellers[id].at.CallingBack?)
    && (forall id, other :: Owes(s, id) && Owes(s, other) ==> id == other)
    && (s.registration.Unregistered? || !s.requested ==> s.runs == 0 && forall id :: !Owes(s, id))
    && (s.requested && s.registration.Owing? ==> s.runs == 0 && forall id :: !Owes(s, id))
    && (s.requested && s.registration.Done? ==> s.runs <= 1 && (s.runs == 0 <==> exists id :: Owes(s, id)))
  }

  predicate PastLock(at: CancelPc)
  {
    !at.Starting?
  }

  predicate PastJoin(at: CancelPc)
  {
    at.Waiting? || at.Returned?
  }

  /** Returned from a call on the executor's handle, made outside stream callbacks. */
  predicate Waited(s: State, c: Canceller)
  {
    s.mode.Executor? && c.at.Returned? && !c.inside
  }

  /** Cancellation was requested and no observer call is under way or decided on. */
  predicate Quiet(s: State)
  {
    s.requested && !s.runner.Committed? && !s.runner.Calling?
  }

  /** A returned `Cancel` that waited has silenced the observer. */
  ghost predicate Silenced(s: State)
  {
    && (s.mode.Executor? ==> (s.scope <==> !s.runner.Outside?) && !s.joinable && !s.left)
    && (s.mode.OwnedWorker? ==> !s.scope && (s.left <==> s.runner.Outside?))
    && (forall id :: id in s.cancellers && PastLock(s.cancellers[id].at) ==> s.requested)
    && (forall id :: id in s.cancellers && s.cancellers[id].joins ==> s.mode.OwnedWorker?)
    && (forall id :: id in s.cancellers && s.cancellers[id].joins && PastJoin(s.cancellers[id].at) ==> s.left)
    && (forall id :: id in s.cancellers && Waited(s, s.cancellers[id]) ==> Quiet(s))
  }

  predicate IsEnd(call: Call)
  {
    !call.OnEvent?
  }

  /** The observer has seen events, and at most one error or completion after them, made by the completion callback. */
  ghost predicate Shaped(s: State)
  {
    && (forall i :: 0 <= i < |s.trace| && IsEnd(s.trace[i]) ==> i == |s.trace| - 1)
    && (s.trace != [] && IsEnd(s.trace[|s.trace| - 1]) ==>
          s.entered && (s.runner.Outside? || s.runner.Finishing? || (s.runner.Calling? && IsEnd(s.runner.call))))
    && ((s.runner.Committed? || s.runner.Calling?) && s.runner.kind.Delivery? ==> s.runner.call.OnEvent?)
    && (s.entered ==> s.runner.Outside? || s.runner.Finishing? || s.runner.kind.Completion?)
    && (!s.entered ==> s.runner.Outside? || s.runner.Finishing? || s.runner.kind.Delivery?)
    && (s.runner.Finishing? ==> s.entered)
  }

  ghost predicate Inv(s: State)
  {
    OneCallback(s) && Silenced(s) && Shaped(s)
  }

  lemma StepOneCallback(s: State, step: Step)
    requires OneCallback(s) && Enabled(s, step)
    ensures OneCallback(Apply(s, step))
  {
    var s' := Apply(s, step);
    if step.CancelLock? {
      LockOneCallback(s, step.id, step.onWorker);
    } else if step.CancelCallBack? {
      CallBackOnce(s, step.id);
    } else {
      assert forall id :: Owes(s', id) <==> Owes(s, id);
    }
  }

  lemma LockOneCallback(s: State, id: nat, onWorker: bool)
    requires OneCallback(s) && Pending(s, id, Starting)
    ensures OneCallback(LockSection(s, id, onWorker))
  {
    var s' := LockSection(s, id, onWorker);
    assert !Owes(s, id);
    assert forall other :: other != id ==> (Owes(s', other) <==> Owes(s, other));
    assert Owes(s', id) <==> !s.requested && s.stored;
  }

  lemma CallBackOnce(s: State, id: nat)
    requires OneCallback(s) && Pending(s, id, CallingBack)
    ensures OneCallback(Apply(s, CancelCallBack(id)))
  {
    var s' := Apply(s, CancelCallBack(id));
    assert s.cancellers[id].owes <==> Owes(s, id);
    assert forall other :: Owes(s', other) <==> Owes(s, other) && other != id;
  }

  lemma StepSilenced(s: State, step: Step)
    requires Silenced(s) && Enabled(s, step)
    ensures Silenced(Apply(s, step))
  {
  }

  lemma StepShaped(s: State, step: Step)
    requires Shaped(s) && Enabled(s, step)
    ensures Shaped(Apply(s, step))
  {
  }

  lemma {:induction false} RunKeeps(s: State, steps: seq<Step>, s': State)
    requires Inv(s) && Reaches(s, steps, s')
    ensures Inv(s')
    decreases |steps|
  {
    hide OneCallback, Silenced, Shaped, Enabled, Apply;
    if steps != [] {
      StepOneCallback(s, steps[0]);
      StepSilenced(s, steps[0]);
      StepShaped(s, steps[0]);
      RunKeeps(Apply(s, steps[0]), steps[1..], s');
    }
  }

  lemma ReachableInv(s: State)
    requires Reachable(s)
    ensures Inv(s)
  {
    var start, steps :| Initial(start) && Reaches(start, steps, s);
    assert Inv(start);
    hide Inv, Initial, Reaches;
    RunKeeps(start, steps, s);
  }

  // ----- Theorems ------------------------------------------------------------

  ghost predicate AllReturned(s: State)
  {
    && s.registration.Done? && s.cancellers != map[]
    && forall id :: id in s.cancellers ==> s.cancellers[id].at.Returned?
  }

  /** The registration and the cancels, in whatever order: the callback never runs twice, and has run once when the
      registration and every cancel begun have returned, at least one of them. */
  lemma CallbackRunsExactlyOnce(s: State)
    requires Reachable(s)
    ensures s.runs <= 1
    ensures AllReturned(s) ==> s.runs == 1
  {
    ReachableInv(s);
    if AllReturned(s) {
      var id :| id in s.cancellers;
      assert PastLock(s.cancellers[id].at);
    }
  }

  /** Every observer trace is events followed by at most one error or completion. */
  lemma TraceEndsAtMostOnce(s: State, i: nat, j: nat)
    requires Reachable(s) && i < j < |s.trace|
    ensures s.trace[i] == OnEvent
  {
    ReachableInv(s);
    assert !IsEnd(s.trace[i]);
  }

  lemma StepKeepsQuiet(s: State, step: Step)
    requires Quiet(s) && Enabled(s, step)
    ensures Quiet(Apply(s, step)) && Apply(s, step).trace == s.trace
  {
  }

  lemma {:induction false} QuietIsFinal(s: State, steps: seq<Step>, s': State)
    requires Quiet(s) && Reaches(s, steps, s')
    ensures Quiet(s') && s'.trace == s.trace
    decreases |steps|
  {
    hide Enabled, Apply;
    if steps != [] {
      StepKeepsQuiet(s, steps[0]);
      QuietIsFinal(Apply(s, steps[0]), steps[1..], s');
    }
  }

  /** The observer is in a call, or will be in one of the state's futures. */
  ghost predicate StillCalled(s: State)
  {
    exists steps, s' :: Reaches(s, steps, s') && s'.runner.Calling?
  }

  /** Once cancellation is requested, the observer can still be called exactly when a call is under way or was decided
      on before: there is no other way in. */
  lemma QuietIffNeverCalledAgain(s: State)
    requires s.requested
    ensures Quiet(s) <==> !StillCalled(s)
  {
    if Quiet(s) {
      forall steps, s' | Reaches(s, steps, s') ensures !s'.runner.Calling? { QuietIsFinal(s, steps, s'); }
    } else if s.runner.Calling? {
      assert Reaches(s, [], s);
    } else {
      var s' := Apply(s, Begin);
      assert [Begin][1..] == [];
      assert Reaches(s', [], s') && Reaches(s, [Begin], s');
    }
  }

  /** The call waits: for the running callback, outside stream callbacks, or for the worker it took. */
  predicate Waits(mode: Mode, c: Canceller)
  {
    if mode.Executor? then !c.inside else c.joins
  }

  /** On the executor: after `Cancel` returned on a thread outside stream callbacks, the observer is not in a call and
      is never called again. With a worker of its own, that holds of the call that took and joined the worker. */
  lemma CancelSilencesTheObserver(s: State, id: nat, steps: seq<Step>, s': State)
    requires Reachable(s) && id in s.cancellers && s.cancellers[id].at.Returned? && Waits(s.mode, s.cancellers[id])
    requires Reaches(s, steps, s')
    ensures s'.trace == s.trace && !s'.runner.Calling?
  {
    ReachableInv(s);
    assert PastLock(s.cancellers[id].at) && PastJoin(s.cancellers[id].at);
    if s.mode.Executor? { assert Waited(s, s.cancellers[id]); }
    assert Quiet(s);
    QuietIsFinal(s, steps, s');
  }

  lemma {:induction false} RunExtends(s: State, steps: seq<Step>, mid: State, step: Step)
    requires Reaches(s, steps, mid) && Enabled(mid, step)
    ensures Reaches(s, steps + [step], Apply(mid, step))
    decreases |steps|
  {
    hide Enabled, Apply;
    if steps == [] {
      assert steps + [step] == [step] && [step][1..] == [];
      assert Reaches(Apply(mid, step), [], Apply(mid, step));
    } else {
      RunExtends(Apply(s, steps[0]), steps[1..], mid, step);
      assert (steps + [step])[1..] == steps[1..] + [step];
    }
  }

  lemma ReachableStep(s: State, step: Step)
    requires Reachable(s) && Enabled(s, step)
    ensures Reachable(Apply(s, step))
  {
    hide Initial, Enabled, Apply, Reaches;
    var start, steps :| Initial(start) && Reaches(start, steps, s);
    RunExtends(start, steps, s, step);
  }

  lemma {:induction false} ReachableRun(s: State, steps: seq<Step>, s': State)
    requires Reachable(s) && Reaches(s, steps, s')
    ensures Reachable(s')
    decreases |steps|
  {
    hide Reachable, Enabled, Apply;
    if steps != [] {
      ReachableStep(s, steps[0]);
      ReachableRun(Apply(s, steps[0]), steps[1..], s');
    }
  }

  /** What a `Cancel` past its lock keeps: whether it waits is settled. */
  predicate SameCall(s: State, s': State, id: nat)
  {
    && id in s.cancellers && id in s'.cancellers && s'.mode == s.mode
    && PastLock(s.cancellers[id].at) && PastLock(s'.cancellers[id].at)
    && s'.cancellers[id].inside == s.cancellers[id].inside && s'.cancellers[id].joins == s.cancellers[id].joins
  }

  lemma StepSameCall(s: State, step: Step, id: nat)
    requires Enabled(s, step) && id in s.cancellers && PastLock(s.cancellers[id].at)
    ensures SameCall(s, Apply(s, step), id)
  {
  }

  lemma {:induction false} RunSameCall(s: State, steps: seq<Step>, s': State, id: nat)
    requires Reaches(s, steps, s') && id in s.cancellers && PastLock(s.cancellers[id].at)
    ensures SameCall(s, s', id)
    decreases |steps|
  {
    hide Enabled, Apply;
    if steps != [] {
      StepSameCall(s, steps[0], id);
      RunSameCall(Apply(s, steps[0]), steps[1..], s', id);
    }
  }

  /** A `Cancel` past its lock that waits for nothing can return at once, whatever the observer does. */
  lemma ReturnsAtOnce(s: State, id: nat) returns (steps: seq<Step>, s': State)
    requires Pending(s, id, CallingBack) && !s.cancellers[id].joins && (s.mode.Executor? ==> s.cancellers[id].inside)
    ensures Reaches(s, steps, s') && Pending(s', id, Returned) && s'.runner == s.runner && s'.requested == s.requested
  {
    var first, second := Apply(s, CancelCallBack(id)), Apply(Apply(s, CancelCallBack(id)), CancelJoin(id));
    steps, s' := [CancelCallBack(id), CancelJoin(id), CancelWait(id)], Apply(second, CancelWait(id));
    assert steps[1..] == [CancelJoin(id), CancelWait(id)] && steps[1..][1..] == [CancelWait(id)];
    assert Reaches(s', [], s') && Reaches(second, [CancelWait(id)], s') && Reaches(first, steps[1..], s');
  }

  /** After this call has returned, in whatever run, the observer is not called again. */
  ghost predicate Silences(s: State, id: nat)
  {
    forall steps, s' :: Reaches(s, steps, s') && Pending(s', id, Returned) ==> !StillCalled(s')
  }

  /** What the caller of `Cancel` can rely on, at the moment the call takes the lock: the observer is silent after its
      return exactly if the call is one that waits (on the executor outside stream callbacks, with a worker the call
      that finds it not yet taken) or no observer call is under way or decided on. */
  lemma CancelSilencesExactly(s: State, id: nat, onWorker: bool)
    requires Reachable(s) && Enabled(s, CancelLock(id, onWorker))
    ensures Silences(Apply(s, CancelLock(id, onWorker)), id) <==>
      || (if s.mode.Executor? then !s.cancellers[id].inside else s.joinable && !onWorker)
      || !(s.runner.Committed? || s.runner.Calling?)
  {
    var after := Apply(s, CancelLock(id, onWorker));
    ReachableInv(s);
    ReachableStep(s, CancelLock(id, onWorker));
    assert Pending(after, id, CallingBack) && (s.mode.Executor? ==> !s.joinable);
    hide Reachable, Enabled, Apply, Inv, StillCalled;
    if Waits(after.mode, after.cancellers[id]) {
      forall steps, s' | Reaches(after, steps, s') && Pending(s', id, Returned) ensures !StillCalled(s') {
        RunSameCall(after, steps, s', id);
        WaitedIsSilent(after, steps, s', id);
      }
    } else if Quiet(after) {
      forall steps, s' | Reaches(after, steps, s') && Pending(s', id, Returned) ensures !StillCalled(s') {
        QuietIsFinal(after, steps, s');
        QuietIffNeverCalledAgain(s');
      }
    } else {
      var steps, s' := ReturnsAtOnce(after, id);
      QuietIffNeverCalledAgain(s');
    }
  }

  lemma WaitedIsSilent(s: State, steps: seq<Step>, s': State, id: nat)
    requires Reachable(s) && Reaches(s, steps, s') && Pending(s', id, Returned) && Waits(s'.mode, s'.cancellers[id])
    ensures !StillCalled(s')
  {
    hide Reachable;
    ReachableRun(s, steps, s');
    forall more, end | Reaches(s', more, end) ensures !end.runner.Calling? {
      CancelSilencesTheObserver(s', id, more, end);
    }
  }

  /** A reachable state in which a second `Cancel`, outside stream callbacks, has returned from a handle with a worker
      of its own while the observer is in a call. */
  lemma SecondCancelMayReturnEarly() returns (s: State)
    ensures Reachable(s) && s.mode.OwnedWorker? && Pending(s, 1, Returned)
    ensures !s.cancellers[1].inside && s.runner.Calling?
  {
    hide Reachable;
    s := ObserverInCall(OwnedWorker);
    s := Cancels(s, 0, false);
    s := Cancels(s, 1, false);
    var locked := s;
    var steps: seq<Step>;
    steps, s := ReturnsAtOnce(locked, 1);
    ReachableRun(locked, steps, s);
    RunSameCall(locked, steps, s, 1);
  }

  /** A callback that cancels its own stream does not wait for itself: it can return while the observer is in the call
      it was made from. */
  lemma CancelFromCallbackReturns() returns (s: State)
    ensures Reachable(s) && s.mode.Executor? && Pending(s, 0, Returned) && s.cancellers[0].inside && s.runner.Calling?
  {
    hide Reachable;
    s := ObserverInCall(Executor);
    s := Cancels(s, 0, true);
    var locked := s;
    var steps: seq<Step>;
    steps, s := ReturnsAtOnce(locked, 0);
    ReachableRun(locked, steps, s);
    RunSameCall(locked, steps, s, 0);
  }

  /** A call up to its lock, not on the worker. */
  lemma Cancels(before: State, id: nat, inside: bool) returns (s: State)
    requires Reachable(before) && id !in before.cancellers
    ensures Reachable(s) && s.mode == before.mode && s.runner == before.runner && !s.joinable
    ensures s.cancellers.Keys == before.cancellers.Keys + {id}
    ensures Pending(s, id, CallingBack) && s.cancellers[id].inside == inside
    ensures s.cancellers[id].joins == before.joinable
  {
    hide Reachable;
    s := before;
    ReachableStep(s, StartCancel(id, inside));
    s := Apply(s, StartCancel(id, inside));
    ReachableStep(s, CancelLock(id, false));
    s := Apply(s, CancelLock(id, false));
  }

  lemma ObserverInCall(mode: Mode) returns (s: State)
    ensures Reachable(s) && s.mode == mode && s.joinable == mode.OwnedWorker? && s.runner.Calling?
    ensures s.cancellers == map[]
  {
    hide Reachable;
    s := Delivers(mode, 0);
    s := Observes(s, OnEvent);
  }

  // ----- Which traces there are ---------------------------------------------------

  /** Events, and at most one error or completion behind them. */
  predicate IsTrace(t: seq<Call>)
  {
    forall i :: 0 <= i < |t| - 1 ==> t[i] == OnEvent
  }

  function Repeated(n: nat): (t: seq<Call>)
    ensures |t| == n && forall i :: 0 <= i < n ==> t[i] == OnEvent
  {
    seq(n, i => OnEvent)
  }

  /** Before any cancellation, between two observer calls of a delivery. */
  predicate Delivering(s: State, mode: Mode, n: nat)
  {
    && s.mode == mode && !s.requested && s.runner == Inside(Delivery) && !s.entered && !s.left
    && s.trace == Repeated(n) && s.joinable == mode.OwnedWorker? && s.cancellers == map[]
  }

  lemma {:induction false} Delivers(mode: Mode, n: nat) returns (s: State)
    ensures Reachable(s) && Delivering(s, mode, n)
  {
    if n == 0 {
      s := State(mode, false, false, Unregistered, 0, mode.OwnedWorker?,
                 if mode.Executor? then Outside else Inside(Delivery), false, false, false, [], map[]);
      assert Initial(s) && Reaches(s, [], s) && Reachable(s);
      hide Reachable;
      if mode.Executor? {
        ReachableStep(s, Enter(Delivery));
        s := Apply(s, Enter(Delivery));
      }
    } else {
      hide Reachable;
      s := Delivers(mode, n - 1);
      assert Repeated(n - 1) + [OnEvent] == Repeated(n);
      s := Observes(s, OnEvent);
      ReachableStep(s, End);
      s := Apply(s, End);
    }
  }

  /** The observer is called, nothing having been cancelled. */
  lemma Observes(before: State, call: Call) returns (s: State)
    requires Reachable(before) && !before.requested && Enabled(before, Check(call))
    ensures Reachable(s) && s == before.(runner := Calling(before.runner.kind, call), trace := before.trace + [call])
  {
    hide Reachable;
    ReachableStep(before, Check(call));
    s := Apply(before, Check(call));
    ReachableStep(s, Begin);
    s := Apply(s, Begin);
  }

  /** The traces an observer can see, on the executor and with an owned worker, are exactly events followed by at most
      one error or completion. */
  lemma TracesAreExactly(mode: Mode, t: seq<Call>)
    ensures IsTrace(t) <==> exists s :: Reachable(s) && s.mode == mode && s.trace == t
  {
    hide Reachable;
    if IsTrace(t) {
      var s := TraceHappens(mode, t);
    }
    forall s | Reachable(s) && s.trace == t ensures IsTrace(t) {
      forall i | 0 <= i < |t| - 1 ensures t[i] == OnEvent { TraceEndsAtMostOnce(s, i, |t| - 1); }
    }
  }

  lemma TraceHappens(mode: Mode, t: seq<Call>) returns (s: State)
    requires IsTrace(t)
    ensures Reachable(s) && s.mode == mode && s.trace == t
  {
    hide Reachable;
    if t == [] || t[|t| - 1] == OnEvent {
      s := Delivers(mode, |t|);
      assert t == Repeated(|t|);
    } else {
      s := Delivers(mode, |t| - 1);
      assert t == Repeated(|t| - 1) + [t[|t| - 1]];
      if mode.Executor? {
        ReachableStep(s, Leave);
        s := Apply(s, Leave);
      }
      ReachableStep(s, Enter(Completion));
      s := Apply(s, Enter(Completion));
      s := Observes(s, t[|t| - 1]);
    }
  }
}
