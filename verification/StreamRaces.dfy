/** A handler that fails while the reactor's thread is recording a refused task: exactly when handlers can still be
    called after the failure. */
module StreamRaces {
  import opened Protocol
  import SerialDispatch
  import opened Streams
  import opened StreamLocal
  import opened StreamInvariant
  import opened StreamRuns
  import opened StreamErrors

  /** Nothing of the stream is handled any more, whatever runs. */
  ghost predicate Silent(w: World, s: nat)
    requires s in w.streams
  {
    forall steps, w' :: Reaches(w, steps, w') ==> s in w'.streams && w'.streams[s].handled == w.streams[s].handled
  }

  /** A drain has just seen its handler fail. */
  ghost predicate Failing(w: World, s: nat, i: nat, ok: bool)
  {
    Enabled(w, DrainNext(s, i, ok)) && w.streams[s].drains[i] == Reporting(Locking)
  }

  // ----- Nothing is left to handle --------------------------------------------

  /** The reactor's thread has recorded a refusal and is about to suppress the callbacks; nothing received is queued. */
  ghost predicate Halting(w: World, s: nat)
  {
    && s in w.streams && w.streams[s].reactor in w.reactors && w.streams[s].owner in w.clients
    && ReportOf(w, s) == Some(Suppressing)
    && StreamLocal.Taken(w.streams[s]) == [] && Received(Works(w.streams[s])) == []
  }

  /** Steps other than an arrival and its own drains leave what a stream has queued alone. */
  lemma QueueStays(w: World, step: Step, s: nat)
    requires Enabled(w, step) && s in w.streams && Others(step, s) && !(step.Arrive? && step.stream == s)
    ensures s in Apply(w, step).streams
    ensures Received(Works(Apply(w, step).streams[s])) == Received(Works(w.streams[s]))
  {
    hide Closing, Free, Enqueued, ProcessSection, ReportSection, DrainSection, Submit, Received;
    var u := w.streams[s];
    match step {
      case ReportNext(r) => ReportQueue(u, w.reactors[r].reporting.value.stage);
      case Advance(_) => EndQueue(u);
      case _ =>
    }
    assert forall v: Stream :: v.dispatch == u.dispatch ==> Works(v) == Works(u);
  }

  lemma EndQueue(u: Stream)
    ensures Received(Works(Submit(u.(ended := u.ended + 1), Terminal))) == Received(Works(u))
  {
    assert Works(Submit(u.(ended := u.ended + 1), Terminal)) == Works(u) + [Terminal];
    ReceivedAppend(Works(u), Terminal);
  }

  lemma ReportQueue(u: Stream, at: Report)
    ensures ReportSection(u, at).0.dispatch == u.dispatch
  {
  }

  /** A drain with nothing received to take handles nothing. */
  lemma EmptyDrain(u: Stream, quiet: bool, ok: bool)
    requires |u.drains| == 1 && StreamLocal.Taken(u) == [] && Received(Works(u)) == []
    ensures var v := DrainSection(u, 0, quiet, ok);
      v.handled == u.handled && StreamLocal.Taken(v) == [] && Received(Works(v)) == []
  {
    hide Received, NextDrainer, Calls;
    var v := DrainSection(u, 0, quiet, ok);
    assert u.drains == [u.drains[0]] && forall d :: u.drains[0 := d] == [d];
    if u.drains[0].Idle? && u.dispatch.tasks != [] {
      var first := u.dispatch.tasks[0].task;
      assert Works(u) == [first] + Works(v);
      ReceivedPrepend(first, Works(v));
    } else {
      assert Works(v) == Works(u);
      if !u.drains[0].Idle? { NothingNext(u, u.drains[0], quiet, ok); }
    }
  }

  lemma NothingNext(u: Stream, d: Drainer, quiet: bool, ok: bool)
    requires !d.Idle? && (d.Checking? ==> d.work.Terminal?)
    ensures !NextDrainer(u, d, quiet, ok).Checking? && (Calls(u, d, quiet) ==> d.work.Terminal?)
  {
  }

  lemma HaltingDrain(w: World, s: nat, i: nat, ok: bool)
    requires Inv(w) && Halting(w, s) && Enabled(w, DrainNext(s, i, ok))
    ensures var w' := AfterDrain(w, s, i, ok);
      s in w'.streams && w'.streams[s].handled == w.streams[s].handled && Halting(w', s)
  {
    hide Inv, DrainSection, Enqueued, Received, Works, StreamLocal.Taken;
    DrainIsScheduled(w, s);
    EmptyDrain(w.streams[s], w.clients[w.streams[s].owner].shuttingDown, ok);
    EnqueueReports(w.reactors[w.streams[s].reactor], CancelStream(s));
    DrainFixed(w.streams[s], i, w.clients[w.streams[s].owner].shuttingDown, ok);
  }

  lemma DrainFixed(u: Stream, i: nat, quiet: bool, ok: bool)
    requires i < |u.drains|
    ensures DrainSection(u, i, quiet, ok).reactor == u.reactor && DrainSection(u, i, quiet, ok).owner == u.owner
  {
  }

  lemma HaltingStep(w: World, step: Step, s: nat)
    requires Inv(w) && Halting(w, s) && Enabled(w, step)
    ensures var w' := Apply(w, step);
      && s in w'.streams && w'.streams[s].handled == w.streams[s].handled
      && (Halting(w', s) || w'.streams[s].suppressed)
  {
    hide Inv, AfterDrain, Received, Works;
    StepKeeps(w, step);
    if !Others(step, s) {
      HaltingDrain(w, s, step.index, step.ok);
    } else {
      var r := w.streams[s].reactor;
      OthersLeave(w, step, s);
      RegisteredStays(w, step, s);
      if step == ReportNext(r) {
        ReportingAfter(w, r);
      } else {
        if step.Arrive? { NotArriving(w, step.stream, step.work, s); } else { QueueStays(w, step, s); }
        ReportingElsewhere(w, step, r);
        hide Apply;
      }
    }
  }

  lemma NotArriving(w: World, o: nat, work: Work, s: nat)
    requires Enabled(w, Arrive(o, work)) && Halting(w, s)
    ensures o != s && w.streams[o].reactor != w.streams[s].reactor
    ensures AfterArrive(w, o, work).streams[s] == w.streams[s]
  {
  }

  lemma ReportingElsewhere(w: World, step: Step, r: nat)
    requires Enabled(w, step) && r in w.reactors && w.reactors[r].reporting.Some? && step != ReportNext(r)
    ensures r in Apply(w, step).reactors && Apply(w, step).reactors[r].reporting == w.reactors[r].reporting
  {
    hide AfterReport, ReportSection, ArriveSection;
    if step.ReportNext? {
      ReportingAfter(w, step.reactor);
    } else if !step.Arrive? {
      ReportingStays(w, step, r);
    }
  }

  lemma {:induction false} HaltingIsSilent(w: World, steps: seq<Step>, w': World, s: nat)
    requires Inv(w) && Halting(w, s) && Reaches(w, steps, w')
    ensures s in w'.streams && w'.streams[s].handled == w.streams[s].handled
    decreases |steps|
  {
    hide Inv, Enabled, Apply, Received, Works;
    if steps != [] {
      var next := Apply(w, steps[0]);
      HaltingStep(w, steps[0], s);
      StepKeeps(w, steps[0]);
      if Halting(next, s) {
        HaltingIsSilent(next, steps[1..], w', s);
      } else {
        RegisteredStays(w, steps[0], s);
        SuppressedIsSilent(next, steps[1..], w', s);
      }
    }
  }

  // ----- Something is left to handle -------------------------------------------

  lemma {:induction false} RunsCompose(w: World, first: seq<Step>, mid: World, rest: seq<Step>, w': World)
    requires Reaches(w, first, mid) && Reaches(mid, rest, w')
    ensures Reaches(w, first + rest, w')
    decreases |first|
  {
    hide Enabled, Apply;
    if first == [] {
      assert first + rest == rest;
    } else {
      RunsCompose(Apply(w, first[0]), first[1..], mid, rest, w');
      assert (first + rest)[1..] == first[1..] + rest;
    }
  }

  /** One step of the only drain, which is not about to cancel. */
  lemma DrainOnce(w: World, s: nat) returns (w': World)
    requires Inv(w) && s in w.streams && |w.streams[s].drains| == 1
    requires w.streams[s].drains[0] != Reporting(Cancelling)
    ensures w.streams[s].owner in w.clients && Inv(w') && Reaches(w, [DrainNext(s, 0, true)], w')
    ensures w' == WithStream(w, s, DrainSection(w.streams[s], 0, w.clients[w.streams[s].owner].shuttingDown, true))
  {
    hide Inv, DrainSection, Local, TrackOf;
    LocalOf(w, s);
    StepKeeps(w, DrainNext(s, 0, true));
    w' := AfterDrain(w, s, 0, true);
    assert [DrainNext(s, 0, true)][1..] == [] && Reaches(w', [], w');
  }

  /** An idle drain that is not suppressed takes and runs the first task, which succeeds. */
  lemma RunsTask(w: World, s: nat) returns (steps: seq<Step>, w': World)
    requires Inv(w) && s in w.streams && w.streams[s].owner in w.clients && !Suppresses(w, s)
    requires w.streams[s].drains == [Idle] && w.streams[s].dispatch.tasks != []
    requires !w.streams[s].dispatch.tasks[0].task.Terminal?
    ensures Reaches(w, steps, w') && Inv(w') && s in w'.streams
    ensures w'.streams[s].owner in w'.clients && !Suppresses(w', s)
    ensures w'.streams[s].drains == [Idle] && w'.streams[s].dispatch.tasks == w.streams[s].dispatch.tasks[1..]
    ensures var first := w.streams[s].dispatch.tasks[0].task;
      w'.streams[s].handled == w.streams[s].handled + [first]
  {
    hide Inv, Reaches;
    var u := w.streams[s];
    assert forall d :: u.drains[0 := d] == [d];
    var step := [DrainNext(s, 0, true)];
    var w1 := DrainOnce(w, s);
    assert w1.streams[s].drains == [Checking(u.dispatch.tasks[0].task)];
    var w2 := DrainOnce(w1, s);
    assert w2.streams[s].drains == [Calling(u.dispatch.tasks[0].task)];
    w' := DrainOnce(w2, s);
    assert w'.streams[s].drains == [Idle];
    RunsCompose(w, step, w1, step, w2);
    RunsCompose(w, step + step, w2, step, w');
    steps := step + step + step;
  }

  /** A drain that is not suppressed gets to the next handler call. */
  lemma HandlesNext(w: World, s: nat) returns (steps: seq<Step>, w': World)
    requires Inv(w) && s in w.streams && w.streams[s].owner in w.clients && !Suppresses(w, s)
    requires w.streams[s].drains == [Idle] && Received(Works(w.streams[s])) != []
    ensures Reaches(w, steps, w') && s in w'.streams && w'.streams[s].handled != w.streams[s].handled
  {
    hide Inv, Reaches, Received, Suppresses;
    NotOnlyTerminal(w, s);
    steps, w' := RunsTask(w, s);
  }

  lemma NotOnlyTerminal(w: World, s: nat)
    requires Inv(w) && s in w.streams && Received(Works(w.streams[s])) != []
    ensures w.streams[s].dispatch.tasks != [] && !w.streams[s].dispatch.tasks[0].task.Terminal?
  {
    hide Inv;
    LocalOf(w, s);
    var works := Works(w.streams[s]);
    assert |works| == |w.streams[s].dispatch.tasks|;
    TerminalAlone(works);
    if works != [] { assert works[0] == w.streams[s].dispatch.tasks[0].task; }
  }

  lemma TerminalAlone(works: seq<Work>)
    ensures |works| == 1 && works[0].Terminal? ==> Received(works) == []
  {
    if |works| == 1 { assert Received(works[..0]) == []; }
  }

  // ----- Exactly when ----------------------------------------------------------

  /** When a handler has failed and its drain gets to the error's lock: nothing is handled any more, whatever runs,
      unless a refused task was recorded before it, its recording has not suppressed the callbacks yet, and something
      received is queued. */
  lemma FailureStopsExactly(w: World, s: nat, i: nat, ok: bool)
    requires Reachable(w) && Failing(w, s, i, ok)
    ensures s in AfterDrain(w, s, i, ok).streams
    ensures Silent(AfterDrain(w, s, i, ok), s) <==>
      !(w.streams[s].failed && !Suppresses(w, s) && Received(Works(w.streams[s])) != [])
  {
    hide Reachable, Inv, Reaches, Received;
    ReachableInv(w);
    StepKeeps(w, DrainNext(s, i, ok));
    AfterLock(w, s, i, ok);
    hide AfterDrain;
    var next := AfterDrain(w, s, i, ok);
    if Suppresses(w, s) {
      forall steps, w' | Reaches(next, steps, w')
        ensures s in w'.streams && w'.streams[s].handled == next.streams[s].handled
      {
        SuppressedIsSilent(next, steps, w', s);
      }
    } else if !w.streams[s].failed {
      forall steps, w' | Reaches(next, steps, w')
        ensures s in w'.streams && w'.streams[s].handled == next.streams[s].handled
      {
        RecordingRun(next, steps, w', s);
      }
    } else if Received(Works(w.streams[s])) == [] {
      forall steps, w' | Reaches(next, steps, w')
        ensures s in w'.streams && w'.streams[s].handled == next.streams[s].handled
      {
        HaltingIsSilent(next, steps, w', s);
      }
    } else {
      var steps, w' := HandlesNext(next, s);
    }
  }

  lemma AfterLock(w: World, s: nat, i: nat, ok: bool)
    requires Inv(w) && Failing(w, s, i, ok)
    ensures var next := AfterDrain(w, s, i, ok);
      && s in next.streams && next.streams[s].owner in next.clients && next.streams[s].reactor in next.reactors
      && (Suppresses(next, s) <==> Suppresses(w, s))
      && (!w.streams[s].failed ==> Recording(next, s) && next.streams[s].failed)
      && (w.streams[s].failed ==> next.streams[s].drains == [Idle])
      && (w.streams[s].failed && !Suppresses(w, s) ==> ReportOf(next, s) == Some(Suppressing))
      && Works(next.streams[s]) == Works(w.streams[s]) && StreamLocal.Taken(next.streams[s]) == []
  {
    hide Inv;
    LocalOf(w, s);
    var u := w.streams[s];
    assert u.drains == [u.drains[0]] && forall d :: u.drains[0 := d] == [d];
    hide Placed, TerminalOnce, Pipeline;
  }

  // ----- A run in which a chunk is handled after a failure ----------------------

  const SMALL: Bytes := [0]

  const CHUNK: Work := Chunk(SMALL)

  const QUEUED := SerialDispatch.Queued(CHUNK, 1)

  function Big(): (b: Bytes)
    ensures |b| == SerialDispatch.MAX_BYTES
  {
    seq(SerialDispatch.MAX_BYTES, i => 0)
  }

  /** One client with one stream on one reactor. */
  function Single(u: Stream, q: Reactor): World
  {
    World(map[0 := Client(1, false)], map[0 := q], map[0 := u])
  }

  const RESTING := Reactor([], [], {}, {}, None, None, false, false, false, {})

  const DRIVING := RESTING.(transfers := {0})

  const FIRST_ARRIVED :=
    NewStream(0, 0).(dispatch := SerialDispatch.Dispatch([QUEUED], 1, true), drains := [Idle], arrived := [CHUNK])

  const IN_HANDLER :=
    FIRST_ARRIVED.(dispatch := SerialDispatch.Dispatch([], 0, true), drains := [Calling(CHUNK)], handled := [CHUNK])

  const SECOND_ARRIVED :=
    IN_HANDLER.(dispatch := SerialDispatch.Dispatch([QUEUED], 1, true), arrived := [CHUNK, CHUNK])

  function Refusal(): Stream
  {
    SECOND_ARRIVED.(arrived := [CHUNK, CHUNK, Chunk(Big())])
  }

  lemma ReachableStep(w: World, step: Step)
    requires Reachable(w) && Enabled(w, step)
    ensures Reachable(Apply(w, step))
  {
    hide Initial, Enabled, Apply, Reaches;
    var start, steps :| Initial(start) && Reaches(start, steps, w);
    assert Reaches(w, [step], Apply(w, step)) by { OneStep(w, step); }
    RunsCompose(start, steps, w, [step], Apply(w, step));
  }

  lemma OneStep(w: World, step: Step)
    requires Enabled(w, step)
    ensures Reaches(w, [step], Apply(w, step))
  {
    hide Enabled, Apply;
    assert [step][1..] == [] && Reaches(Apply(w, step), [], Apply(w, step));
  }

  lemma Replaced(u: Stream, q: Reactor, v: Stream, p: Reactor)
    ensures WithStream(Single(u, q), 0, v) == Single(v, q) && WithReactor(Single(u, q), 0, p) == Single(u, p)
  {
    assert map[0 := u][0 := v] == map[0 := v] && map[0 := q][0 := p] == map[0 := p];
  }

  lemma StreamStarts()
    ensures Reachable(Single(NewStream(0, 0), DRIVING))
  {
    hide Reachable, ReactorOk;
    var u := NewStream(0, 0);
    var added, swapped := RESTING.(commands := [Add(0)]), RESTING.(batch := [Add(0)]);
    StreamIsAdded();
    ReachableStep(Single(u, added), Swap(0));
    Replaced(u, added, u, swapped);
    ReachableStep(Single(u, swapped), Process(0, true));
    assert [Add(0)][1..] == [] && {} + {0} == {0};
    assert ProcessSection(swapped, map[0 := u], true) == DRIVING;
    Replaced(u, swapped, u, DRIVING);
  }

  lemma StreamIsAdded()
    ensures Reachable(Single(NewStream(0, 0), RESTING.(commands := [Add(0)])))
  {
    var start := World(map[0 := Client(0, false)], map[0 := RESTING], map[]);
    assert Initial(start) && Reaches(start, [], start) && Reachable(start);
    hide Reachable;
    ReachableStep(start, Start(0, 0, 0));
    var q := RESTING.(commands := [Add(0)]);
    assert [] + [Add(0)] == [Add(0)] && Enqueued(RESTING, Add(0)) == q;
    assert map[0 := Client(0, false)][0 := Client(1, false)] == map[0 := Client(1, false)];
    assert map[][0 := NewStream(0, 0)] == map[0 := NewStream(0, 0)] && map[0 := RESTING][0 := q] == map[0 := q];
    assert Apply(start, Start(0, 0, 0)) == Single(NewStream(0, 0), q);
  }

  /** A chunk arrives and is queued. */
  lemma Arrives(u: Stream, v: Stream)
    requires Reachable(Single(u, DRIVING)) && u.reactor == 0 && ArriveSection(u, CHUNK) == v
    requires !SerialDispatch.Refuses(u.dispatch, Size(CHUNK), false)
    ensures Reachable(Single(v, DRIVING))
  {
    hide Reachable, ArriveSection;
    ReachableStep(Single(u, DRIVING), Arrive(0, CHUNK));
    Replaced(u, DRIVING, v, DRIVING);
    Replaced(v, DRIVING, v, DRIVING);
  }

  lemma Drains(u: Stream, q: Reactor, v: Stream, ok: bool)
    requires Reachable(Single(u, q)) && u.owner == u.reactor == 0 && |u.drains| == 1
    requires u.drains[0] != Reporting(Cancelling) && DrainSection(u, 0, false, ok) == v
    ensures Reachable(Single(v, q))
  {
    hide Reachable, DrainSection;
    ReachableStep(Single(u, q), DrainNext(0, 0, ok));
    Replaced(u, q, v, q);
  }

  lemma HandlerStarts()
    ensures Reachable(Single(IN_HANDLER, DRIVING))
  {
    hide Reachable;
    StreamStarts();
    assert [] + [CHUNK] == [CHUNK] && [] + [QUEUED] == [QUEUED] && [QUEUED][1..] == [];
    Arrives(NewStream(0, 0), FIRST_ARRIVED);
    var taken := FIRST_ARRIVED.(dispatch := SerialDispatch.Dispatch([], 0, true), drains := [Checking(CHUNK)]);
    Drains(FIRST_ARRIVED, DRIVING, taken, true);
    Drains(taken, DRIVING, IN_HANDLER, true);
  }

  lemma TaskIsRefused()
    ensures Reachable(Single(Refusal(), DRIVING.(reporting := Some(At(0, Locking)))))
  {
    hide Reachable;
    HandlerStarts();
    assert [CHUNK] + [CHUNK] == [CHUNK, CHUNK] && [CHUNK, CHUNK] + [Chunk(Big())] == [CHUNK, CHUNK, Chunk(Big())];
    Arrives(IN_HANDLER, SECOND_ARRIVED);
    var q := DRIVING.(reporting := Some(At(0, Locking)));
    ReachableStep(Single(SECOND_ARRIVED, DRIVING), Arrive(0, Chunk(Big())));
    Replaced(SECOND_ARRIVED, DRIVING, Refusal(), q);
    Replaced(Refusal(), DRIVING, Refusal(), q);
  }

  lemma RefusalIsRecorded()
    ensures Reachable(Single(Refusal().(failed := true), DRIVING.(reporting := Some(At(0, Suppressing)))))
  {
    hide Reachable;
    TaskIsRefused();
    var u, v := Refusal(), Refusal().(failed := true);
    var q, p := DRIVING.(reporting := Some(At(0, Locking))), DRIVING.(reporting := Some(At(0, Suppressing)));
    ReachableStep(Single(u, q), ReportNext(0));
    Replaced(u, q, v, p);
    Replaced(v, q, v, p);
  }

  /** A large chunk is refused while a handler runs and another chunk waits; the refusal is recorded, and before it
      suppresses the callbacks the handler fails: the waiting chunk will be handled if the drain is fast. */
  lemma HandlersCanFollowFailure() returns (w: World)
    ensures Reachable(w) && Failing(w, 0, 0, true) && 0 in AfterDrain(w, 0, 0, true).streams
    ensures !Silent(AfterDrain(w, 0, 0, true), 0)
  {
    hide Reachable, Silent;
    RefusalIsRecorded();
    var u, q := Refusal().(failed := true), DRIVING.(reporting := Some(At(0, Suppressing)));
    var v := u.(drains := [Reporting(Locking)]);
    Drains(u, q, v, false);
    w := Single(v, q);
    assert Works(v) == [] + [CHUNK];
    ReceivedAppend([], CHUNK);
    FailureStopsExactly(w, 0, 0, true);
  }
}
