/** How streams end: whatever takes a transfer out of its reactor's table ends its stream, and a stream that has ended
    is completed once its handlers have run. */
module StreamEnds {
  import opened Streams
  import opened StreamLocal
  import opened StreamInvariant
  import opened StreamRuns
  import opened StreamErrors

  // ----- Completion --------------------------------------------------------------

  /** When a stream has ended and no drain is left, its completion handler has been called, once. */
  lemma EndedIsCompleted(w: World, s: nat)
    requires Reachable(w) && s in w.streams && w.streams[s].ended == 1 && w.streams[s].drains == []
    ensures w.streams[s].completed == 1
  {
    hide Reachable, Inv;
    ReachableInv(w);
    DrainedIsCompleted(w, s);
  }

  // ----- Out of the table ----------------------------------------------------------

  /** The reactor neither drives the transfer nor has been told to. */
  predicate Absent(q: Reactor, s: nat)
  {
    Add(s) !in q.batch && Add(s) !in q.commands && s !in q.transfers
  }

  ghost predicate Off(w: World, s: nat)
  {
    s in w.streams && w.streams[s].reactor in w.reactors && Absent(w.reactors[w.streams[s].reactor], s)
  }

  lemma AbsentStays(q: Reactor, s: nat, command: Command, closing: set<nat>)
    requires Absent(q, s) && command != Add(s)
    ensures Absent(Enqueued(q, command), s) && Absent(Closing(q, closing), s)
    ensures Absent(q.(batch := q.commands, commands := []), s)
  {
  }

  lemma AbsentProcessed(q: Reactor, s: nat, streams: map<nat, Stream>, admitted: bool)
    requires Absent(q, s) && q.batch != []
    ensures Absent(ProcessSection(q, streams, admitted), s)
  {
    assert q.batch[0] in q.batch && forall c :: c in q.batch[1..] ==> c in q.batch;
  }

  lemma OffStays(w: World, step: Step, s: nat)
    requires Inv(w) && Enabled(w, step) && Off(w, s)
    ensures Off(Apply(w, step), s)
  {
    hide Inv, Closing, Free, Enqueued, ProcessSection, ArriveSection, Submit, DrainSection, ReportSection;
    var q := w.reactors[w.streams[s].reactor];
    FixedReactor(w, step, s);
    match step {
      case Start(o, _, _) => AbsentStays(q, s, Add(o), {});
      case Cancel(o) => AbsentStays(q, s, CancelStream(o), {});
      case SendCancelOwner(c, _) => AbsentStays(q, s, CancelOwner(c), {});
      case QueueShutdown(_) => AbsentStays(q, s, Shutdown, {});
      case Swap(_) => AbsentStays(q, s, Shutdown, {});
      case Process(_, admitted) => if q.batch != [] { AbsentProcessed(q, s, w.streams, admitted); }
      case Finished(o) => AbsentStays(q, s, Shutdown, {o});
      case FailAll(_) => AbsentStays(q, s, Shutdown, q.transfers);
      case Leave(_) => AbsentStays(q, s, Shutdown, q.transfers);
      case ReportNext(r) => AbsentReports(w, r, s);
      case DrainNext(o, _, _) => AbsentStays(q, s, CancelStream(o), {});
      case _ =>
    }
  }

  lemma AbsentReports(w: World, r: nat, s: nat)
    requires Enabled(w, ReportNext(r)) && Off(w, s)
    ensures r in AfterReport(w, r).reactors
    ensures w.streams[s].reactor == r ==> Absent(AfterReport(w, r).reactors[r], s)
  {
    hide ReportSection;
  }

  lemma FixedReactor(w: World, step: Step, s: nat)
    requires Inv(w) && Enabled(w, step) && s in w.streams && w.streams[s].reactor in w.reactors
    ensures s in Apply(w, step).streams && Apply(w, step).streams[s].reactor == w.streams[s].reactor
    ensures w.streams[s].reactor in Apply(w, step).reactors
  {
    hide Inv, Apply, Enabled, Local, TrackOf;
    StepKeeps(w, step);
    if Others(step, s) {
      OthersLeave(w, step, s);
    } else {
      DrainLeaves(w, step);
    }
    RegisteredStays(w, step, s);
  }

  lemma DrainLeaves(w: World, step: Step)
    requires Enabled(w, step) && step.DrainNext?
    ensures step.stream in Apply(w, step).streams
    ensures Apply(w, step).streams[step.stream].reactor == w.streams[step.stream].reactor
  {
    DrainKeepsStreams(w, step.stream, step.index, step.ok);
  }

  /** The step takes the stream's transfer out of its reactor: a cancellation of it or of its owner is processed, it is
      not taken on, it is finished, or the reactor fails or leaves. */
  ghost predicate TakesOut(w: World, step: Step, s: nat)
  {
    && Enabled(w, step) && s in w.streams && w.streams[s].reactor in w.reactors
    && var r, q := w.streams[s].reactor, w.reactors[w.streams[s].reactor];
       || (&& step.Process? && step.reactor == r
           && (|| q.batch[0] == CancelStream(s) || q.batch[0] == CancelOwner(w.streams[s].owner)
               || (q.batch[0] == Add(s) && (!step.admitted || q.shuttingDown))))
       || step == Finished(s)
       || (s in q.transfers && (step == FailAll(r) || step == Leave(r)))
  }

  lemma TakenOff(w: World, step: Step, s: nat)
    requires Inv(w) && TakesOut(w, step, s)
    ensures Off(Apply(w, step), s)
  {
    hide Inv, Owned;
    var r := w.streams[s].reactor;
    if step.Process? {
      QueueOf(w, r);
      ProcessedAbsent(w.reactors[r], r, s, w.streams, w.clients, step.admitted);
      hide ProcessSection, Absent, QueueOk;
    } else {
      NoSecondAdd(w, s);
    }
  }

  lemma QueueOf(w: World, r: nat)
    requires Inv(w) && r in w.reactors
    ensures QueueOk(w.reactors[r], r, w.streams, w.clients)
  {
    assert ReactorOk(w.reactors[r], r, w.streams, w.clients);
    hide StreamsOk, Counts, QueueOk;
  }

  /** A transfer in the table is not also to be added. */
  lemma NoSecondAdd(w: World, s: nat)
    requires Inv(w) && s in w.streams && w.streams[s].reactor in w.reactors
    requires s in w.reactors[w.streams[s].reactor].transfers
    ensures var q := w.reactors[w.streams[s].reactor]; Add(s) !in q.batch && Add(s) !in q.commands
  {
    hide Inv;
    LocalOf(w, s);
  }

  lemma ProcessedAbsent(q: Reactor, r: nat, s: nat, streams: map<nat, Stream>, clients: map<nat, Client>,
                        admitted: bool)
    requires QueueOk(q, r, streams, clients) && q.batch != [] && s in streams
    requires || q.batch[0] == CancelStream(s) || q.batch[0] == CancelOwner(streams[s].owner)
             || (q.batch[0] == Add(s) && (!admitted || q.shuttingDown))
    ensures Absent(ProcessSection(q, streams, admitted), s)
  {
    NotAddedLater(q, r, s, streams, clients);
  }

  lemma NotAddedLater(q: Reactor, r: nat, s: nat, streams: map<nat, Stream>, clients: map<nat, Client>)
    requires QueueOk(q, r, streams, clients) && q.batch != [] && s in streams
    requires q.batch[0] == CancelStream(s) || q.batch[0] == CancelOwner(streams[s].owner) || q.batch[0] == Add(s)
    ensures Add(s) !in q.batch[1..] && Add(s) !in q.commands
  {
    var commands := Commands(q);
    forall j | 0 < j < |commands| ensures commands[j] != Add(s) {
      assert MayFollow(commands[0], commands[j], streams);
    }
    hide QueueOk;
    forall i | 0 <= i < |q.batch[1..]| ensures q.batch[1..][i] != Add(s) { assert commands[i + 1] == q.batch[1..][i]; }
    forall i | 0 <= i < |q.commands| ensures q.commands[i] != Add(s) {
      assert commands[|q.batch| + i] == q.commands[i];
    }
  }

  lemma {:induction false} OffRun(w: World, steps: seq<Step>, w': World, s: nat)
    requires Inv(w) && Off(w, s) && Reaches(w, steps, w')
    ensures Off(w', s)
    decreases |steps|
  {
    hide Inv, Enabled, Apply, Off;
    if steps != [] {
      OffStays(w, steps[0], s);
      StepKeeps(w, steps[0]);
      OffRun(Apply(w, steps[0]), steps[1..], w', s);
    }
  }

  lemma OffIsDone(w: World, s: nat)
    requires Inv(w) && Off(w, s) && Settled(w.reactors[w.streams[s].reactor])
    ensures w.streams[s].done && w.streams[s].released && w.streams[s].ended == 1
  {
    hide Inv;
    LocalOf(w, s);
  }

  /** Whatever takes a transfer out of its reactor ends the stream: once the reactor has no completion due or under way,
      the stream is finalised, has ended exactly once, and when no drain of it is left its completion handler has been
      called exactly once. */
  lemma TakenOutEnds(w: World, step: Step, s: nat, steps: seq<Step>, w': World)
    requires Reachable(w) && TakesOut(w, step, s) && Reaches(Apply(w, step), steps, w')
    ensures s in w'.streams && w'.streams[s].reactor == w.streams[s].reactor && w.streams[s].reactor in w'.reactors
    ensures Settled(w'.reactors[w'.streams[s].reactor]) ==>
      && w'.streams[s].done && w'.streams[s].released && w'.streams[s].ended == 1
      && (w'.streams[s].drains == [] ==> w'.streams[s].completed == 1)
  {
    hide Inv, Off, TakesOut, Reaches, Apply, Settled;
    ReachableInv(w);
    TakenIsKnown(w, step, s);
    TakenOff(w, step, s);
    StepKeeps(w, step);
    FixedReactor(w, step, s);
    SameReactor(Apply(w, step), steps, w', s);
    RunKeeps(Apply(w, step), steps, w');
    OffRun(Apply(w, step), steps, w', s);
    if Settled(w'.reactors[w'.streams[s].reactor]) {
      OffIsDone(w', s);
      if w'.streams[s].drains == [] { DrainedIsCompleted(w', s); }
    }
  }

  lemma DrainedIsCompleted(w: World, s: nat)
    requires Inv(w) && s in w.streams && w.streams[s].ended == 1 && w.streams[s].drains == []
    ensures w.streams[s].completed == 1
  {
    hide Inv;
    LocalOf(w, s);
    assert w.streams[s].dispatch.tasks == [];
  }

  lemma TakenIsKnown(w: World, step: Step, s: nat)
    requires TakesOut(w, step, s)
    ensures Enabled(w, step) && s in w.streams && w.streams[s].reactor in w.reactors
  {
  }

  lemma {:induction false} SameReactor(w: World, steps: seq<Step>, w': World, s: nat)
    requires Inv(w) && Reaches(w, steps, w') && s in w.streams && w.streams[s].reactor in w.reactors
    ensures s in w'.streams && w'.streams[s].reactor == w.streams[s].reactor && w.streams[s].reactor in w'.reactors
    decreases |steps|
  {
    hide Inv, Enabled, Apply;
    if steps != [] {
      FixedReactor(w, steps[0], s);
      StepKeeps(w, steps[0]);
      SameReactor(Apply(w, steps[0]), steps[1..], w', s);
    }
  }

  // ----- Requests ----------------------------------------------------------------

  /** Cancelling a stream, cancelling for a client that shuts down, and shutting a reactor down queue their commands
      behind those already queued; a reactor that is to shut down takes no cancellation for a client any more. */
  lemma RequestsAreQueued(w: World, r: nat, s: nat, c: nat)
    requires r in w.reactors
    ensures Enabled(w, Cancel(s)) && w.streams[s].reactor == r ==>
      Apply(w, Cancel(s)).reactors[r].commands == w.reactors[r].commands + [CancelStream(s)]
    ensures Enabled(w, SendCancelOwner(c, r)) ==>
      Apply(w, SendCancelOwner(c, r)).reactors[r].commands ==
        if w.reactors[r].shutdownQueued then w.reactors[r].commands else w.reactors[r].commands + [CancelOwner(c)]
    ensures Apply(w, QueueShutdown(r)).reactors[r].commands == w.reactors[r].commands + [Shutdown]
    ensures Apply(w, QueueShutdown(r)).reactors[r].shutdownQueued
    ensures Enabled(w, BeginShutdown(c)) ==> Apply(w, BeginShutdown(c)).clients[c].shuttingDown
  {
  }

  /** A reactor that processes its shutdown is to leave its loop once it has processed what was swapped out with it. */
  lemma ShutdownIsProcessed(w: World, r: nat, admitted: bool)
    requires Enabled(w, Process(r, admitted)) && w.reactors[r].batch[0] == Shutdown
    ensures Apply(w, Process(r, admitted)).reactors[r].shuttingDown
    ensures w.reactors[r].batch == [Shutdown] ==> Enabled(Apply(w, Process(r, admitted)), Leave(r))
  {
  }

  /** A reactor that processes a client's cancellation has swept that client. */
  lemma OwnerIsSwept(w: World, r: nat, admitted: bool)
    requires Enabled(w, Process(r, admitted)) && w.reactors[r].batch[0].CancelOwner?
    ensures Apply(w, Process(r, admitted)).reactors[r].swept == w.reactors[r].swept + {w.reactors[r].batch[0].owner}
  {
  }
}
