/** What becomes of a stream whose handler fails: the error is recorded, the callbacks suppressed, the transfer
    cancelled, and nothing is handled any more. */
module StreamErrors {
  import opened Protocol
  import SerialDispatch
  import opened Streams
  import opened StreamLocal
  import opened StreamInvariant
  import opened StreamSteps
  import opened StreamRuns

  /** The stage at which the reactor's own thread is recording an error of the stream. */
  function ReportOf(w: World, s: nat): Option<Report>
    requires s in w.streams && w.streams[s].reactor in w.reactors
  {
    TrackOf(w.reactors[w.streams[s].reactor], s).report
  }

  predicate Suppresses(w: World, s: nat)
    requires s in w.streams && w.streams[s].owner in w.clients
  {
    w.clients[w.streams[s].owner].shuttingDown || w.streams[s].suppressed
  }

  // ----- Steps that are not the stream's own drain ----------------------------

  predicate Others(step: Step, s: nat)
  {
    step.DrainNext? ==> step.stream != s
  }

  /** A task of the stream arrives and finds no room. */
  ghost predicate Refused(w: World, step: Step, s: nat)
  {
    && step.Arrive? && step.stream == s && s in w.streams
    && SerialDispatch.Refuses(w.streams[s].dispatch, Size(step.work), false)
  }

  /** What the others leave of a stream while a drain of it is scheduled. */
  ghost predicate Left(u: Stream, v: Stream)
  {
    && v.owner == u.owner && v.reactor == u.reactor && v.handled == u.handled && v.completed == u.completed
    && (if u.drains != [] then v.drains == u.drains else v.drains == [] || v.drains == [Idle])
    && (u.failed ==> v.failed) && (u.suppressed ==> v.suppressed)
  }

  lemma OthersLeave(w: World, step: Step, s: nat)
    requires Inv(w) && Enabled(w, step) && s in w.streams && Others(step, s)
    ensures s in Apply(w, step).streams && Left(w.streams[s], Apply(w, step).streams[s])
  {
    hide Inv, Enqueued, Closing, ProcessSection, Free, Left, ArriveSection, ReportSection, Submit;
    var u := w.streams[s];
    if u.drains != [] { DrainIsScheduled(w, s); }
    match step {
      case Arrive(_, work) => ArriveLeaves(u, work);
      case ReportNext(r) => ReportLeaves(u, w.reactors[r].reporting.value.stage);
      case Advance(_) => EndLeaves(u);
      case _ => SameLeaves(u, w.streams[s].(done := true));
    }
    SameLeaves(u, u);
  }

  lemma SameLeaves(u: Stream, v: Stream)
    requires v == u || v == u.(done := true)
    ensures Left(u, v)
  {
  }

  lemma ArriveLeaves(u: Stream, work: Work)
    requires u.drains != [] ==> u.dispatch.scheduled
    ensures Left(u, ArriveSection(u, work))
  {
    hide SerialDispatch.Refuses, Submit;
    SubmitLeaves(u.(arrived := u.arrived + [work]), work);
  }

  lemma SubmitLeaves(u: Stream, work: Work)
    requires u.drains != [] ==> u.dispatch.scheduled
    ensures Left(u, Submit(u, work))
  {
  }

  lemma ReportLeaves(u: Stream, at: Report)
    ensures Left(u, ReportSection(u, at).0)
  {
  }

  lemma EndLeaves(u: Stream)
    requires u.drains != [] ==> u.dispatch.scheduled
    ensures Left(u, u.(released := true)) && Left(u, Submit(u.(ended := u.ended + 1), Terminal))
  {
  }

  lemma DrainIsScheduled(w: World, s: nat)
    requires Inv(w) && s in w.streams && w.streams[s].drains != []
    ensures w.streams[s].dispatch.scheduled && |w.streams[s].drains| == 1
  {
    hide Inv;
    LocalOf(w, s);
  }

  /** Only arriving data and the recording itself change what a reactor's thread is recording. */
  lemma ReportingStays(w: World, step: Step, r: nat)
    requires Enabled(w, step) && r in w.reactors && !step.Arrive? && !step.ReportNext?
    ensures r in Apply(w, step).reactors && Apply(w, step).reactors[r].reporting == w.reactors[r].reporting
  {
    hide Closing, Free, Enqueued, ProcessSection, Submit, DrainSection;
    match step {
      case Process(o, admitted) => ProcessReports(w.reactors[o], w.streams, admitted);
      case Finished(o) => CloseReports(w.reactors[w.streams[o].reactor], {o});
      case FailAll(o) => CloseReports(w.reactors[o], w.reactors[o].transfers);
      case Leave(o) => CloseReports(w.reactors[o], w.reactors[o].transfers);
      case Start(o, _, q) => EnqueueReports(w.reactors[q], Add(o));
      case Cancel(o) => EnqueueReports(w.reactors[w.streams[o].reactor], CancelStream(o));
      case SendCancelOwner(c, q) => EnqueueReports(w.reactors[q], CancelOwner(c));
      case QueueShutdown(q) => EnqueueReports(w.reactors[q], Shutdown);
      case DrainNext(o, _, _) => EnqueueReports(w.reactors[w.streams[o].reactor], CancelStream(o));
      case _ =>
    }
  }

  /** What a reactor's thread goes on to record. */
  lemma ReportingAfter(w: World, r: nat)
    requires Enabled(w, ReportNext(r))
    ensures var at, w' := w.reactors[r].reporting.value, AfterReport(w, r);
      var (u, next) := ReportSection(w.streams[at.stream], at.stage);
      && w'.reactors.Keys == w.reactors.Keys && w'.streams == w.streams[at.stream := u]
      && (forall o :: o in w.reactors && o != r ==> w'.reactors[o] == w.reactors[o])
      && w'.reactors[r].reporting == (if next.Some? then Some(At(at.stream, next.value)) else None)
  {
    hide Enqueued, ReportSection;
    var at := w.reactors[r].reporting.value;
    var next := ReportSection(w.streams[at.stream], at.stage).1;
    EnqueueReports(w.reactors[r].(reporting := if next.Some? then Some(At(at.stream, next.value)) else None),
                   CancelStream(at.stream));
  }

  /** The marks a step leaves on a stream it does not concern. */
  lemma MarksStay(w: World, step: Step, s: nat)
    requires Enabled(w, step) && s in w.streams && Others(step, s) && !step.ReportNext?
    ensures var w' := Apply(w, step);
      && s in w'.streams && w'.streams[s].reactor == w.streams[s].reactor
      && w'.streams[s].failed == w.streams[s].failed && w'.streams[s].suppressed == w.streams[s].suppressed
  {
    hide Closing, Free, Enqueued, ProcessSection, ArriveSection, Submit, DrainSection;
    match step {
      case Arrive(_, work) => ArriveRecords(w.streams[s], work);
      case Advance(_) => EndRecords(w.streams[s]);
      case _ =>
    }
  }

  /** Nothing is recorded by the reactor's thread, and no refusal begins it. */
  lemma NoReport(w: World, step: Step, s: nat)
    requires Inv(w) && Enabled(w, step) && s in w.streams && Others(step, s) && !Refused(w, step, s)
    requires w.streams[s].reactor in w.reactors && ReportOf(w, s).None?
    ensures var w' := Apply(w, step);
      && s in w'.streams && w'.streams[s].reactor in w'.reactors && ReportOf(w', s).None?
      && w'.streams[s].failed == w.streams[s].failed && w'.streams[s].suppressed == w.streams[s].suppressed
  {
    hide Inv, ReportSection, AfterReport;
    if step.ReportNext? {
      ReportedIsKnown(w, step.reactor);
      ReportingAfter(w, step.reactor);
    } else {
      MarksStay(w, step, s);
      if step.Arrive? { hide ArriveSection, Free; } else { ReportingStays(w, step, w.streams[s].reactor); hide Apply; }
    }
  }

  lemma EnqueueReports(q: Reactor, command: Command)
    ensures Enqueued(q, command).reporting == q.reporting
  {
  }

  lemma CloseReports(q: Reactor, closing: set<nat>)
    ensures Closing(q, closing).reporting == q.reporting
  {
  }

  lemma ProcessReports(q: Reactor, streams: map<nat, Stream>, admitted: bool)
    requires q.batch != []
    ensures ProcessSection(q, streams, admitted).reporting == q.reporting
  {
  }

  lemma ArriveRecords(u: Stream, work: Work)
    ensures ArriveSection(u, work).reactor == u.reactor && ArriveSection(u, work).failed == u.failed
    ensures ArriveSection(u, work).suppressed == u.suppressed
  {
  }

  lemma EndRecords(u: Stream)
    ensures var v := Submit(u.(ended := u.ended + 1), Terminal);
      v.reactor == u.reactor && v.failed == u.failed && v.suppressed == u.suppressed
  {
  }

  lemma ReportedIsKnown(w: World, r: nat)
    requires Inv(w) && r in w.reactors && w.reactors[r].reporting.Some?
    ensures Known(w.reactors[r].reporting.value.stream, r, w.streams)
  {
    assert ReactorOk(w.reactors[r], r, w.streams, w.clients);
    hide QueueOk, StreamsOk, Counts;
  }

  // ----- The drain records ----------------------------------------------------

  /** A drain is recording an error that no one recorded before. */
  ghost predicate Recording(w: World, s: nat)
  {
    && s in w.streams && w.streams[s].reactor in w.reactors
    && var u := w.streams[s];
       || (u.drains == [Reporting(Locking)] && !u.failed && ReportOf(w, s).None?)
       || (u.drains == [Reporting(Suppressing)] && u.failed)
       || (u.drains == [Reporting(Cancelling)] && u.failed && u.suppressed)
  }

  /** The step queues the cancellation of the stream's transfer on its reactor. */
  ghost predicate QueuesCancel(w: World, step: Step, s: nat)
  {
    && Enabled(w, step) && s in w.streams
    && var r, w' := w.streams[s].reactor, Apply(w, step);
       && r in w.reactors && r in w'.reactors
       && w'.reactors[r].commands == w.reactors[r].commands + [CancelStream(s)]
  }

  lemma OwnDrain(w: World, s: nat, i: nat, ok: bool)
    requires Inv(w) && Recording(w, s) && Enabled(w, DrainNext(s, i, ok))
    ensures var w' := AfterDrain(w, s, i, ok);
      && s in w'.streams && w'.streams[s].handled == w.streams[s].handled
      && (w.streams[s].failed ==> w'.streams[s].failed)
      && (Recording(w', s) ||
          (w'.streams[s].failed && w'.streams[s].suppressed && QueuesCancel(w, DrainNext(s, i, ok), s)))
  {
    hide Inv;
    var u := w.streams[s];
    var v := DrainSection(u, i, w.clients[u.owner].shuttingDown, ok);
    assert u.drains == [u.drains[0]] && forall d :: u.drains[0 := d] == [d];
  }

  lemma RecordingStep(w: World, step: Step, s: nat)
    requires Inv(w) && Recording(w, s) && Enabled(w, step) && (Refused(w, step, s) ==> w.streams[s].failed)
    ensures var w' := Apply(w, step);
      && s in w'.streams && w'.streams[s].handled == w.streams[s].handled
      && (w.streams[s].failed ==> w'.streams[s].failed)
      && (Recording(w', s) || (w'.streams[s].failed && w'.streams[s].suppressed && QueuesCancel(w, step, s)))
  {
    hide Inv, AfterDrain, QueuesCancel;
    StepKeeps(w, step);
    if Others(step, s) {
      OthersLeave(w, step, s);
      if !w.streams[s].failed { NoReport(w, step, s); }
      RegisteredStays(w, step, s);
      hide Apply;
    } else {
      OwnDrain(w, s, step.index, step.ok);
    }
  }

  lemma RegisteredStays(w: World, step: Step, s: nat)
    requires Inv(w) && Enabled(w, step) && s in Apply(w, step).streams && Inv(Apply(w, step))
    ensures var w' := Apply(w, step); w'.streams[s].reactor in w'.reactors && w'.streams[s].owner in w'.clients
  {
    hide Apply, StreamsOk, ReactorsOk, Counts;
  }

  // ----- Suppressed streams ---------------------------------------------------

  lemma QuietStays(w: World, step: Step, c: nat)
    requires Enabled(w, step) && c in w.clients
    ensures c in Apply(w, step).clients
    ensures w.clients[c].shuttingDown ==> Apply(w, step).clients[c].shuttingDown
  {
    hide Closing, Free, Enqueued, ProcessSection, ArriveSection, Submit, DrainSection, ReportSection;
  }

  lemma SuppressedDrain(w: World, s: nat, i: nat, ok: bool)
    requires Enabled(w, DrainNext(s, i, ok)) && Suppresses(w, s)
    ensures var w' := AfterDrain(w, s, i, ok);
      && s in w'.streams && w'.streams[s].owner == w.streams[s].owner && w'.clients == w.clients
      && (w.streams[s].suppressed ==> w'.streams[s].suppressed) && (w.streams[s].failed ==> w'.streams[s].failed)
      && w'.streams[s].handled == w.streams[s].handled
  {
  }

  lemma SuppressedStep(w: World, step: Step, s: nat)
    requires Inv(w) && Enabled(w, step) && s in w.streams && w.streams[s].owner in w.clients && Suppresses(w, s)
    ensures var w' := Apply(w, step);
      && s in w'.streams && w'.streams[s].owner in w'.clients && Suppresses(w', s)
      && (w.streams[s].suppressed ==> w'.streams[s].suppressed) && (w.streams[s].failed ==> w'.streams[s].failed)
      && w'.streams[s].handled == w.streams[s].handled
  {
    hide Inv, AfterDrain;
    if Others(step, s) {
      OthersLeave(w, step, s);
      QuietStays(w, step, w.streams[s].owner);
      hide Apply;
    } else {
      SuppressedDrain(w, s, step.index, step.ok);
    }
  }

  /** Once callbacks are suppressed, nothing is handled any more, whatever runs. */
  lemma {:induction false} SuppressedIsSilent(w: World, steps: seq<Step>, w': World, s: nat)
    requires Inv(w) && Reaches(w, steps, w') && s in w.streams && w.streams[s].owner in w.clients && Suppresses(w, s)
    ensures s in w'.streams && w'.streams[s].handled == w.streams[s].handled
    ensures (w.streams[s].suppressed ==> w'.streams[s].suppressed) && (w.streams[s].failed ==> w'.streams[s].failed)
    decreases |steps|
  {
    hide Inv, Enabled, Apply, Suppresses;
    if steps != [] {
      SuppressedStep(w, steps[0], s);
      StepKeeps(w, steps[0]);
      SuppressedIsSilent(Apply(w, steps[0]), steps[1..], w', s);
    }
  }

  // ----- A handler fails ------------------------------------------------------

  /** Along the run every task of the stream finds room. */
  ghost predicate Unrefused(w: World, steps: seq<Step>, s: nat)
    decreases |steps|
  {
    steps == [] ||
    (Enabled(w, steps[0]) && !Refused(w, steps[0], s) && Unrefused(Apply(w, steps[0]), steps[1..], s))
  }

  /** Along the run the cancellation of the stream's transfer is queued. */
  ghost predicate CancelQueued(w: World, steps: seq<Step>, s: nat)
    decreases |steps|
  {
    && steps != [] && Enabled(w, steps[0])
    && (QueuesCancel(w, steps[0], s) || CancelQueued(Apply(w, steps[0]), steps[1..], s))
  }

  lemma {:induction false} RecordingRun(w: World, steps: seq<Step>, w': World, s: nat)
    requires Inv(w) && Reaches(w, steps, w') && Recording(w, s) && (w.streams[s].failed || Unrefused(w, steps, s))
    ensures s in w'.streams && w'.streams[s].handled == w.streams[s].handled
    ensures Recording(w', s) || (w'.streams[s].failed && w'.streams[s].suppressed && CancelQueued(w, steps, s))
    decreases |steps|
  {
    hide Inv, Enabled, Apply, Recording, QueuesCancel, Refused;
    RecordingIsKnown(w, s);
    if steps != [] {
      var next := Apply(w, steps[0]);
      RecordingStep(w, steps[0], s);
      StepKeeps(w, steps[0]);
      if Recording(next, s) {
        RecordingRun(next, steps[1..], w', s);
      } else {
        RegisteredStays(w, steps[0], s);
        SuppressedIsSilent(next, steps[1..], w', s);
      }
    }
  }

  lemma RecordingIsKnown(w: World, s: nat)
    requires Recording(w, s)
    ensures s in w.streams
  {
  }

  /** A metadata or chunk handler is about to fail; no error was recorded before and none is being recorded. */
  ghost predicate FailsFirst(w: World, s: nat, i: nat)
  {
    && Enabled(w, DrainNext(s, i, false))
    && w.streams[s].drains[i].Calling? && !w.streams[s].drains[i].work.Terminal?
    && !w.streams[s].failed && ReportOf(w, s).None?
  }

  /** When a handler fails first: in every continuation in which the stream's queue refuses nothing, nothing more is
      handled; the drain records the error, and before it takes another task the callbacks are suppressed and the
      transfer's cancellation has been
      queued. The completion handler is given the error. */
  lemma FailureStopsTheStream(w: World, s: nat, i: nat, steps: seq<Step>, w': World)
    requires Reachable(w) && FailsFirst(w, s, i)
    requires Reaches(AfterDrain(w, s, i, false), steps, w') && Unrefused(AfterDrain(w, s, i, false), steps, s)
    ensures s in w'.streams && w'.streams[s].handled == w.streams[s].handled
    ensures !(exists at :: w'.streams[s].drains == [Reporting(at)]) ==>
      && w'.streams[s].failed && w'.streams[s].suppressed
      && CancelQueued(AfterDrain(w, s, i, false), steps, s)
    ensures w'.streams[s].completed == 1 ==> w'.streams[s].failure
  {
    hide Reachable, Inv, Reaches, AfterDrain, Recording;
    var next := AfterDrain(w, s, i, false);
    ReachableInv(w);
    FailureBegins(w, s, i);
    StepKeeps(w, DrainNext(s, i, false));
    RecordingRun(next, steps, w', s);
    RunKeeps(next, steps, w');
    if Recording(w', s) { RecordingShape(w', s); } else if w'.streams[s].completed == 1 { ToldOf(w', s); }
  }

  lemma RecordingShape(w: World, s: nat)
    requires Inv(w) && Recording(w, s)
    ensures s in w.streams && (exists at :: w.streams[s].drains == [Reporting(at)]) && w.streams[s].completed != 1
  {
    hide Inv;
    LocalOf(w, s);
  }

  lemma ToldOf(w: World, s: nat)
    requires Inv(w) && s in w.streams && w.streams[s].completed == 1
    ensures w.streams[s].failure == w.streams[s].failed
  {
    hide Inv;
    LocalOf(w, s);
  }

  lemma FailureBegins(w: World, s: nat, i: nat)
    requires Inv(w) && FailsFirst(w, s, i)
    ensures Recording(AfterDrain(w, s, i, false), s)
    ensures AfterDrain(w, s, i, false).streams[s].handled == w.streams[s].handled
  {
    hide Inv;
    DrainIsScheduled(w, s);
    var u := w.streams[s];
    assert u.drains == [u.drains[0]] && forall d :: u.drains[0 := d] == [d];
  }

  // ----- Every recorded error cancels -------------------------------------------

  /** An error is recorded and whoever recorded it is about to suppress the callbacks or to cancel the transfer. */
  ghost predicate Reacting(w: World, s: nat)
  {
    && s in w.streams && w.streams[s].reactor in w.reactors && w.streams[s].failed
    && (|| ReportOf(w, s) == Some(Suppressing) || w.streams[s].drains == [Reporting(Suppressing)]
        || (w.streams[s].suppressed &&
            (ReportOf(w, s) == Some(Cancelling) || w.streams[s].drains == [Reporting(Cancelling)])))
  }

  /** No error of the stream is recorded yet. */
  predicate Unfailed(w: World, s: nat)
  {
    s in w.streams ==> !w.streams[s].failed
  }

  /** What one step of the only drain does to the marks. */
  lemma DrainMarks(u: Stream, quiet: bool, ok: bool)
    requires |u.drains| == 1
    ensures var d, v := u.drains[0], DrainSection(u, 0, quiet, ok);
      && v.reactor == u.reactor
      && (v.failed <==> u.failed || d == Reporting(Locking))
      && (v.suppressed <==> u.suppressed || d == Reporting(Suppressing))
      && (d == Reporting(Locking) && !u.failed ==> v.drains == [Reporting(Suppressing)])
      && (d == Reporting(Suppressing) ==> v.drains == [Reporting(Cancelling)])
  {
    assert u.drains == [u.drains[0]] && forall d :: u.drains[0 := d] == [d];
  }

  lemma ReactingDrain(w: World, s: nat, i: nat, ok: bool)
    requires Inv(w) && Enabled(w, DrainNext(s, i, ok)) && (Unfailed(w, s) || Reacting(w, s))
    ensures var w' := AfterDrain(w, s, i, ok);
      || Unfailed(w', s) || Reacting(w', s)
      || (w'.streams[s].failed && w'.streams[s].suppressed && QueuesCancel(w, DrainNext(s, i, ok), s))
  {
    hide Inv, DrainSection, Placed, TerminalOnce, Pipeline, SerialDispatch.Within, Told;
    LocalOf(w, s);
    EnqueueReports(w.reactors[w.streams[s].reactor], CancelStream(s));
    var u := w.streams[s];
    assert u.drains == [u.drains[0]];
    DrainMarks(u, w.clients[u.owner].shuttingDown, ok);
    if u.drains[0] == Reporting(Cancelling) {
      assert QueuesCancel(w, DrainNext(s, i, ok), s);
    } else {
      hide QueuesCancel;
    }
  }

  lemma ReactingReport(w: World, r: nat, s: nat)
    requires Inv(w) && Enabled(w, ReportNext(r)) && w.reactors[r].reporting.value.stream == s
    requires s in w.streams && w.streams[s].reactor == r && (Unfailed(w, s) || Reacting(w, s))
    ensures var w' := AfterReport(w, r);
      || Reacting(w', s)
      || (w'.streams[s].failed && w'.streams[s].suppressed && QueuesCancel(w, ReportNext(r), s))
  {
    hide Inv;
    LocalOf(w, s);
    ReportingAfter(w, r);
    ReportLeaves(w.streams[s], w.reactors[r].reporting.value.stage);
    hide Placed, TerminalOnce, Serial, Pipeline;
  }

  lemma ReactingElsewhere(w: World, step: Step, s: nat)
    requires Inv(w) && Enabled(w, step) && s in w.streams && Others(step, s) && (Unfailed(w, s) || Reacting(w, s))
    requires step.ReportNext? ==> w.reactors[step.reactor].reporting.value.stream != s
    ensures Unfailed(Apply(w, step), s) || Reacting(Apply(w, step), s)
  {
    hide Inv, AfterReport, ReportSection, TrackOf;
    StepKeeps(w, step);
    OthersLeave(w, step, s);
    RegisteredStays(w, step, s);
    if step.ReportNext? {
      ReportingAfter(w, step.reactor);
    } else {
      MarksStay(w, step, s);
    }
    if Reacting(w, s) { ReportStays(w, step, s); }
    hide Apply;
  }

  /** A recording under way stays where it is. */
  lemma ReportStays(w: World, step: Step, s: nat)
    requires Inv(w) && Enabled(w, step) && Reacting(w, s) && Others(step, s)
    requires step.ReportNext? ==> w.reactors[step.reactor].reporting.value.stream != s
    requires s in Apply(w, step).streams && Apply(w, step).streams[s].reactor == w.streams[s].reactor
    requires w.streams[s].reactor in Apply(w, step).reactors
    ensures ReportOf(w, s).Some? ==> ReportOf(Apply(w, step), s) == ReportOf(w, s)
  {
    hide Inv, AfterReport, ReportSection, ArriveSection;
    var r := w.streams[s].reactor;
    if step.ReportNext? {
      ReportingAfter(w, step.reactor);
    } else if !step.Arrive? {
      ReportingStays(w, step, r);
    }
  }

  lemma ReactingStep(w: World, step: Step, s: nat)
    requires Inv(w) && Enabled(w, step) && (Unfailed(w, s) || Reacting(w, s))
    ensures var w' := Apply(w, step);
      || Unfailed(w', s) || Reacting(w', s)
      || (s in w'.streams && w'.streams[s].failed && w'.streams[s].suppressed && QueuesCancel(w, step, s))
  {
    hide Inv, AfterReport, AfterDrain, Reacting, QueuesCancel;
    if s !in w.streams {
      NewIsClean(w, step, s);
    } else if !Others(step, s) {
      ReactingDrain(w, s, step.index, step.ok);
      DrainKeepsStreams(w, step.stream, step.index, step.ok);
    } else if step.ReportNext? && w.reactors[step.reactor].reporting.value.stream == s {
      ReportedIsKnown(w, step.reactor);
      ReactingReport(w, step.reactor, s);
      ReportingAfter(w, step.reactor);
    } else {
      ReactingElsewhere(w, step, s);
    }
  }

  lemma {:induction false} ReactingRun(w: World, steps: seq<Step>, w': World, s: nat)
    requires Inv(w) && Reaches(w, steps, w') && (Unfailed(w, s) || Reacting(w, s))
    ensures Unfailed(w', s) || Reacting(w', s) ||
      (s in w'.streams && w'.streams[s].failed && w'.streams[s].suppressed && CancelQueued(w, steps, s))
    decreases |steps|
  {
    hide Inv, Enabled, Apply, Unfailed, Reacting, QueuesCancel;
    if steps != [] {
      var next := Apply(w, steps[0]);
      ReactingStep(w, steps[0], s);
      StepKeeps(w, steps[0]);
      if Unfailed(next, s) || Reacting(next, s) {
        ReactingRun(next, steps[1..], w', s);
      } else {
        RegisteredStays(w, steps[0], s);
        SuppressedIsSilent(next, steps[1..], w', s);
      }
    }
  }

  /** Whoever records it, a handler's drain or the reactor's thread for a refused task: once an error is recorded and
      no one is recording any more, the callbacks are suppressed and the transfer's cancellation has been queued. */
  lemma RecordedErrorsCancel(start: World, steps: seq<Step>, w: World, s: nat)
    requires Initial(start) && Reaches(start, steps, w) && s in w.streams && w.streams[s].failed
    requires w.streams[s].reactor in w.reactors && ReportOf(w, s).None?
    requires forall i :: 0 <= i < |w.streams[s].drains| ==> !w.streams[s].drains[i].Reporting?
    ensures w.streams[s].suppressed && CancelQueued(start, steps, s)
  {
    InitialInv(start);
    assert Unfailed(start, s);
    hide Inv, Initial, Reaches, CancelQueued;
    ReactingRun(start, steps, w, s);
    assert |w.streams[s].drains| == 1 ==> !w.streams[s].drains[0].Reporting?;
  }

  // ----- Nothing fails --------------------------------------------------------

  /** No error of the stream is recorded, or being recorded. */
  ghost predicate Clean(w: World, s: nat)
  {
    s in w.streams ==>
      && w.streams[s].reactor in w.reactors && ReportOf(w, s).None?
      && !w.streams[s].failed && !w.streams[s].suppressed
      && forall i :: 0 <= i < |w.streams[s].drains| ==> !w.streams[s].drains[i].Reporting?
  }

  /** A handler of the stream fails, or a task of it is refused. */
  ghost predicate GoesWrong(w: World, step: Step, s: nat)
  {
    || Refused(w, step, s)
    || (&& step.DrainNext? && step.stream == s && !step.ok && s in w.streams && step.index < |w.streams[s].drains|
        && w.streams[s].drains[step.index].Calling?)
  }

  ghost predicate AllGoesWell(w: World, steps: seq<Step>, s: nat)
    decreases |steps|
  {
    steps == [] ||
    (Enabled(w, steps[0]) && !GoesWrong(w, steps[0], s) && AllGoesWell(Apply(w, steps[0]), steps[1..], s))
  }

  lemma CleanDrain(w: World, s: nat, i: nat, ok: bool)
    requires Enabled(w, DrainNext(s, i, ok)) && Clean(w, s) && !GoesWrong(w, DrainNext(s, i, ok), s)
    ensures Clean(AfterDrain(w, s, i, ok), s)
  {
  }

  lemma CleanStep(w: World, step: Step, s: nat)
    requires Inv(w) && Enabled(w, step) && Clean(w, s) && !GoesWrong(w, step, s)
    ensures Clean(Apply(w, step), s)
  {
    hide Inv, AfterDrain, TrackOf;
    StepKeeps(w, step);
    if s !in w.streams {
      NewIsClean(w, step, s);
    } else if Others(step, s) {
      OthersLeave(w, step, s);
      NoReport(w, step, s);
      hide Apply;
    } else {
      CleanDrain(w, s, step.index, step.ok);
    }
  }

  lemma NewIsClean(w: World, step: Step, s: nat)
    requires Inv(w) && Enabled(w, step) && s !in w.streams
    ensures Clean(Apply(w, step), s)
  {
    if step.Start? && step.stream == s {
      NewTrack(w, s, step.reactor);
      EnqueueReports(w.reactors[step.reactor], Add(s));
      hide Inv, Enqueued;
    } else {
      StillUnknown(w, step, s);
    }
  }

  lemma StillUnknown(w: World, step: Step, s: nat)
    requires Enabled(w, step) && s !in w.streams && !(step.Start? && step.stream == s)
    ensures s !in Apply(w, step).streams
  {
    hide Closing, Free, ProcessSection, ArriveSection, Submit, DrainSection, ReportSection, Enqueued;
  }

  lemma {:induction false} CleanRun(w: World, steps: seq<Step>, w': World, s: nat)
    requires Inv(w) && Reaches(w, steps, w') && Clean(w, s) && AllGoesWell(w, steps, s)
    ensures Clean(w', s)
    decreases |steps|
  {
    hide Inv, Enabled, Apply, Clean, GoesWrong;
    if steps != [] {
      CleanStep(w, steps[0], s);
      StepKeeps(w, steps[0]);
      CleanRun(Apply(w, steps[0]), steps[1..], w', s);
    }
  }

  /** Errors have causes: unless a handler of the stream fails or a task of it is refused, its completion is given no
      error, and if its client is not shutting down it comes after everything that arrived was handled. */
  lemma SuccessIsReported(start: World, steps: seq<Step>, w: World, s: nat)
    requires Initial(start) && Reaches(start, steps, w) && AllGoesWell(start, steps, s)
    requires s in w.streams && w.streams[s].completed == 1
    ensures !w.streams[s].failure
    ensures w.streams[s].owner in w.clients
    ensures !w.clients[w.streams[s].owner].shuttingDown ==> w.streams[s].handled == w.streams[s].arrived
  {
    InitialInv(start);
    assert Clean(start, s);
    assert Reachable(w);
    hide Inv, Initial, Reaches, AllGoesWell, Reachable;
    CleanRun(start, steps, w, s);
    CompletionTellsAll(w, s);
  }
}
