/** What holds of one stream, given where its reactor has it and whether its client suppresses callbacks. */
module StreamLocal {
  import opened Protocol
  import opened SerialDispatch
  import opened Streams

  /** Where a reactor has a stream: its add command queued, its transfer in the table, its completion due or under way,
      its callback recording an error. */
  datatype Track = Track(adding: bool, listed: bool, closing: bool, stage: Option<Stage>, report: Option<Report>)

  function TrackOf(r: Reactor, s: nat): Track
  {
    Track(
      Add(s) in r.batch + r.commands,
      s in r.transfers,
      s in r.closing,
      if r.current.Some? && r.current.value.stream == s then Some(r.current.value.stage) else None,
      if r.reporting.Some? && r.reporting.value.stream == s then Some(r.reporting.value.stage) else None)
  }

  /** The life of the transfer. */
  predicate Placed(u: Stream, t: Track)
  {
    && (!u.done ==> !u.released && u.ended == 0 && t.stage.None? && (t.adding || t.listed || t.closing))
    && (u.done ==> !t.adding && !t.listed)
    && (u.done && t.stage.None? ==> u.released && u.ended == 1)
    && (t.stage == Some(Finalizing) ==> u.done && !u.released && u.ended == 0)
    && (t.stage == Some(Ending) ==> u.done && u.released && u.ended == 0)
    && (t.stage.Some? ==> !t.closing)
    && !(t.adding && (t.listed || t.closing)) && !(t.listed && t.closing)
    && (t.report.Some? ==> t.listed)
  }

  function Works(u: Stream): seq<Work>
  {
    TasksOf(u.dispatch.tasks)
  }

  /** The dispatch queue is serial and within its limits. */
  ghost predicate Serial(u: Stream)
  {
    && |u.drains| == (if u.dispatch.scheduled then 1 else 0)
    && (u.dispatch.tasks != [] ==> u.dispatch.scheduled)
    && Within(u.dispatch)
    && |u.dispatch.tasks| <= MAX_TASKS + u.ended
  }

  /** The terminal task is queued by the one call of `Finish`, is last, and completes the stream once. */
  predicate TerminalOnce(u: Stream)
  {
    && u.ended <= 1 && u.completed <= u.ended
    && (forall i :: 0 <= i < |Works(u)| && Works(u)[i].Terminal? ==>
          i == |Works(u)| - 1 && u.ended == 1 && u.completed == 0 && u.drains != [Checking(Terminal)])
    && (u.drains == [Checking(Terminal)] ==> u.ended == 1 && u.completed == 0 && Works(u) == [])
    && (u.drains == [Calling(Terminal)] ==> u.completed == 1)
    && (u.ended == 1 && u.completed == 0 ==>
          u.drains == [Checking(Terminal)] || (Works(u) != [] && Works(u)[|Works(u)| - 1].Terminal?))
    && (u.completed == 1 ==>
          Works(u) == [] && (u.drains == [] || u.drains == [Idle] || u.drains == [Calling(Terminal)]))
  }

  /** The tasks that call a handler on what was received. */
  function Received(works: seq<Work>): seq<Work>
  {
    if works == [] then []
    else Received(works[..|works| - 1]) + (if works[|works| - 1].Terminal? then [] else [works[|works| - 1]])
  }

  /** The task of that kind that a drain has taken and not yet decided on. */
  function Taken(u: Stream): seq<Work>
  {
    if |u.drains| == 1 && u.drains[0].Checking? && !u.drains[0].work.Terminal? then [u.drains[0].work] else []
  }

  /** No callback is suppressed, and the running drain is not about to suppress them. */
  predicate Open(u: Stream, quiet: bool)
  {
    !quiet && !u.suppressed && u.drains != [Reporting(Suppressing)]
  }

  /** What is handled, taken to be handled next, and queued. */
  function Pipeline(u: Stream): seq<Work>
  {
    u.handled + (Taken(u) + Received(Works(u)))
  }

  /** What is handled is a prefix of what arrived; while the stream is open, so it is with what is still queued, and
      none is missing unless the reactor is just recording that one was refused. */
  predicate Delivered(u: Stream, t: Track, quiet: bool)
  {
    && u.handled <= u.arrived
    && (Open(u, quiet) ==> Pipeline(u) <= u.arrived && (t.report.None? ==> Pipeline(u) == u.arrived))
    && (t.report == Some(Cancelling) || u.drains == [Reporting(Cancelling)] ==> u.suppressed)
    && (u.suppressed || t.report == Some(Suppressing) || u.drains == [Reporting(Suppressing)] ==> u.failed)
    && (u.failed ==> u.suppressed || u.drains == [Reporting(Suppressing)] || t.report == Some(Suppressing))
  }

  /** The completion handler was told of an error exactly if one was recorded. */
  predicate Told(u: Stream)
  {
    u.completed == 1 ==> u.failure == u.failed
  }

  ghost predicate Local(u: Stream, t: Track, quiet: bool)
  {
    Placed(u, t) && Serial(u) && TerminalOnce(u) && Delivered(u, t, quiet) && Told(u)
  }

  // ----- Each section keeps it -----------------------------------------------

  lemma ReceivedAppend(works: seq<Work>, work: Work)
    ensures Received(works + [work]) == Received(works) + (if work.Terminal? then [] else [work])
  {
    assert (works + [work])[..|works|] == works;
  }

  lemma {:induction false} ReceivedPrepend(work: Work, works: seq<Work>)
    ensures Received([work] + works) == (if work.Terminal? then [] else [work]) + Received(works)
  {
    if works == [] {
      assert [work] + works == [work] && [work][..0] == [];
      assert Received([]) == [];
    } else {
      ReceivedPrepend(work, works[..|works| - 1]);
      assert ([work] + works)[..|works|] == [work] + works[..|works| - 1];
    }
  }

  /** What submitting a task does to the queue, the drains and the pipeline. */
  lemma Submitted(u: Stream, work: Work)
    requires |u.drains| == (if u.dispatch.scheduled then 1 else 0)
    ensures var v := Submit(u, work);
      && Works(v) == Works(u) + [work]
      && v.drains == (if u.drains == [] then [Idle] else u.drains)
      && Pipeline(v) == Pipeline(u) + (if work.Terminal? then [] else [work])
  {
    var v := Submit(u, work);
    assert Works(v) == Works(u) + [work];
    assert u.drains == [] ==> u.drains + [Idle] == [Idle];
    ReceivedAppend(Works(u), work);
    assert Taken(v) == Taken(u);
    var more := if work.Terminal? then [] else [work];
    assert u.handled + (Taken(u) + (Received(Works(u)) + more)) == u.handled + (Taken(u) + Received(Works(u))) + more;
  }

  lemma SubmitSerial(u: Stream, work: Work, terminal: bool)
    requires Serial(u) && !Refuses(u.dispatch, Size(work), terminal) && (terminal ==> Size(work) == 0)
    ensures var v := Submit(u, work);
      && |v.drains| == 1 && v.dispatch.scheduled && Within(v.dispatch)
      && |v.dispatch.tasks| <= MAX_TASKS + u.ended + (if terminal then 1 else 0)
      && v.drains == (if u.drains == [] then [Idle] else u.drains)
  {
    PushedWithin(u.dispatch, work, Size(work), terminal);
  }

  lemma LocalStart(owner: nat, reactor: nat)
    ensures Local(NewStream(owner, reactor), Track(true, false, false, None, None), false)
  {
    assert Works(NewStream(owner, reactor)) == [];
  }

  lemma LocalQuiet(u: Stream, t: Track)
    requires Local(u, t, false)
    ensures Local(u, t, true)
  {
  }

  lemma LocalAdmit(u: Stream, t: Track, quiet: bool)
    requires Local(u, t, quiet) && t.adding
    ensures Local(u, t.(adding := false, listed := true), quiet)
    ensures Local(u, t.(adding := false, closing := true), quiet)
  {
  }

  /** A transfer leaves the table; one that was cancelled when already done is completed to no effect. */
  lemma LocalClose(u: Stream, t: Track, quiet: bool)
    requires Local(u, t, quiet) && !t.adding && !t.closing && t.stage.None? && t.report.None?
    ensures Local(u, t.(listed := false, closing := true), quiet)
  {
  }

  lemma LocalPick(u: Stream, t: Track, quiet: bool)
    requires Local(u, t, quiet) && t.closing
    ensures u.done ==> Local(u, t.(closing := false), quiet)
    ensures !u.done ==> Local(u.(done := true), t.(closing := false, stage := Some(Finalizing)), quiet)
  {
    assert Works(u.(done := true)) == Works(u);
  }

  lemma LocalFinalize(u: Stream, t: Track, quiet: bool)
    requires Local(u, t, quiet) && t.stage == Some(Finalizing)
    ensures Local(u.(released := true), t.(stage := Some(Ending)), quiet)
  {
    assert Works(u.(released := true)) == Works(u);
  }

  lemma LocalEnd(u: Stream, t: Track, quiet: bool)
    requires Local(u, t, quiet) && t.stage == Some(Ending)
    ensures Local(Submit(u.(ended := u.ended + 1), Terminal), t.(stage := None), quiet)
  {
    hide Pipeline, Submit, Within;
    SameReceived(u, u.(ended := u.ended + 1));
    Submitted(u.(ended := u.ended + 1), Terminal);
    SubmitSerial(u, Terminal, true);
    SubmitKeeps(u.(ended := u.ended + 1), Terminal);
    assert Submit(u.(ended := u.ended + 1), Terminal).dispatch == Submit(u, Terminal).dispatch by { SubmitIgnores(u); }
  }

  lemma SubmitIgnores(u: Stream)
    ensures Submit(u.(ended := u.ended + 1), Terminal).dispatch == Submit(u, Terminal).dispatch
  {
  }

  lemma SubmitKeeps(u: Stream, work: Work)
    ensures var v := Submit(u, work); v == u.(dispatch := v.dispatch, drains := v.drains)
  {
  }

  /** Nothing that concerns what was received has changed. */
  lemma SameReceived(u: Stream, v: Stream)
    requires v.handled == u.handled && v.dispatch.tasks == u.dispatch.tasks && v.drains == u.drains
    ensures Works(v) == Works(u) && Pipeline(v) == Pipeline(u)
  {
  }

  lemma LocalArrive(u: Stream, t: Track, quiet: bool, work: Work)
    requires Local(u, t, quiet) && t.listed && t.report.None? && !work.Terminal?
    ensures Local(ArriveSection(u, work),
                  t.(report := if Refuses(u.dispatch, Size(work), false) then Some(Locking) else None), quiet)
  {
    hide Pipeline, Submit, Within, Refuses;
    var v := u.(arrived := u.arrived + [work]);
    SameReceived(u, v);
    Submitted(v, work);
    SubmitKeeps(v, work);
    if !Refuses(u.dispatch, Size(work), false) {
      SubmitSerial(v, work, false);
    }
  }

  lemma LocalReport(u: Stream, t: Track, quiet: bool)
    requires Local(u, t, quiet) && t.report.Some?
    ensures var (v, next) := ReportSection(u, t.report.value); Local(v, t.(report := next), quiet)
  {
    hide Pipeline, Within;
    SameReceived(u, ReportSection(u, t.report.value).0);
  }

  // ----- The drain loop -------------------------------------------------------

  lemma LocalDrain(u: Stream, t: Track, quiet: bool, i: nat, ok: bool)
    requires Local(u, t, quiet) && i < |u.drains|
    ensures Local(DrainSection(u, i, quiet, ok), t, quiet)
  {
    var v := DrainSection(u, i, quiet, ok);
    assert u.drains == [u.drains[0]];
    assert forall d :: u.drains[0 := d] == [d];
    if u.drains[0].Idle? {
      DrainIdle(u, t, quiet);
    } else {
      DrainTask(u, t, quiet, ok);
    }
  }

  lemma DrainIdle(u: Stream, t: Track, quiet: bool)
    requires Local(u, t, quiet) && u.drains == [Idle]
    ensures Local(DrainSection(u, 0, quiet, true), t, quiet)
  {
    hide Pipeline, Within, Popped, TerminalOnce;
    var v := DrainSection(u, 0, quiet, true);
    if u.dispatch.tasks == [] {
      WithinIgnoresSchedule(u.dispatch);
      assert v == u.(dispatch := u.dispatch.(scheduled := false), drains := []);
      RetiredDrain(u, v);
    } else {
      PoppedWithin(u.dispatch);
      assert v == u.(dispatch := Popped(u.dispatch), drains := [Checking(u.dispatch.tasks[0].task)]);
      TakenTask(u, v);
      TakenTerminal(u, v);
    }
  }

  lemma RetiredDrain(u: Stream, v: Stream)
    requires u.drains == [Idle] && u.dispatch.tasks == []
    requires v == u.(dispatch := u.dispatch.(scheduled := false), drains := [])
    ensures Pipeline(v) == Pipeline(u)
    ensures TerminalOnce(u) ==> TerminalOnce(v)
  {
    assert Works(v) == Works(u);
  }

  lemma TakenTask(u: Stream, v: Stream)
    requires u.drains == [Idle] && u.dispatch.tasks != []
    requires v == u.(dispatch := Popped(u.dispatch), drains := [Checking(u.dispatch.tasks[0].task)])
    ensures Works(u) == [u.dispatch.tasks[0].task] + Works(v)
    ensures |v.dispatch.tasks| == |u.dispatch.tasks| - 1 && v.dispatch.scheduled == u.dispatch.scheduled
    ensures Pipeline(v) == Pipeline(u)
  {
    assert Works(u) == [u.dispatch.tasks[0].task] + Works(v);
    ReceivedPrepend(u.dispatch.tasks[0].task, Works(v));
  }

  lemma TakenTerminal(u: Stream, v: Stream)
    requires TerminalOnce(u) && u.drains == [Idle] && u.dispatch.tasks != []
    requires v == u.(dispatch := v.dispatch, drains := [Checking(u.dispatch.tasks[0].task)])
    requires Works(u) == [u.dispatch.tasks[0].task] + Works(v)
    ensures TerminalOnce(v)
  {
    var works, rest := Works(u), Works(v);
    hide Works;
    assert forall i :: 0 <= i < |rest| ==> rest[i] == works[i + 1];
    if works[0].Terminal? { assert rest == []; }
  }

  /** A task runs: what was taken is handled, or skipped because the stream is not open. */
  lemma DrainTask(u: Stream, t: Track, quiet: bool, ok: bool)
    requires Local(u, t, quiet) && |u.drains| == 1 && !u.drains[0].Idle?
    ensures Local(DrainSection(u, 0, quiet, ok), t, quiet)
  {
    hide Delivered, TerminalOnce, Within, NextDrainer, Told;
    var v := DrainSection(u, 0, quiet, ok);
    assert u.drains == [u.drains[0]] && v.drains == [NextDrainer(u, u.drains[0], quiet, ok)];
    TaskDelivered(u, v, u.drains[0], t, quiet, ok);
    TaskTerminal(u, v, u.drains[0], quiet, ok);
    TaskTold(u, v, u.drains[0], quiet);
  }

  lemma TaskTold(u: Stream, v: Stream, d: Drainer, quiet: bool)
    requires TerminalOnce(u) && Told(u) && u.drains == [d] && !d.Idle?
    requires v.completed == if Calls(u, d, quiet) && d.work.Terminal? then u.completed + 1 else u.completed
    requires v.failed == (u.failed || d == Reporting(Locking))
    requires v.failure == if Calls(u, d, quiet) && d.work.Terminal? then u.failed else u.failure
    ensures Told(v)
  {
  }

  lemma TaskTerminal(u: Stream, v: Stream, d: Drainer, quiet: bool, ok: bool)
    requires TerminalOnce(u) && u.drains == [d] && !d.Idle? && v.drains == [NextDrainer(u, d, quiet, ok)]
    requires v.dispatch.tasks == u.dispatch.tasks && v.ended == u.ended
    requires v.completed == if Calls(u, d, quiet) && d.work.Terminal? then u.completed + 1 else u.completed
    ensures TerminalOnce(v)
  {
    assert Works(v) == Works(u);
    hide Works;
  }

  lemma TaskDelivered(u: Stream, v: Stream, d: Drainer, t: Track, quiet: bool, ok: bool)
    requires Delivered(u, t, quiet) && u.drains == [d] && !d.Idle? && v.drains == [NextDrainer(u, d, quiet, ok)]
    requires v.dispatch.tasks == u.dispatch.tasks && v.arrived == u.arrived
    requires v.failed == (u.failed || d == Reporting(Locking))
    requires v.suppressed == (u.suppressed || d == Reporting(Suppressing))
    requires v.handled == if Calls(u, d, quiet) && !d.work.Terminal? then u.handled + [d.work] else u.handled
    ensures Delivered(v, t, quiet)
  {
    hide Pipeline;
    if Open(u, quiet) {
      HandledTask(u, v);
    }
  }

  lemma HandledTask(u: Stream, v: Stream)
    requires v.handled + Taken(v) == u.handled + Taken(u) && v.dispatch.tasks == u.dispatch.tasks
    ensures Pipeline(v) == Pipeline(u) && v.handled + Taken(v) <= Pipeline(v)
  {
    assert Works(v) == Works(u);
    assert Pipeline(v) == v.handled + Taken(v) + Received(Works(v));
    assert Pipeline(u) == u.handled + Taken(u) + Received(Works(u));
  }
}
