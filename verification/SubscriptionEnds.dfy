/** How sessions end: teardown after a cancellation, exhausted streams, and streams ended too early. */
module SubscriptionEnds {
  import opened Subscription
  import opened SubscriptionInvariant
  import opened SubscriptionLocal
  import opened SubscriptionService
  import opened SubscriptionRuns

  /** What any step can make of one session: nothing, a place on a walker's list, or its own section. */
  predicate StepOn(g: Service, step: Step, s: SubId, v: Sub)
    requires Enabled(g, step) && s in g.subs
  {
    var u := g.subs[s];
    || v == u || v == u.(pub := ToLock) || v == u.(clo := ToLock)
    || (!OnTables(step) && step.s == s && v == Section(g, step))
  }

  lemma StepsAreLocal(g: Service, step: Step, s: SubId)
    requires Enabled(g, step) && s in g.subs
    ensures s in Apply(g, step).subs && StepOn(g, step, s, Apply(g, step).subs[s])
  {
    hide Section;
    if !OnTables(step) { StepChangesOne(g, step); }
  }

  // ----- Teardown ------------------------------------------------------------

  /** Nobody but the reader can reach the frame. */
  predicate Detached(u: Sub)
  {
    && u.cancel == Cancelled && !u.cont && u.frame != Undefined
    && forall p :: !Busy(u.Of(p))
  }

  lemma CancelledIsDetached(u: Sub)
    requires Local(u) && u.cancel == Cancelled
    ensures Detached(u)
  {
    forall p
      ensures !Busy(u.Of(p))
    {
      match p { case Publisher => case Closer => case Canceller => }
    }
  }

  lemma CancelledStays(g: Service, step: Step, s: SubId)
    requires Enabled(g, step) && s in g.subs && g.subs[s].cancel == Cancelled
    ensures s in Apply(g, step).subs && Apply(g, step).subs[s].cancel == Cancelled
  {
    hide Apply, Section, Enabled;
    StepsAreLocal(g, step, s);
    if !OnTables(step) && step.s == s {
      if BySignaller(step) { SignallerStaysCancelled(g, step); } else { ReaderStaysCancelled(g, step); }
    }
  }

  lemma SignallerStaysCancelled(g: Service, step: Step)
    requires Enabled(g, step) && BySignaller(step) && step.s in g.subs && g.subs[step.s].cancel == Cancelled
    ensures Section(g, step).cancel == Cancelled
  {
    hide Section;
    SignalLeavesRest(g, step);
  }

  /** What a signaller's section leaves alone. */
  predicate SignalLeaves(u: Sub, v: Sub, p: Signaller)
  {
    v.handed == u.handed && (u.late ==> v.late) && (!p.Canceller? ==> v.cancel == u.cancel)
  }

  lemma SignalLeavesRest(g: Service, step: Step)
    requires Enabled(g, step) && BySignaller(step)
    ensures SignalLeaves(g.subs[step.s], Section(g, step), step.p)
  {
    hide LockSection, TakeSection, ResumeSection, ReturnSection, DropSection, SignalLeaves;
    var u := g.subs[step.s];
    SectionsLeaveRest(u, step.p, if g.publication.Publishing? then UpdateEvent(g.publication.task)
                                 else SnapshotEvent(u.task));
  }

  lemma SectionsLeaveRest(u: Sub, p: Signaller, e: Event)
    ensures SignalLeaves(u, LockSection(u, p, e), p) && SignalLeaves(u, TakeSection(u, p), p)
    ensures SignalLeaves(u, ResumeSection(u, p), p) && SignalLeaves(u, ReturnSection(u, p), p)
    ensures SignalLeaves(u, DropSection(u, p), p)
  {
  }

  lemma ReaderStaysCancelled(g: Service, step: Step)
    requires Enabled(g, step) && !OnTables(step) && !BySignaller(step) && g.subs[step.s].cancel == Cancelled
    ensures Section(g, step).cancel == Cancelled
  {
    hide FrameSection;
    if step.RunFrame? { FrameLeavesRest(g.subs[step.s]); }
  }

  /** Once the `Cancel` call that did the removal has returned, no signaller holds the continuation, none can ever
      store or take it again, and no step ever touches a destroyed frame: destroying the session is safe. */
  lemma {:induction false} TeardownIsSafe(g: Service, s: SubId, steps: seq<Step>, end: Service)
    requires Inv(g) && s in g.subs && g.subs[s].cancel == Cancelled && Reaches(g, steps, end)
    ensures s in end.subs && Detached(end.subs[s])
    decreases |steps|
  {
    hide Apply, Enabled, Local, Links;
    if steps == [] {
      CancelledIsDetached(g.subs[s]);
    } else {
      CancelledStays(g, steps[0], s);
      StepKeeps(g, steps[0]);
      TeardownIsSafe(Apply(g, steps[0]), s, steps[1..], end);
    }
  }

  // ----- Exhausted streams ---------------------------------------------------

  /** Nothing is left that could still be handed out, but perhaps the snapshot. */
  predicate Exhausted(u: Sub)
  {
    || u.done || u.frame.Destroyed?
    || (u.closed && u.events == [] && (InFlight(u) == [] || InFlight(u)[0].TaskEvent?))
  }

  /** Only the snapshot can still be added. */
  predicate NoMoreUpdates(before: seq<Event>, after: seq<Event>)
  {
    before <= after && forall i :: |before| <= i < |after| ==> after[i].TaskEvent?
  }

  lemma NotLiveIsExhausted(u: Sub)
    requires Local(u) && !IsLive(u)
    ensures Exhausted(u)
  {
  }

  lemma ExhaustedFrame(u: Sub)
    requires Local(u) && Exhausted(u) && u.frame.Running?
    ensures Exhausted(FrameSection(u))
  {
    var v := FrameSection(u);
    match u.frame.code {
      case AwaitSuspend => assert v == u.(frame := Running(AwaitResume));
      case AwaitResume => assert v == u.(frame := Running(Return));
      case _ =>
    }
  }

  lemma ExhaustedReader(g: Service, step: Step)
    requires Enabled(g, step) && !OnTables(step) && !BySignaller(step) && !step.RunFrame?
    requires Local(g.subs[step.s]) && Exhausted(g.subs[step.s])
    ensures Exhausted(Section(g, step)) && NoMoreUpdates(g.subs[step.s].handed, Section(g, step).handed)
  {
    hide Counted, LateFits, TerminalLast, CancelFits, NoLostWakeup, Accounts;
    if step.Destroy? { NobodyInside(g.subs[step.s]); }
  }

  /** A signaller's sections leave an exhausted stream exhausted: once closed, nothing is queued any more. */
  lemma ExhaustedSignaller(g: Service, step: Step)
    requires Enabled(g, step) && BySignaller(step) && Local(g.subs[step.s]) && Exhausted(g.subs[step.s])
    ensures Exhausted(Section(g, step)) && Section(g, step).handed == g.subs[step.s].handed
  {
    hide LockSection, TakeSection, DropSection, ResumeSection, ReturnSection, Local, Exhausted;
    var u := g.subs[step.s];
    match step {
      case Lock(_, p) => ExhaustedLock(u, p, if g.publication.Publishing? then UpdateEvent(g.publication.task)
                                             else SnapshotEvent(u.task));
      case Take(_, p) => ExhaustedTake(u, p);
      case Drop(_, p) => ExhaustedTake(u, p);
      case Resume(_, p) => ExhaustedResume(u, p);
      case ReturnFromResume(_, p) => ExhaustedReturn(u, p);
    }
  }

  lemma ExhaustedLock(u: Sub, p: Signaller, e: Event)
    requires Exhausted(u)
    ensures Exhausted(LockSection(u, p, e)) && LockSection(u, p, e).handed == u.handed
  {
    assert InFlight(LockSection(u, p, e)) == InFlight(u);
  }

  lemma ExhaustedTake(u: Sub, p: Signaller)
    requires Exhausted(u)
    ensures Exhausted(TakeSection(u, p)) && TakeSection(u, p).handed == u.handed
    ensures Exhausted(DropSection(u, p)) && DropSection(u, p).handed == u.handed
  {
    assert InFlight(TakeSection(u, p)) == InFlight(u) && InFlight(DropSection(u, p)) == InFlight(u);
  }

  lemma ExhaustedResume(u: Sub, p: Signaller)
    requires Local(u) && Exhausted(u) && u.Of(p) == Holding && u.resumer == Nobody
    ensures Exhausted(ResumeSection(u, p)) && ResumeSection(u, p).handed == u.handed
  {
    hide Counted, LateFits, TerminalLast, CancelFits, NoLostWakeup, Conserved;
    match p { case Publisher => case Closer => case Canceller => }
  }

  lemma ExhaustedReturn(u: Sub, p: Signaller)
    requires Local(u) && Exhausted(u) && u.Of(p) == Resuming && !u.frame.Running?
    ensures Exhausted(ReturnSection(u, p)) && ReturnSection(u, p).handed == u.handed
  {
    hide Counted, LateFits, TerminalLast, CancelFits, NoLostWakeup, Conserved;
    match p { case Publisher => case Closer => case Canceller => }
  }

  lemma ExhaustedStep(g: Service, step: Step, s: SubId)
    requires Enabled(g, step) && s in g.subs && Local(g.subs[s]) && Exhausted(g.subs[s])
    ensures s in Apply(g, step).subs && Exhausted(Apply(g, step).subs[s])
    ensures NoMoreUpdates(g.subs[s].handed, Apply(g, step).subs[s].handed)
  {
    hide Apply, Section, Local;
    StepsAreLocal(g, step, s);
    if !OnTables(step) && step.s == s {
      if step.RunFrame? {
        ExhaustedRun(g, step);
      } else if BySignaller(step) {
        ExhaustedSignaller(g, step);
      } else {
        ExhaustedReader(g, step);
      }
    }
  }

  lemma ExhaustedRun(g: Service, step: Step)
    requires Enabled(g, step) && step.RunFrame? && Local(g.subs[step.s]) && Exhausted(g.subs[step.s])
    ensures Exhausted(Section(g, step)) && Section(g, step).handed == g.subs[step.s].handed
  {
    hide Exhausted, Local, FrameSection;
    ExhaustedFrame(g.subs[step.s]);
    FrameLeavesRest(g.subs[step.s]);
  }

  /** A session that is not live has handed out every update it ever will: only the snapshot may still follow. */
  lemma {:induction false} NotLiveIsFinal(g: Service, s: SubId, steps: seq<Step>, end: Service)
    requires Inv(g) && s in g.subs && Exhausted(g.subs[s]) && Reaches(g, steps, end)
    ensures s in end.subs && NoMoreUpdates(g.subs[s].handed, end.subs[s].handed)
    decreases |steps|
  {
    hide Apply, Enabled, Local, Links, Exhausted;
    if steps != [] {
      ExhaustedStep(g, steps[0], s);
      StepKeeps(g, steps[0]);
      NotLiveIsFinal(Apply(g, steps[0]), s, steps[1..], end);
    }
  }

  // ----- The end of a stream -------------------------------------------------

  /** A stream that ends without a late signal was closed, and everything accepted before has been handed out; if
      neither a shutdown nor a cancellation closed it, it ends with the first terminal publication. */
  lemma EndWithoutLateSignalIsComplete(g: Service, s: SubId)
    requires Reachable(g) && s in g.subs && !g.subs[s].late && g.subs[s].frame == Suspended(FinalPoint)
    ensures g.subs[s].from <= |g.log|
    ensures var u := g.subs[s];
      && u.closed && u.handed == [SnapshotEvent(u.task)] + u.accepted
      && (!g.shutdown && u.cancel == NotCancelled ==>
           u.accepted == UpToTerminal(PublishedOn(g.log[u.from..], u.task.id)))
  {
    hide Inv, Reachable, Local;
    ReachableKeeps(g);
    SessionFits(g, s);
    EndIsEmpty(g.subs[s]);
    AcceptedAll(g, s);
  }

  lemma SessionFits(g: Service, s: SubId)
    requires Inv(g) && s in g.subs
    ensures Local(g.subs[s]) && Links(g) && SubFits(g, s)
  {
    hide Local;
  }

  lemma AcceptedAll(g: Service, s: SubId)
    requires Links(g) && s in g.subs && SubFits(g, s) && TerminalLast(g.subs[s]) && g.subs[s].closed
    ensures g.subs[s].from <= |g.log|
    ensures var u := g.subs[s];
      !g.shutdown && u.cancel == NotCancelled ==> u.accepted == UpToTerminal(PublishedOn(g.log[u.from..], u.task.id))
  {
    var u := g.subs[s];
    hide Registry, PublisherWalk, CloserWalk, LatestFits;
    PrefixUpToTerminal(u.accepted, PublishedOn(g.log[u.from..], u.task.id));
  }

  lemma EndIsEmpty(u: Sub)
    requires Local(u) && !u.late && u.frame == Suspended(FinalPoint)
    ensures u.closed && u.handed == Owed(u) && TerminalLast(u)
  {
    assert InFlight(u) == [];
  }

  lemma LateReaderHandsNothing(g: Service, step: Step)
    requires Enabled(g, step) && !OnTables(step) && !BySignaller(step)
    requires Local(g.subs[step.s]) && g.subs[step.s].late
    ensures Section(g, step).handed == g.subs[step.s].handed && Section(g, step).late
  {
    hide FrameSection, Conserved, Counted, TerminalLast, Accounts, NoLostWakeup, CancelFits;
    if step.RunFrame? { FrameLeavesRest(g.subs[step.s]); }
  }

  lemma LateStep(g: Service, step: Step, s: SubId)
    requires Enabled(g, step) && s in g.subs && Local(g.subs[s]) && g.subs[s].late
    ensures s in Apply(g, step).subs && Apply(g, step).subs[s].late
    ensures Apply(g, step).subs[s].handed == g.subs[s].handed
  {
    hide Apply, Section, Local;
    StepsAreLocal(g, step, s);
    if !OnTables(step) && step.s == s {
      if BySignaller(step) { SignalLeavesRest(g, step); } else { LateReaderHandsNothing(g, step); }
    }
  }

  /** A late signal (one that takes the continuation of an open subscriber whose queue is already empty) ends the
      stream: whatever is published afterwards, nothing more is ever handed out. */
  lemma {:induction false} LateSignalEndsTheStream(g: Service, s: SubId, steps: seq<Step>, end: Service)
    requires Inv(g) && s in g.subs && g.subs[s].late && Reaches(g, steps, end)
    ensures s in end.subs && end.subs[s].handed == g.subs[s].handed
    decreases |steps|
  {
    hide Apply, Enabled, Local, Links;
    if steps != [] {
      LateStep(g, steps[0], s);
      StepKeeps(g, steps[0]);
      LateSignalEndsTheStream(Apply(g, steps[0]), s, steps[1..], end);
    }
  }
  // ----- Late signals are what makes a stream incomplete -----------------------

  predicate HasTerminal(es: seq<Event>)
  {
    exists i :: 0 <= i < |es| && TerminalEvent(es[i])
  }

  predicate LateIsIncomplete(u: Sub)
  {
    u.late ==> !HasTerminal(u.handed)
  }

  /** An open subscriber has not accepted a terminal event, so none has been handed out. */
  lemma OpenHasNoTerminal(u: Sub)
    requires Conserved(u) && TerminalLast(u) && !u.closed
    ensures !HasTerminal(u.handed)
  {
    forall i | 0 <= i < |u.handed| ensures !TerminalEvent(u.handed[i]) {
      assert u.handed[i] == Owed(u)[i];
    }
  }

  lemma SignallerIncomplete(g: Service, step: Step)
    requires Enabled(g, step) && BySignaller(step) && Local(g.subs[step.s]) && !g.subs[step.s].late
    ensures LateIsIncomplete(Section(g, step))
  {
    hide Control, Counted, LateFits, HasTerminal;
    var u := g.subs[step.s];
    if step.Take? && !u.closed { OpenHasNoTerminal(u); }
  }

  lemma ReaderNotLate(g: Service, step: Step)
    requires Enabled(g, step) && !OnTables(step) && !BySignaller(step)
    ensures Section(g, step).late == g.subs[step.s].late
  {
    hide FrameSection;
    if step.RunFrame? { FrameLeavesRest(g.subs[step.s]); }
  }

  lemma StepIncomplete(g: Service, step: Step, s: SubId)
    requires Enabled(g, step) && s in g.subs && Local(g.subs[s]) && LateIsIncomplete(g.subs[s])
    ensures s in Apply(g, step).subs && LateIsIncomplete(Apply(g, step).subs[s])
  {
    hide Apply, Section, Local, HasTerminal;
    StepsAreLocal(g, step, s);
    if g.subs[s].late {
      LateStep(g, step, s);
    } else if !OnTables(step) && step.s == s {
      if BySignaller(step) { SignallerIncomplete(g, step); } else { ReaderNotLate(g, step); }
    }
  }

  lemma NewIsNotLate(g: Service, step: Step, s: SubId)
    requires Enabled(g, step) && s !in g.subs && s in Apply(g, step).subs
    ensures !Apply(g, step).subs[s].late
  {
    hide Section;
    if !OnTables(step) { StepChangesOne(g, step); }
  }

  lemma {:induction false} RunIncomplete(g: Service, steps: seq<Step>, end: Service)
    requires Inv(g) && Reaches(g, steps, end) && forall s :: s in g.subs ==> LateIsIncomplete(g.subs[s])
    ensures forall s :: s in end.subs ==> LateIsIncomplete(end.subs[s])
    decreases |steps|
  {
    hide Apply, Enabled, Local, Links, HasTerminal;
    if steps != [] {
      var g' := Apply(g, steps[0]);
      forall s | s in g'.subs ensures LateIsIncomplete(g'.subs[s]) {
        if s in g.subs { StepIncomplete(g, steps[0], s); } else { NewIsNotLate(g, steps[0], s); }
      }
      StepKeeps(g, steps[0]);
      RunIncomplete(g', steps[1..], end);
    }
  }

  /** A stream that ended of itself, neither cancelled nor shut down, has handed out a terminal event exactly if no
      signal was late. */
  lemma CompleteIffNoLateSignal(g: Service, s: SubId)
    requires Reachable(g) && s in g.subs && g.subs[s].frame == Suspended(FinalPoint)
    requires !g.shutdown && g.subs[s].cancel == NotCancelled
    ensures HasTerminal(g.subs[s].handed) <==> !g.subs[s].late
  {
    hide Inv, Reaches, Local;
    var u := g.subs[s];
    var steps :| Reaches(Init(), steps, g);
    InitKeeps();
    RunIncomplete(Init(), steps, g);
    if !u.late {
      EndWithoutLateSignalIsComplete(g, s);
      ReachableKeeps(g);
      SessionFits(g, s);
      assert TerminalEvent(u.handed[|u.handed| - 1]);
    }
  }
}
