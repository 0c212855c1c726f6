/** Shutting down and cancelling: what the two requests bring about. */
module SubscriptionClosing {
  import opened Protocol
  import opened Subscription
  import opened SubscriptionInvariant
  import opened SubscriptionService
  import opened SubscriptionRuns
  import opened SubscriptionEnds

  /** Closed, or in the hands of someone who will close it. */
  predicate WillClose(g: Service, u: Sub)
  {
    || u.closed || u.clo == ToLock
    || (u.pub == ToLock && g.publication.Publishing? && IsTerminal(g.publication.task.status.state))
  }

  ghost predicate AllWillClose(g: Service)
  {
    g.shutdown && forall s :: s in g.subs ==> WillClose(g, g.subs[s])
  }

  /** Shutting down sets the flag, forgets every task and has every registered session closed. */
  lemma ShutdownBegins(g: Service, order: seq<SubId>)
    requires Inv(g) && Enabled(g, Shutdown(order)) && !g.shutdown
    ensures AllWillClose(ApplyShutdown(g, order))
    ensures ApplyShutdown(g, order).registered == map[] && ApplyShutdown(g, order).latest == map[]
  {
    hide AllLocal, Registry, PublisherWalk, CloserWalk, LatestFits;
    forall s | s in g.subs && !g.subs[s].closed && Listed(g, s) ensures s in order {}
    assert forall s :: s in g.subs ==> SubFits(g, s);
  }

  lemma SectionWillClose(g: Service, step: Step)
    requires Enabled(g, step) && !OnTables(step) && WillClose(g, g.subs[step.s])
    ensures var v := Section(g, step);
      || v.closed || v.clo == ToLock
      || (v.pub == ToLock && g.publication.Publishing? && IsTerminal(g.publication.task.status.state))
  {
    hide FrameSection;
    if step.RunFrame? { FrameLeavesRest(g.subs[step.s]); }
  }

  lemma SamePublication(g: Service, step: Step)
    requires Enabled(g, step) && g.shutdown
    ensures Apply(g, step).shutdown
    ensures Apply(g, step).publication.Publishing? ==>
      g.publication.Publishing? && Apply(g, step).publication.task == g.publication.task
  {
    hide Section;
  }

  lemma StepWillClose(g: Service, step: Step)
    requires Inv(g) && Enabled(g, step) && AllWillClose(g)
    ensures AllWillClose(Apply(g, step))
  {
    var g' := Apply(g, step);
    hide Inv, Section, Apply, WillClose;
    StepKeeps(g, step);
    SamePublication(g, step);
    forall s | s in g'.subs ensures WillClose(g', g'.subs[s]) {
      if s in g.subs {
        StepsAreLocal(g, step, s);
        if g'.subs[s].pub == ToLock { GatheredIsPublishing(g', s); }
        SessionWillClose(g, step, s, g');
      } else {
        NoneAfterShutdown(g, step, s);
      }
    }
  }

  lemma NoneAfterShutdown(g: Service, step: Step, s: SubId)
    requires Enabled(g, step) && g.shutdown && s !in g.subs
    ensures s !in Apply(g, step).subs
  {
    hide Section;
    if !OnTables(step) { StepChangesOne(g, step); }
  }

  lemma SessionWillClose(g: Service, step: Step, s: SubId, g': Service)
    requires Enabled(g, step) && s in g.subs && s in g'.subs
    requires StepOn(g, step, s, g'.subs[s]) && WillClose(g, g.subs[s])
    requires g'.publication.Publishing? ==> g.publication.Publishing? && g'.publication.task == g.publication.task
    requires g'.subs[s].pub == ToLock ==> g'.publication.Publishing?
    ensures WillClose(g', g'.subs[s])
  {
    hide Enabled, Section;
    if !OnTables(step) && step.s == s { SectionWillClose(g, step); }
  }

  lemma GatheredIsPublishing(g: Service, s: SubId)
    requires Inv(g) && s in g.subs && g.subs[s].pub == ToLock
    ensures g.publication.Publishing?
  {
    hide AllLocal, Registry, CloserWalk, LatestFits, SubFits;
  }

  lemma {:induction false} RunWillClose(g: Service, steps: seq<Step>, end: Service)
    requires Inv(g) && AllWillClose(g) && Reaches(g, steps, end)
    ensures AllWillClose(end)
    decreases |steps|
  {
    hide Inv, Enabled, Apply, AllWillClose;
    if steps != [] {
      StepWillClose(g, steps[0]);
      StepKeeps(g, steps[0]);
      RunWillClose(Apply(g, steps[0]), steps[1..], end);
    }
  }

  /** After a shutdown no session is ever added, and once the shutdown and any publication under way have walked their
      lists every session is closed. */
  lemma ShutdownClosesAll(g: Service, order: seq<SubId>, steps: seq<Step>, end: Service)
    requires Reachable(g) && Enabled(g, Shutdown(order)) && !g.shutdown
    requires Reaches(Apply(g, Shutdown(order)), steps, end)
    ensures end.shutdown
    ensures end.closing == [] && end.publication.Quiet? ==> forall s :: s in end.subs ==> end.subs[s].closed
  {
    hide Reachable, Inv, Reaches;
    ReachableKeeps(g);
    StepKeeps(g, Shutdown(order));
    ShutdownBegins(g, order);
    RunWillClose(Apply(g, Shutdown(order)), steps, end);
    RunKeeps(Apply(g, Shutdown(order)), steps, end);
    if end.closing == [] && end.publication.Quiet? { NobodyWalks(end); }
  }

  lemma NobodyWalks(g: Service)
    requires Inv(g) && g.closing == [] && g.publication.Quiet?
    ensures forall s :: s in g.subs ==> g.subs[s].clo == Out && g.subs[s].pub == Out
  {
    hide AllLocal, Registry, LatestFits, SubFits;
  }

  /** Cancelling begins with closing the session. */
  lemma CancelBegins(g: Service, s: SubId)
    requires Enabled(g, Cancel(s))
    ensures Apply(g, Cancel(s)).subs == g.subs[s := g.subs[s].(cancel := Signalling, can := ToLock)]
  {
    StepChangesOne(g, Cancel(s));
  }

  /** A cancelled session is closed and no longer registered for any task. */
  lemma CancelledIsGone(g: Service, s: SubId)
    requires Reachable(g) && s in g.subs && g.subs[s].cancel == Cancelled
    ensures g.subs[s].closed && forall id :: id in g.registered ==> s !in g.registered[id]
  {
    hide Reachable;
    ReachableKeeps(g);
    hide PublisherWalk, CloserWalk, LatestFits, SubFits;
    assert Local(g.subs[s]);
  }

  /** The last wait of a cancellation ends it. */
  lemma DrainCompletes(g: Service, s: SubId)
    requires Enabled(g, Drain(s))
    ensures Section(g, Drain(s)).cancel == Cancelled
  {
  }

  /** Destroying a session that may be destroyed destroys a suspended frame. */
  lemma DestroyFindsItSuspended(g: Service, s: SubId)
    requires Reachable(g) && Enabled(g, Destroy(s))
    ensures g.subs[s].frame.Suspended? && Section(g, Destroy(s)).frame == Destroyed
  {
    hide Reachable, Inv, Local, Enabled, Section;
    ReachableKeeps(g);
    DestroySection(g, s);
    SessionFits(g, s);
    NobodyRuns(g.subs[s]);
  }

  lemma DestroySection(g: Service, s: SubId)
    requires Enabled(g, Destroy(s))
    ensures s in g.subs
    ensures g.subs[s].reader == Outside && g.subs[s].cancel == Cancelled && !g.subs[s].frame.Destroyed?
    ensures g.subs[s].frame.Suspended? ==> Section(g, Destroy(s)).frame == Destroyed
  {
  }

  lemma NobodyRuns(u: Sub)
    requires Local(u) && u.reader == Outside && u.cancel == Cancelled && !u.frame.Destroyed?
    ensures u.frame.Suspended?
  {
    hide Conserved, Counted, TerminalLast, LateFits;
    CancelledIsDetached(u);
    assert !Busy(u.Of(Publisher)) && !Busy(u.Of(Closer)) && !Busy(u.Of(Canceller));
  }
}
