/** Every interleaving keeps the invariant, and what that means for subscribers, readers and cancellers. */
module SubscriptionRuns {
  import opened Protocol
  import opened Subscription
  import opened SubscriptionInvariant
  import opened SubscriptionLocal
  import opened SubscriptionService

  // ----- One step ------------------------------------------------------------

  lemma SectionLocal(g: Service, step: Step)
    requires Enabled(g, step) && !OnTables(step)
    requires Local(g.subs[step.s])
    ensures Local(Section(g, step))
  {
    hide Local, FrameSection, ReadSection, WakeSection, DeliverSection, LockSection, TakeSection, ResumeSection,
      ReturnSection, DropSection, ResumeFrame, ReleaseFrame;
    var u := g.subs[step.s];
    match step {
      case Cancel(_) => CancelKeeps(u);
      case Lock(_, p) =>
        if p.Publisher? { PushKeeps(u, UpdateEvent(g.publication.task)); }
        else {
          CloseKeeps(u, p, if g.publication.Publishing? then UpdateEvent(g.publication.task)
                           else SnapshotEvent(u.task));
        }
      case Take(_, p) => TakeKeeps(u, p);
      case Resume(_, p) => ResumeKeeps(u, p);
      case ReturnFromResume(_, p) => ReturnKeeps(u, p);
      case Drop(_, p) => DropKeeps(u, p);
      case Remove(_) => RemoveKeeps(u);
      case Drain(_) => DrainKeeps(u);
      case RunFrame(_) => FrameKeeps(u);
      case Read(_) => ReadKeeps(u);
      case ReaderResume(_) => ReaderResumeKeeps(u);
      case ReaderReturn(_) => ReaderReturnKeeps(u);
      case Wake(_) => WakeKeeps(u);
      case TimeOut(_) => TimeOutKeeps(u);
      case Deliver(_) => DeliverKeeps(u);
      case Destroy(_) => DestroyKeeps(u);
    }
  }

  /** A step on a session changes no other session. */
  lemma StepChangesOne(g: Service, step: Step)
    requires Enabled(g, step) && !OnTables(step)
    ensures Apply(g, step).subs == g.subs[step.s := Section(g, step)]
  {
    hide Section;
  }

  lemma NewSubLocal(task: Task, from: nat)
    ensures Local(NewSub(task, from))
  {
  }

  lemma TableStepLocal(g: Service, step: Step)
    requires Enabled(g, step) && OnTables(step)
    requires AllLocal(g.subs) && PublisherWalk(g) && CloserWalk(g)
    ensures AllLocal(Apply(g, step).subs)
  {
    hide Local;
    var g' := Apply(g, step);
    forall x | x in g'.subs
      ensures Local(g'.subs[x])
    {
      match step {
        case Subscribe(s, task) => if x == s && x !in g.subs { NewSubLocal(CurrentTask(g, task), |g.log|); }
        case Publish(_) => if g'.subs[x] != g.subs[x] { GatherKeeps(g.subs[x], Publisher); }
        case Shutdown(_) => if g'.subs[x] != g.subs[x] { GatherKeeps(g.subs[x], Closer); }
      }
    }
  }

  lemma StepLocal(g: Service, step: Step)
    requires Enabled(g, step) && Inv(g)
    ensures AllLocal(Apply(g, step).subs)
  {
    hide Local, Apply, Registry, SubFits, LatestFits, PublisherWalk, CloserWalk, Section;
    if OnTables(step) {
      TableStepLocal(g, step);
    } else {
      StepChangesOne(g, step);
      SectionLocal(g, step);
    }
  }

  lemma PushedByLock(u: Sub, e: Event)
    ensures Pushed(u, LockSection(u, Publisher, e), e)
  {
  }

  predicate BySignaller(step: Step)
  {
    step.Lock? || step.Take? || step.Resume? || step.ReturnFromResume? || step.Drop?
  }

  lemma SignallerOutside(g: Service, step: Step)
    requires Enabled(g, step) && BySignaller(step)
    requires step.Lock? || Leaves(g, step) ==> step.p.Canceller?
    ensures SameOutside(g.subs[step.s], Section(g, step))
  {
    match step.p { case Publisher => case Closer => case Canceller => }
  }

  lemma ReaderOutside(g: Service, step: Step)
    requires Enabled(g, step) && !OnTables(step) && !BySignaller(step) && !step.Remove?
    ensures SameOutside(g.subs[step.s], Section(g, step))
  {
    hide FrameSection;
    if step.RunFrame? { FrameLeavesRest(g.subs[step.s]); }
  }

  /** Steps that leave no list change the session in ways the rest of the service cannot see. */
  lemma SectionOutside(g: Service, step: Step)
    requires Enabled(g, step) && !OnTables(step) && !step.Remove?
    requires step.Lock? || Leaves(g, step) ==> step.p.Canceller?
    ensures SameOutside(g.subs[step.s], Section(g, step))
  {
    hide Section, SameOutside;
    if BySignaller(step) { SignallerOutside(g, step); } else { ReaderOutside(g, step); }
  }

  lemma LeavingOutside(g: Service, step: Step)
    requires Enabled(g, step) && Leaves(g, step) && !step.p.Canceller?
    ensures step.p.Publisher? ==> SameOutside(g.subs[step.s].(pub := Out), Section(g, step))
    ensures step.p.Closer? ==> SameOutside(g.subs[step.s].(clo := Out), Section(g, step))
  {
  }

  /** What a running frame leaves alone. */
  predicate FrameLeaves(u: Sub, v: Sub)
  {
    && v.task == u.task && v.from == u.from && v.accepted == u.accepted && v.handed == u.handed && v.late == u.late
    && v.closed == u.closed && v.pub == u.pub && v.clo == u.clo && v.can == u.can && v.cancel == u.cancel
    && v.reader == u.reader
  }

  lemma FrameLeavesRest(u: Sub)
    requires u.frame.Running?
    ensures FrameLeaves(u, FrameSection(u))
  {
    match u.frame.code {
      case AwaitSuspend => SuspendLeavesRest(u);
      case AwaitResume => PopLeavesRest(u);
      case _ =>
    }
  }

  lemma SuspendLeavesRest(u: Sub)
    requires u.frame == Running(AwaitSuspend)
    ensures FrameLeaves(u, FrameSection(u))
  {
    var v := FrameSection(u);
    if u.closed || u.events != [] {
      assert v == u.(frame := Running(AwaitResume));
    } else {
      assert v == u.(cont := true, frame := Suspended(AwaitPoint));
    }
  }

  lemma PopLeavesRest(u: Sub)
    requires u.frame == Running(AwaitResume)
    ensures FrameLeaves(u, FrameSection(u))
  {
    var v := FrameSection(u);
    if u.events == [] {
      assert v == u.(frame := Running(Return));
    } else {
      assert v == u.(events := u.events[1..], frame := Running(YieldEvent(u.events[0])));
    }
  }

  lemma SectionLinks(g: Service, step: Step)
    requires Enabled(g, step) && !OnTables(step)
    requires Links(g) && (step.Remove? ==> g.subs[step.s].closed)
    ensures Links(Apply(g, step))
  {
    hide Links, LeaveSignal, LockSection, SameOutside, Pushed, Unlist;
    var s := step.s;
    if step.Remove? {
      RemoveLinks(g, s, Section(g, step));
    } else if step.Lock? && step.p.Publisher? {
      PushedByLock(g.subs[s], UpdateEvent(g.publication.task));
      PushLinks(g, s, Section(g, step));
    } else if step.Lock? && step.p.Closer? {
      CloseLinks(g, s, if g.publication.Publishing? then UpdateEvent(g.publication.task)
                       else SnapshotEvent(g.subs[s].task));
    } else if Leaves(g, step) && !step.p.Canceller? {
      LeavingOutside(g, step);
      if step.p.Publisher? { PublisherLeaves(g, s, Section(g, step)); } else { CloserLeaves(g, s, Section(g, step)); }
    } else {
      SectionOutside(g, step);
      PutKeeps(g, s, Section(g, step));
      assert Leaves(g, step) ==> LeaveSignal(Put(g, s, Section(g, step)), step.p) == Put(g, s, Section(g, step)) by {
        CancellerStays(Put(g, s, Section(g, step)));
      }
    }
  }

  lemma CancellerStays(g: Service)
    ensures LeaveSignal(g, Canceller) == g
  {
  }

  lemma TableLinks(g: Service, step: Step)
    requires Enabled(g, step) && OnTables(step) && Links(g)
    ensures Links(Apply(g, step))
  {
    hide Links, ApplySubscribe, ApplyPublish, ApplyShutdown;
    if step.Subscribe? {
      if Accepts(g, step.task) { SubscribeLinks(g, step.s, step.task); } else { Refused(g, step.s, step.task); }
    } else if g.shutdown {
      AfterShutdown(g, if step.Publish? then step.task else NoTask(), if step.Publish? then [] else step.order);
    } else if step.Publish? {
      PublishLinks(g, step.task);
    } else {
      ShutdownLinks(g, step.order);
    }
  }

  lemma RemovalIsClosed(u: Sub)
    requires Local(u) && u.cancel == Removing
    ensures u.closed
  {
  }

  lemma StepLinks(g: Service, step: Step)
    requires Enabled(g, step) && Inv(g)
    ensures Links(Apply(g, step))
  {
    hide Links, Local, Apply;
    if OnTables(step) {
      TableLinks(g, step);
    } else {
      if step.Remove? { RemovalIsClosed(g.subs[step.s]); }
      SectionLinks(g, step);
    }
  }

  function NoTask(): Task
  {
    Task([], [], Status(Unspecified, None, ""), [], [])
  }

  lemma Refused(g: Service, s: SubId, task: Task)
    requires s !in g.subs && !Accepts(g, task)
    ensures ApplySubscribe(g, s, task) == g
  {
  }

  lemma AfterShutdown(g: Service, task: Task, order: seq<SubId>)
    requires g.shutdown
    ensures g.publication.Quiet? ==> ApplyPublish(g, task) == g
    ensures ApplyShutdown(g, order) == g
  {
  }

  lemma StepKeeps(g: Service, step: Step)
    requires Enabled(g, step) && Inv(g)
    ensures Inv(Apply(g, step))
  {
    hide AllLocal, Links, Apply;
    StepLocal(g, step);
    StepLinks(g, step);
  }

  lemma InitKeeps()
    ensures Inv(Init())
  {
  }

  lemma {:induction false} RunKeeps(g: Service, steps: seq<Step>, end: Service)
    requires Inv(g) && Reaches(g, steps, end)
    ensures Inv(end)
    decreases |steps|
  {
    hide Inv, Enabled, Apply;
    if steps != [] {
      StepKeeps(g, steps[0]);
      RunKeeps(Apply(g, steps[0]), steps[1..], end);
    }
  }

  /** Concatenated runs are runs. */
  lemma {:induction false} RunsCompose(g: Service, first: seq<Step>, mid: Service, rest: seq<Step>, end: Service)
    requires Reaches(g, first, mid) && Reaches(mid, rest, end)
    ensures Reaches(g, first + rest, end)
    decreases |first|
  {
    hide Enabled, Apply;
    if first == [] {
      assert first + rest == rest;
    } else {
      RunsCompose(Apply(g, first[0]), first[1..], mid, rest, end);
      assert (first + rest)[1..] == first[1..] + rest;
    }
  }

  /** The states a service can get into, by whatever interleaving. */
  ghost predicate Reachable(g: Service)
  {
    exists steps :: Reaches(Init(), steps, g)
  }

  lemma ReachableKeeps(g: Service)
    requires Reachable(g)
    ensures Inv(g)
  {
    hide Inv, Reaches;
    InitKeeps();
    var steps :| Reaches(Init(), steps, g);
    RunKeeps(Init(), steps, g);
  }

  // ----- Delivery ------------------------------------------------------------

  /** The events of a stream that ends with its first terminal one. */
  function UpToTerminal(es: seq<Event>): seq<Event>
  {
    if es == [] then []
    else if TerminalEvent(es[0]) then [es[0]]
    else [es[0]] + UpToTerminal(es[1..])
  }

  lemma {:induction false} PrefixUpToTerminal(xs: seq<Event>, es: seq<Event>)
    requires xs <= es && forall i :: 0 <= i < |xs| - 1 ==> !TerminalEvent(xs[i])
    ensures xs <= UpToTerminal(es)
    ensures xs != [] && TerminalEvent(xs[|xs| - 1]) ==> xs == UpToTerminal(es)
    ensures xs == es && (xs == [] || !TerminalEvent(xs[|xs| - 1])) ==> xs == UpToTerminal(es)
    decreases |xs|
  {
    if xs != [] {
      assert es[0] == xs[0];
      if |xs| == 1 {
        assert xs == [es[0]];
        if xs == es { assert es[1..] == []; }
      } else {
        PrefixUpToTerminal(xs[1..], es[1..]);
        assert xs == [xs[0]] + xs[1..];
      }
    }
  }

  /** Everything `Next` has handed out, in every interleaving: the snapshot, then the publications made on the task
      since the subscription, in order and without gap or repetition, ending at the first terminal one at the latest.
      The snapshot shows the context and status of the last publication before the subscription. */
  lemma HandedIsPrefix(g: Service, s: SubId)
    requires Reachable(g) && s in g.subs
    ensures g.subs[s].from <= |g.log|
    ensures var u := g.subs[s];
      u.handed <= [SnapshotEvent(u.task)] + UpToTerminal(PublishedOn(g.log[u.from..], u.task.id))
    ensures var u := g.subs[s];
      var before := LastOn(g.log[..u.from], u.task.id);
      before.Some? ==> u.task.contextId == before.value.contextId && u.task.status == before.value.status
  {
    ReachableKeeps(g);
    var u := g.subs[s];
    assert SubFits(g, s);
    hide Control, LateFits, Counted;
    PrefixUpToTerminal(u.accepted, PublishedOn(g.log[u.from..], u.task.id));
    assert u.handed <= [SnapshotEvent(u.task)] + u.accepted;
  }

  /** `pending_delivery_count` is what is queued plus the update popped but not yet handed out. */
  lemma PendingCounts(g: Service, s: SubId)
    requires Reachable(g) && s in g.subs && !g.subs[s].frame.Destroyed?
    ensures var u := g.subs[s];
      u.pending == |u.events| + Count(InFlight(u) != [] && InFlight(u)[0].StatusUpdate?)
  {
    ReachableKeeps(g);
  }
}
