/** Wakeups, resumption, teardown and the end of a stream, over whole runs. */
module SubscriptionTheorems {
  import opened Subscription
  import opened SubscriptionInvariant
  import opened SubscriptionService
  import opened SubscriptionRuns

  // ----- Resuming ------------------------------------------------------------

  predicate ReadersPoint(frame: Frame)
  {
    frame.Suspended? && (frame.point.InitialPoint? || frame.point.YieldPoint?)
  }

  /** Whoever may resume a frame finds it suspended at a point that is its own, nobody else is inside, and nothing
      ever touches a finished or destroyed frame. */
  lemma ResumesAreOwned(g: Service, s: SubId)
    requires Reachable(g) && s in g.subs
    ensures g.subs[s].frame != Undefined
    ensures forall p :: Enabled(g, Resume(s, p)) ==> g.subs[s].frame == Suspended(AwaitPoint)
    ensures Enabled(g, ReaderResume(s)) ==> ReadersPoint(g.subs[s].frame)
    ensures forall p :: g.subs[s].Of(p) == Resuming ==> g.subs[s].reader != InResume
    ensures forall p, q :: g.subs[s].Of(p) == Resuming && g.subs[s].Of(q) == Resuming ==> p == q
  {
    hide Control;
    ReachableLocal(g, s);
    OwnedPoints(g.subs[s]);
  }

  lemma ReachableLocal(g: Service, s: SubId)
    requires Reachable(g) && s in g.subs
    ensures Local(g.subs[s]) && Control(g.subs[s])
  {
    hide Links;
    ReachableKeeps(g);
  }

  lemma OwnedPoints(u: Sub)
    requires Control(u)
    ensures u.frame != Undefined
    ensures forall p :: u.Of(p) == Holding && u.resumer == Nobody ==> u.frame == Suspended(AwaitPoint)
    ensures u.reader == ToResume && u.resumer == Nobody ==> ReadersPoint(u.frame)
    ensures forall p :: u.Of(p) == Resuming ==> u.resumer == By(p)
    ensures u.reader == InResume ==> u.resumer == Reader
  {
    forall p | u.Of(p) == Holding && u.resumer == Nobody
      ensures u.frame == Suspended(AwaitPoint)
    {
      match p { case Publisher => case Closer => case Canceller => }
    }
    forall p | u.Of(p) == Resuming
      ensures u.resumer == By(p)
    {
      match p { case Publisher => case Closer => case Canceller => }
    }
  }

  /** A signaller past its own critical section is at the head of its list, so nothing keeps it from going on. */
  lemma PastLockIsAtHead(g: Service, s: SubId, p: Signaller)
    requires PublisherWalk(g) && CloserWalk(g) && s in g.subs && CancelFits(g.subs[s])
    requires g.subs[s].Of(p) != Out && g.subs[s].Of(p) != ToLock
    ensures AtHead(g, s, p)
  {
    match p {
      case Publisher =>
        assert s in g.publication.todo;
        var i :| 0 <= i < |g.publication.todo| && g.publication.todo[i] == s;
      case Closer =>
        assert s in g.closing;
        var i :| 0 <= i < |g.closing| && g.closing[i] == s;
      case Canceller =>
    }
  }

  /** No lost wakeup: a parked frame with a queued event or a closed subscriber has a signaller about to take it. */
  lemma ParkedWithWorkIsSignalled(g: Service, s: SubId)
    requires Reachable(g) && s in g.subs
    requires g.subs[s].cont && (g.subs[s].closed || g.subs[s].events != [])
    ensures exists p :: Enabled(g, Take(s, p))
  {
    ReachableKeeps(g);
    var p := DueSignaller(g.subs[s]);
    PastLockIsAtHead(g, s, p);
    assert Enabled(g, Take(s, p));
  }

  function DueSignaller(u: Sub): (p: Signaller)
    requires u.pub == Due || u.clo == Due || u.can == Due
    ensures u.Of(p) == Due
  {
    if u.pub == Due then Publisher else if u.clo == Due then Closer else Canceller
  }

  // ----- A waiting reader can always be woken --------------------------------

  predicate HasNews(u: Sub)
  {
    || u.current.Some? || u.done || u.closed || u.events != []
    || (u.frame.Running? && (u.frame.code.YieldEvent? || u.frame.code.Return?))
  }

  /** How many steps of the parties at work on a session its waiting reader is away from being woken. */
  function Distance(u: Sub): nat
  {
    match u.frame
    case Suspended(AwaitPoint) => if u.cont then 8 else if u.resumer != Nobody then 7 else 6
    case Running(AwaitReady) => 5
    case Running(AwaitSuspend) => 5
    case Running(AwaitResume) => 3
    case Running(YieldEvent(_)) => 1
    case Running(Return) => 1
    case _ => 0
  }

  function HoldingSignaller(u: Sub): (p: Signaller)
    requires u.pub == Holding || u.clo == Holding || u.can == Holding
    ensures u.Of(p) == Holding
  {
    if u.pub == Holding then Publisher else if u.clo == Holding then Closer else Canceller
  }

  predicate Waits(u: Sub)
  {
    u.reader == Waiting && HasNews(u) && u.current.None? && !u.done
  }

  /** The next of those steps. */
  function NextTowardsWaking(s: SubId, u: Sub): Step
    requires Local(u) && Waits(u)
  {
    if u.frame.Running? then RunFrame(s)
    else if u.cont then Take(s, DueSignaller(u))
    else if u.resumer.By? then ReturnFromResume(s, u.resumer.signaller)
    else Resume(s, HoldingSignaller(u))
  }

  predicate Nearer(u: Sub, v: Sub)
  {
    v.reader == Waiting && HasNews(v) && Distance(v) < Distance(u)
  }

  lemma RunIsNearer(u: Sub)
    requires Local(u) && Waits(u) && u.frame.Running?
    ensures Nearer(u, FrameSection(u))
  {
    hide Conserved, Counted, TerminalLast, LateFits, Accounts, CancelFits, NoLostWakeup;
    var v := FrameSection(u);
    match u.frame.code {
      case AwaitSuspend =>
        assert v == u.(frame := Running(AwaitResume));
      case AwaitResume =>
        if u.events == [] {
          assert v == u.(frame := Running(Return));
        } else {
          assert v == u.(events := u.events[1..], frame := Running(YieldEvent(u.events[0])));
        }
      case _ =>
    }
  }

  lemma SignalIsNearer(u: Sub, s: SubId)
    requires Local(u) && Waits(u) && !u.frame.Running?
    ensures u.frame == Suspended(AwaitPoint)
    ensures var step := NextTowardsWaking(s, u);
      match step
      case Take(_, p) => u.Of(p) == Due && Nearer(u, TakeSection(u, p))
      case ReturnFromResume(_, p) => u.Of(p) == Resuming && Nearer(u, ReturnSection(u, p))
      case Resume(_, p) => u.Of(p) == Holding && u.resumer == Nobody && Nearer(u, ResumeSection(u, p))
      case _ => false
  {
    hide Conserved, Counted, TerminalLast, LateFits;
    if u.resumer.By? {
      match u.resumer.signaller { case Publisher => case Closer => case Canceller => }
    }
  }

  lemma TowardsWaking(g: Service, s: SubId)
    requires Inv(g) && s in g.subs && Waits(g.subs[s])
    ensures var step := NextTowardsWaking(s, g.subs[s]); Enabled(g, step) && Nearer(g.subs[s], Section(g, step))
  {
    var u := g.subs[s];
    var step := NextTowardsWaking(s, u);
    hide Nearer, TakeSection, ReturnSection, ResumeSection, FrameSection, SubFits, Registry, LatestFits;
    if u.frame.Running? {
      RunIsNearer(u);
    } else {
      SignalIsNearer(u, s);
      PastLockIsAtHead(g, s, step.p);
    }
  }

  predicate IsHandover(step: Step, s: SubId)
  {
    (step.RunFrame? || step.Take? || step.ReturnFromResume? || step.Resume?) && step.s == s
  }

  /** A waiting reader with a queued event or a closed subscriber is at most eight steps of the parties already at
      work on its session from being woken; no new publication, cancellation or timeout is needed. */
  lemma {:induction false} WaitingReaderCanBeWoken(g: Service, s: SubId) returns (steps: seq<Step>, end: Service)
    requires Inv(g) && s in g.subs && g.subs[s].reader == Waiting && HasNews(g.subs[s])
    ensures Reaches(g, steps, end) && Enabled(end, Wake(s)) && |steps| <= Distance(g.subs[s]) <= 8
    ensures forall i :: 0 <= i < |steps| ==> IsHandover(steps[i], s)
    decreases Distance(g.subs[s])
  {
    hide Inv, Enabled, Apply, HasNews;
    if !Waits(g.subs[s]) {
      AlreadyAwake(g, s);
      return [], g;
    }
    var step := Handover(g, s);
    var rest, last := WaitingReaderCanBeWoken(Apply(g, step), s);
    steps, end := [step] + rest, last;
    assert steps[0] == step && steps[1..] == rest;
  }

  lemma AlreadyAwake(g: Service, s: SubId)
    requires s in g.subs && g.subs[s].reader == Waiting && HasNews(g.subs[s]) && !Waits(g.subs[s])
    ensures Enabled(g, Wake(s))
  {
  }

  lemma Handover(g: Service, s: SubId) returns (step: Step)
    requires Inv(g) && s in g.subs && Waits(g.subs[s])
    ensures Enabled(g, step) && IsHandover(step, s) && Inv(Apply(g, step)) && s in Apply(g, step).subs
    ensures Nearer(g.subs[s], Apply(g, step).subs[s])
  {
    hide Links, Nearer, Section, Waits;
    step := NextTowardsWaking(s, g.subs[s]);
    TowardsWaking(g, s);
    hide Local, Apply, Enabled;
    StepKeeps(g, step);
    StepChangesOne(g, step);
  }
}
