/** Every critical section keeps the per-session invariant. */
module SubscriptionLocal {
  import opened Protocol
  import opened Subscription
  import opened SubscriptionInvariant

  // ----- The frame -----------------------------------------------------------

  lemma SuspendKeeps(u: Sub)
    requires Local(u) && u.frame == Running(AwaitSuspend)
    ensures Local(FrameSection(u))
  {
    var v := FrameSection(u);
    if u.closed || u.events != [] {
      assert v == u.(frame := Running(AwaitResume));
    } else {
      assert v == u.(cont := true, frame := Suspended(AwaitPoint));
    }
  }

  /** A queued terminal event has already closed the subscriber, and nothing is queued behind it. */
  lemma TerminalHeadIsLast(u: Sub)
    requires Local(u) && u.frame == Running(AwaitResume) && u.events != [] && TerminalEvent(u.events[0])
    ensures u.closed && u.events[1..] == []
  {
    var k := |u.handed|;
    assert InFlight(u) == [];
    assert Owed(u)[k] == u.events[0];
  }

  lemma PopKeeps(u: Sub)
    requires Local(u) && u.frame == Running(AwaitResume)
    ensures Local(FrameSection(u))
  {
    if u.events == [] {
      var v := u.(frame := Running(Return));
      assert FrameSection(u) == v;
    } else {
      var v := u.(events := u.events[1..], frame := Running(YieldEvent(u.events[0])));
      assert FrameSection(u) == v;
      if TerminalEvent(u.events[0]) { TerminalHeadIsLast(u); }
      PopDelivery(u, v);
      PopControl(u, v);
    }
  }

  lemma PopDelivery(u: Sub, v: Sub)
    requires Local(u) && u.frame == Running(AwaitResume) && u.events != []
    requires v == u.(events := u.events[1..], frame := Running(YieldEvent(u.events[0])))
    ensures Conserved(v) && Counted(v) && TerminalLast(v)
  {
    hide LateFits, Accounts, CancelFits, NoLostWakeup;
    assert InFlight(u) == [] && InFlight(v) == [u.events[0]];
  }

  lemma PopControl(u: Sub, v: Sub)
    requires Local(u) && u.frame == Running(AwaitResume) && u.events != []
    requires v == u.(events := u.events[1..], frame := Running(YieldEvent(u.events[0])))
    requires TerminalEvent(u.events[0]) ==> u.closed && u.events[1..] == []
    ensures Control(v) && LateFits(v)
  {
    hide Conserved, Counted, TerminalLast;
  }

  lemma YieldKeeps(u: Sub)
    requires Local(u) && u.frame.Running? && (u.frame.code.YieldSnapshot? || u.frame.code.YieldEvent?)
    ensures Local(FrameSection(u))
  {
    var v := FrameSection(u);
    if u.frame.code.YieldSnapshot? {
      assert v == u.(current := Some(SnapshotEvent(u.task)), frame := Suspended(YieldPoint(false)));
    } else {
      var e := u.frame.code.e;
      assert v == u.(current := Some(e), frame := Suspended(YieldPoint(TerminalEvent(e))));
    }
  }

  lemma ReadyKeeps(u: Sub)
    requires Local(u) && u.frame.Running? && (u.frame.code.AwaitReady? || u.frame.code.Return?)
    ensures Local(FrameSection(u))
  {
  }

  lemma FrameKeeps(u: Sub)
    requires Local(u) && u.frame.Running?
    ensures Local(FrameSection(u))
  {
    match u.frame.code {
      case AwaitSuspend => SuspendKeeps(u);
      case AwaitResume => PopKeeps(u);
      case AwaitReady => ReadyKeeps(u);
      case Return => ReadyKeeps(u);
      case YieldSnapshot => YieldKeeps(u);
      case YieldEvent(_) => YieldKeeps(u);
    }
  }

  // ----- The reader ----------------------------------------------------------

  lemma ReadKeeps(u: Sub)
    requires Local(u) && u.reader == Outside && !u.frame.Destroyed?
    ensures Local(ReadSection(u))
  {
  }

  lemma ReaderResumeKeeps(u: Sub)
    requires Local(u) && u.reader == ToResume && u.resumer == Nobody
    ensures Local(u.(resumer := Reader, reader := InResume, frame := ResumeFrame(u.frame, true)))
  {
  }

  lemma ReaderReturnKeeps(u: Sub)
    requires Local(u) && u.reader == InResume && !u.frame.Running?
    ensures Local(u.(resumer := Nobody, reader := Waiting, frame := ReleaseFrame(u.frame)))
  {
  }

  lemma WakeKeeps(u: Sub)
    requires Local(u) && u.reader == Waiting && (u.current.Some? || u.done)
    ensures Local(WakeSection(u))
  {
  }

  lemma TimeOutKeeps(u: Sub)
    requires Local(u) && u.reader == Waiting && u.current.None? && !u.done
    ensures Local(u.(reader := Outside))
  {
  }

  lemma DeliverKeeps(u: Sub)
    requires Local(u) && u.reader.Got?
    ensures Local(DeliverSection(u))
  {
    var v := DeliverSection(u);
    assert v.handed + InFlight(v) + v.events == u.handed + InFlight(u) + u.events;
    assert v.handed <= v.handed + InFlight(v) + v.events;
  }

  lemma DestroyKeeps(u: Sub)
    requires Local(u) && u.reader == Outside && u.cancel == Cancelled && !u.frame.Destroyed?
    ensures Local(u.(frame := if u.frame.Suspended? then Destroyed else Undefined))
  {
    NobodyInside(u);
  }

  /** Once the cancelling call is over only the reader can be inside the frame. */
  lemma NobodyInside(u: Sub)
    requires Local(u) && u.cancel == Cancelled && u.reader == Outside
    ensures u.resumer == Nobody && !u.frame.Running?
  {
    match u.resumer {
      case By(p) => match p { case Publisher => case Closer => case Canceller => }
      case _ =>
    }
  }

  // ----- The signallers ------------------------------------------------------

  /** Sections that move no event keep the accounts of what was queued and handed out. */
  lemma SameDelivery(u: Sub, v: Sub)
    requires Conserved(u) && Counted(u) && TerminalLast(u)
    requires v.task == u.task && v.events == u.events && v.pending == u.pending && v.accepted == u.accepted
    requires v.handed == u.handed && v.current == u.current && v.reader == u.reader && v.frame == u.frame
    requires u.closed ==> v.closed
    ensures Conserved(v) && Counted(v) && TerminalLast(v)
  {
    assert InFlight(v) == InFlight(u);
  }

  lemma SameFrame(u: Sub, v: Sub)
    requires FrameFits(u)
    requires v.frame == u.frame && v.cont == u.cont && Holders(v) == Holders(u) && v.resumer == u.resumer
    requires v.reader == u.reader && v.started == u.started && v.again == u.again && v.current == u.current
    requires v.done == u.done && (u.cancel == Cancelled ==> v.cancel == Cancelled)
    ensures FrameFits(v)
  {
  }

  lemma GatherKeeps(u: Sub, p: Signaller)
    requires Local(u) && u.Of(p) == Out && !p.Canceller?
    ensures Local(u.With(p, ToLock))
  {
    SameDelivery(u, u.With(p, ToLock));
    SameFrame(u, u.With(p, ToLock));
    match p { case Publisher => case Closer => }
  }

  lemma CancelKeeps(u: Sub)
    requires Local(u) && u.cancel == NotCancelled
    ensures Local(u.With(Canceller, ToLock))
  {
    SameDelivery(u, u.With(Canceller, ToLock));
    SameFrame(u, u.With(Canceller, ToLock));
  }

  lemma CloseKeeps(u: Sub, p: Signaller, e: Event)
    requires Local(u) && u.Of(p) == ToLock && !p.Publisher?
    ensures Local(LockSection(u, p, e))
  {
    SameDelivery(u, LockSection(u, p, e));
    SameFrame(u, LockSection(u, p, e));
    match p { case Closer => case Canceller => }
  }

  lemma PushKeeps(u: Sub, e: Event)
    requires Local(u) && u.pub == ToLock && e.StatusUpdate?
    ensures Local(LockSection(u, Publisher, e))
  {
    if u.closed {
      PushClosedKeeps(u, e);
    } else {
      var v := u.(events := u.events + [e], pending := u.pending + 1, closed := TerminalEvent(e),
                  accepted := u.accepted + [e], pub := Due);
      assert LockSection(u, Publisher, e) == v;
      PushDelivery(u, v, e);
      PushControl(u, v, e);
    }
  }

  lemma PushClosedKeeps(u: Sub, e: Event)
    requires Local(u) && u.pub == ToLock && u.closed
    ensures Local(LockSection(u, Publisher, e))
  {
    var v := u.(pub := Due);
    assert LockSection(u, Publisher, e) == v;
    SameDelivery(u, v);
    SameFrame(u, v);
  }

  lemma PushDelivery(u: Sub, v: Sub, e: Event)
    requires Local(u) && u.pub == ToLock && !u.closed && e.StatusUpdate?
    requires v == u.(events := u.events + [e], pending := u.pending + 1, closed := TerminalEvent(e),
                     accepted := u.accepted + [e], pub := Due)
    ensures Conserved(v) && Counted(v)
  {
    hide Control, LateFits;
    assert InFlight(v) == InFlight(u);
    assert v.handed + InFlight(v) + v.events == (u.handed + InFlight(u) + u.events) + [e];
    assert Owed(v) == Owed(u) + [e];
  }

  lemma PushControl(u: Sub, v: Sub, e: Event)
    requires Local(u) && u.pub == ToLock && !u.closed
    requires v == u.(events := u.events + [e], pending := u.pending + 1, closed := TerminalEvent(e),
                     accepted := u.accepted + [e], pub := Due)
    ensures Control(v) && TerminalLast(v) && LateFits(v)
  {
  }

  lemma TakeKeeps(u: Sub, p: Signaller)
    requires Local(u) && u.Of(p) == Due
    ensures Local(TakeSection(u, p))
  {
    if u.cont {
      TakenKeeps(u, p);
    } else {
      MissedKeeps(u, p);
    }
  }

  lemma MissedKeeps(u: Sub, p: Signaller)
    requires Local(u) && u.Of(p) == Due && !u.cont
    ensures Local(TakeSection(u, p))
  {
    match p {
      case Canceller => CancellerMissedKeeps(u);
      case _ =>
        var v := u.With(p, Out);
        SameDelivery(u, v);
        SameFrame(u, v);
    }
  }

  lemma CancellerMissedKeeps(u: Sub)
    requires Local(u) && u.can == Due && !u.cont
    ensures Local(TakeSection(u, Canceller))
  {
    var v := u.(can := Out, cancel := Removing);
    SameDelivery(u, v);
    SameFrame(u, v);
  }

  lemma TakenKeeps(u: Sub, p: Signaller)
    requires Local(u) && u.Of(p) == Due && u.cont
    ensures Local(TakeSection(u, p))
  {
    var v := TakeSection(u, p);
    SameDelivery(u, v);
    var late := u.late || (u.events == [] && !u.closed);
    match p {
      case Publisher => assert v == u.(pub := Holding, cont := false, active := u.active + 1, late := late);
      case Closer => assert v == u.(clo := Holding, cont := false, active := u.active + 1, late := late);
      case Canceller => assert v == u.(can := Holding, cont := false, active := u.active + 1, late := late);
    }
  }

  lemma ResumeKeeps(u: Sub, p: Signaller)
    requires Local(u) && u.Of(p) == Holding && u.resumer == Nobody
    ensures Local(ResumeSection(u, p))
  {
    match p { case Publisher => case Closer => case Canceller => }
  }

  lemma ReturnKeeps(u: Sub, p: Signaller)
    requires Local(u) && u.Of(p) == Resuming && !u.frame.Running?
    ensures Local(ReturnSection(u, p))
  {
    match p { case Publisher => case Closer => case Canceller => }
  }

  lemma DropKeeps(u: Sub, p: Signaller)
    requires Local(u) && u.Of(p) == Released
    ensures Local(DropSection(u, p))
  {
    SameDelivery(u, DropSection(u, p));
    SameFrame(u, DropSection(u, p));
    match p { case Publisher => case Closer => case Canceller => }
  }

  lemma RemoveKeeps(u: Sub)
    requires Local(u) && u.cancel == Removing
    ensures Local(u.(cancel := Draining))
  {
  }

  lemma DrainKeeps(u: Sub)
    requires Local(u) && u.cancel == Draining && u.active == 0
    ensures Local(u.(cancel := Cancelled))
  {
  }
}
