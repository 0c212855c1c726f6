/** What every step of the subscription protocol keeps. */
module SubscriptionInvariant {
  import opened Subscription

  // ----- Control: one session, whoever is at work on it ----------------------

  function Count(b: bool): nat
  {
    if b then 1 else 0
  }

  predicate Busy(x: Sig)
  {
    x.Holding? || x.Resuming? || x.Released?
  }

  function Holders(u: Sub): nat
  {
    Count(u.pub == Holding) + Count(u.clo == Holding) + Count(u.can == Holding)
  }

  /** Whoever has the resume mutex is inside `resume()`, and `active_resumes` counts the holders of the frame. */
  predicate Accounts(u: Sub)
  {
    && (u.pub == Resuming <==> u.resumer == By(Publisher))
    && (u.clo == Resuming <==> u.resumer == By(Closer))
    && (u.can == Resuming <==> u.resumer == By(Canceller))
    && (u.reader == InResume <==> u.resumer == Reader)
    && u.active == Count(Busy(u.pub)) + Count(Busy(u.clo)) + Count(Busy(u.can))
  }

  predicate AtInitial(u: Sub)
  {
    && u.current.None? && !u.done && !u.cont && !u.again && Holders(u) == 0 && u.resumer == Nobody
    && ((u.reader == Outside && !u.started) || (u.reader == ToResume && u.started))
  }

  /** A yielded value waits for the reader, or the reader has it and owes the next resume. */
  predicate AtYield(u: Sub)
  {
    && !u.cont && !u.done && u.started && Holders(u) == 0
    && (|| (u.current.Some? && !u.again && (u.reader == Outside || u.reader == Waiting || u.reader == InResume))
        || (u.current.None? && u.again && (u.reader == Outside || u.reader.Got?))
        || (u.current.None? && !u.again && u.reader == ToResume))
  }

  predicate NothingToRead(u: Sub)
  {
    && u.current.None? && !u.again && u.started
    && (u.reader == Outside || u.reader == Waiting || u.reader == InResume)
  }

  /** A parked frame's handle is either stored or in the hands of exactly one signaller. */
  predicate AtAwait(u: Sub)
  {
    NothingToRead(u) && !u.done && Count(u.cont) + Holders(u) == 1
  }

  predicate FrameFits(u: Sub)
  {
    match u.frame
    case Suspended(InitialPoint) => AtInitial(u)
    case Suspended(YieldPoint(_)) => AtYield(u)
    case Suspended(AwaitPoint) => AtAwait(u)
    case Suspended(FinalPoint) => NothingToRead(u) && u.done && !u.cont && Holders(u) == 0
    case Running(code) =>
      && NothingToRead(u) && !u.done && !u.cont && Holders(u) == 0 && u.resumer != Nobody
      && (code == YieldSnapshot ==> u.reader == InResume)
    case Destroyed =>
      u.cancel == Cancelled && u.reader == Outside && u.resumer == Nobody && !u.cont && Holders(u) == 0
    case Undefined => false
  }

  /** A parked frame with something to do has a signaller on its way. */
  predicate NoLostWakeup(u: Sub)
  {
    u.cont && (u.closed || u.events != []) ==> u.pub == Due || u.clo == Due || u.can == Due
  }

  predicate PastTake(u: Sub)
  {
    || (u.cancel == Signalling && Busy(u.can))
    || u.cancel == Removing || u.cancel == Draining || u.cancel == Cancelled
  }

  predicate CancelFits(u: Sub)
  {
    && (u.cancel == Signalling <==> u.can != Out)
    && (u.can != Out && u.can != ToLock ==> u.closed)
    && (PastTake(u) ==> u.closed && !u.cont)
    && (u.cancel == Cancelled ==> !Busy(u.pub) && !Busy(u.clo))
    && (u.clo != Out && u.clo != ToLock ==> u.closed)
  }

  predicate Control(u: Sub)
  {
    Accounts(u) && FrameFits(u) && NoLostWakeup(u) && CancelFits(u)
  }

  // ----- Delivery: one session ----------------------------------------------

  /** What has left the queue, or is the snapshot, and is not handed out yet: never more than one event. */
  function InFlight(u: Sub): seq<Event>
  {
    if u.reader.Got? then [u.reader.e]
    else if u.current.Some? then [u.current.value]
    else if u.frame.Running? && u.frame.code.YieldEvent? then [u.frame.code.e]
    else if u.frame == Suspended(InitialPoint) || u.frame == Running(YieldSnapshot) then [SnapshotEvent(u.task)]
    else []
  }

  function Owed(u: Sub): seq<Event>
  {
    [SnapshotEvent(u.task)] + u.accepted
  }

  predicate AllUpdates(es: seq<Event>)
  {
    forall i :: 0 <= i < |es| ==> es[i].StatusUpdate?
  }

  predicate Conserved(u: Sub)
  {
    && u.handed <= Owed(u)
    && (!u.frame.Destroyed? ==> u.handed + InFlight(u) + u.events == Owed(u))
  }

  predicate Counted(u: Sub)
  {
    && AllUpdates(u.accepted) && AllUpdates(u.events)
    && (u.frame.Running? && u.frame.code.YieldEvent? ==> u.frame.code.e.StatusUpdate?)
    && (!u.frame.Destroyed? ==> u.pending == |u.events| + Count(InFlight(u) != [] && InFlight(u)[0].StatusUpdate?))
  }

  /** A terminal event is the last one accepted, and it closes the subscriber. */
  predicate TerminalLast(u: Sub)
  {
    && (forall i :: 0 <= i < |u.accepted| - 1 ==> !TerminalEvent(u.accepted[i]))
    && (u.accepted != [] && TerminalEvent(u.accepted[|u.accepted| - 1]) ==> u.closed)
  }

  /** A frame that finds its queue empty while open was resumed by a late signal; any other end comes after closing. */
  predicate LateFits(u: Sub)
  {
    && ((Holders(u) > 0 || u.frame == Running(AwaitResume)) && u.events == [] && !u.closed ==> u.late)
    && (u.frame == Running(Return) || u.done ==> u.late || (u.closed && u.events == []))
    && (u.frame == Suspended(YieldPoint(true)) ==> u.closed && u.events == [])
    && (u.frame.Running? && u.frame.code.YieldEvent? && TerminalEvent(u.frame.code.e) ==> u.closed && u.events == [])
    && (u.late ==>
         || (u.pub == Holding && u.events == [] && u.frame == Suspended(AwaitPoint))
         || (u.pub == Resuming && u.events == [] && u.frame == Running(AwaitResume))
         || u.frame == Running(Return) || u.frame == Suspended(FinalPoint) || u.frame == Destroyed)
  }

  predicate Local(u: Sub)
  {
    Control(u) && Conserved(u) && Counted(u) && TerminalLast(u) && LateFits(u)
  }
}
