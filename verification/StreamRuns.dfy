/** Whole runs of the stream machine: delivery, accounting and shutdown. */
module StreamRuns {
  import SerialDispatch
  import opened Streams
  import opened StreamLocal
  import opened StreamInvariant
  import opened StreamSteps

  lemma StepKeeps(w: World, step: Step)
    requires Inv(w) && Enabled(w, step)
    ensures Inv(Apply(w, step))
  {
    hide Inv;
    match step
    case Start(s, c, r) => if !w.clients[c].shuttingDown { StartKeeps(w, s, c, r); }
    case Cancel(s) => QueueKeeps(w, w.streams[s].reactor, CancelStream(s));
    case BeginShutdown(c) => ShutdownKeeps(w, c);
    case SendCancelOwner(c, r) => QueueKeeps(w, r, CancelOwner(c));
    case QueueShutdown(r) => QueueKeeps(w, r, Shutdown);
    case Swap(r) => SwapKeeps(w, r);
    case Process(r, admitted) => ProcessKeeps(w, r, admitted);
    case Arrive(s, work) => ArriveKeeps(w, s, work);
    case ReportNext(r) => ReportKeeps(w, r);
    case Finished(s) => CloseStep(w, w.streams[s].reactor, {s});
    case FailAll(r) => CloseStep(w, r, w.reactors[r].transfers);
    case Pick(r, s) => PickKeeps(w, r, s);
    case Advance(r) => if w.reactors[r].current.value.stage.Ending? { EndKeeps(w, r); } else { FinalizeKeeps(w, r); }
    case Leave(r) => CloseKeeps(w, r, w.reactors[r].transfers, true);
    case DrainNext(s, i, ok) => DrainKeeps(w, s, i, ok);
  }

  lemma CloseStep(w: World, r: nat, closing: set<nat>)
    requires Inv(w) && r in w.reactors && Free(w.reactors[r]) && closing <= w.reactors[r].transfers
    ensures Inv(WithReactor(w, r, Closing(w.reactors[r], closing)))
  {
    hide Inv;
    CloseKeeps(w, r, closing, false);
    assert Closing(w.reactors[r], closing).(left := false) == Closing(w.reactors[r], closing);
  }

  lemma {:induction false} RunKeeps(w: World, steps: seq<Step>, w': World)
    requires Inv(w) && Reaches(w, steps, w')
    ensures Inv(w')
    decreases |steps|
  {
    hide Inv, Enabled, Apply;
    if steps != [] {
      StepKeeps(w, steps[0]);
      RunKeeps(Apply(w, steps[0]), steps[1..], w');
    }
  }

  lemma InitialInv(w: World)
    requires Initial(w)
    ensures Inv(w)
  {
    forall c | c in w.clients ensures Unfinished(w.streams, c) == {} {}
  }

  lemma ReachableInv(w: World)
    requires Reachable(w)
    ensures Inv(w)
  {
    hide Inv, Initial, Reaches;
    var start, steps :| Initial(start) && Reaches(start, steps, w);
    InitialInv(start);
    RunKeeps(start, steps, w);
  }

  // ----- Delivery ------------------------------------------------------------

  /** Whatever reactors, workers, failing handlers and cancellations do, the handlers have been called on a prefix of
      the metadata and chunks that arrived, in order, by at most one drain at a time; completion was called at most
      once. */
  lemma ChunksAreHandledInOrder(w: World, s: nat)
    requires Reachable(w) && s in w.streams
    ensures w.streams[s].handled <= w.streams[s].arrived
    ensures |w.streams[s].drains| <= 1
    ensures w.streams[s].completed <= 1
  {
    hide Reachable, Inv;
    ReachableInv(w);
    LocalOf(w, s);
  }

  lemma LocalOf(w: World, s: nat)
    requires Inv(w) && s in w.streams
    ensures w.streams[s].owner in w.clients && w.streams[s].reactor in w.reactors
    ensures Local(w.streams[s], TrackOf(w.reactors[w.streams[s].reactor], s),
                  w.clients[w.streams[s].owner].shuttingDown)
  {
    hide Local, TrackOf, ReactorsOk, Counts;
  }

  /** A completion that was given an error comes after one was recorded; one that was given none, while the client is
      not shutting down, comes after everything that arrived was handled. */
  lemma CompletionTellsAll(w: World, s: nat)
    requires Reachable(w) && s in w.streams && w.streams[s].completed == 1
    ensures w.streams[s].failure <==> w.streams[s].failed
    ensures w.streams[s].owner in w.clients
    ensures !w.streams[s].failure && !w.clients[w.streams[s].owner].shuttingDown ==>
      w.streams[s].handled == w.streams[s].arrived
  {
    hide Reachable, Inv, Serial;
    ReachableInv(w);
    LocalOf(w, s);
    assert Works(w.streams[s]) == [] && Received([]) == [];
  }

  /** A stream's queue never holds more than the task limit and its terminal task, nor bytes beyond the byte limit. */
  lemma StreamQueueIsBounded(w: World, s: nat)
    requires Reachable(w) && s in w.streams
    ensures |w.streams[s].dispatch.tasks| <= SerialDispatch.MAX_TASKS + 1
    ensures SerialDispatch.Within(w.streams[s].dispatch)
  {
    hide Reachable, Inv, Delivered, SerialDispatch.Within;
    ReachableInv(w);
    LocalOf(w, s);
  }

  /** The calls a stream has made and its fixed fields, before and after a step that is not one of its drains. */
  lemma OtherSteps(w: World, step: Step, s: nat)
    requires Enabled(w, step) && s in w.streams && (step.DrainNext? ==> step.stream != s)
    ensures var w' := Apply(w, step);
      && s in w'.streams && w'.streams[s].owner == w.streams[s].owner && w'.streams[s].reactor == w.streams[s].reactor
      && w'.streams[s].handled == w.streams[s].handled && w'.streams[s].completed == w.streams[s].completed
      && (w.streams[s].released ==> w'.streams[s].released)
  {
    hide Enqueued, Closing, ProcessSection, Free;
    if step.Arrive? { ArriveSame(w.streams[step.stream], step.work); }
  }

  lemma DrainAfterCompletion(w: World, s: nat, i: nat, ok: bool)
    requires Inv(w) && Enabled(w, DrainNext(s, i, ok)) && w.streams[s].completed == 1
    ensures var w' := AfterDrain(w, s, i, ok);
      w'.streams[s].handled == w.streams[s].handled && w'.streams[s].completed == w.streams[s].completed
  {
    hide Inv, Placed, Serial, Delivered;
    LocalOf(w, s);
    assert w.streams[s].dispatch.tasks == [] by { assert |Works(w.streams[s])| == |w.streams[s].dispatch.tasks|; }
  }

  /** Once completion was called, no handler of the stream is called again. */
  lemma {:induction false} NothingFollowsCompletion(w: World, steps: seq<Step>, w': World, s: nat)
    requires Inv(w) && Reaches(w, steps, w') && s in w.streams && w.streams[s].completed == 1
    ensures s in w'.streams && w'.streams[s].handled == w.streams[s].handled && w'.streams[s].completed == 1
    decreases |steps|
  {
    hide Inv, Enabled, Apply;
    if steps != [] {
      var step := steps[0];
      StepKeeps(w, step);
      CompletedStep(w, step, s);
      NothingFollowsCompletion(Apply(w, step), steps[1..], w', s);
    }
  }

  lemma CompletedStep(w: World, step: Step, s: nat)
    requires Inv(w) && Enabled(w, step) && s in w.streams && w.streams[s].completed == 1
    ensures var w' := Apply(w, step);
      s in w'.streams && w'.streams[s].handled == w.streams[s].handled && w'.streams[s].completed == 1
  {
    hide Inv, AfterDrain;
    if step.DrainNext? && step.stream == s {
      DrainAfterCompletion(w, s, step.index, step.ok);
      DrainKeepsStreams(w, step.stream, step.index, step.ok);
    } else {
      OtherSteps(w, step, s);
    }
  }

  lemma DrainKeepsStreams(w: World, s: nat, i: nat, ok: bool)
    requires Enabled(w, DrainNext(s, i, ok))
    ensures AfterDrain(w, s, i, ok).streams.Keys == w.streams.Keys
    ensures forall o :: o in w.streams ==>
      var u, v := w.streams[o], AfterDrain(w, s, i, ok).streams[o];
      v.owner == u.owner && v.reactor == u.reactor && v.released == u.released
  {
    DrainSame(w.streams[s], i, w.clients[w.streams[s].owner].shuttingDown, ok);
  }

  // ----- Accounting and shutdown ---------------------------------------------

  /** A client's count is the number of its streams that are registered and not finalised. */
  lemma ActiveStreamsAreCounted(w: World, c: nat)
    requires Reachable(w) && c in w.clients
    ensures w.clients[c].active == |Unfinished(w.streams, c)|
  {
    hide Reachable, StreamsOk, ReactorsOk;
    ReachableInv(w);
  }

  /** No stream registers once shutdown is flagged, so the unfinished ones only get fewer. */
  lemma ShutdownStep(w: World, step: Step, c: nat)
    requires Registered(w) && Enabled(w, step) && c in w.clients && w.clients[c].shuttingDown
    ensures var w' := Apply(w, step);
      && c in w'.clients && w'.clients[c].shuttingDown
      && (forall s :: s in w'.streams && w'.streams[s].owner == c ==>
            s in w.streams && w.streams[s].owner == c && (w.streams[s].released ==> w'.streams[s].released))
  {
    var w' := Apply(w, step);
    forall s | s in w'.streams && w'.streams[s].owner == c
      ensures s in w.streams && w.streams[s].owner == c && (w.streams[s].released ==> w'.streams[s].released)
    {
      if s in w.streams {
        if step.DrainNext? {
          DrainKeepsStreams(w, step.stream, step.index, step.ok);
        } else {
          OtherSteps(w, step, s);
        }
      }
    }
  }

  lemma {:induction false} ShutdownRun(w: World, steps: seq<Step>, w': World, c: nat)
    requires Inv(w) && Reaches(w, steps, w') && c in w.clients && w.clients[c].shuttingDown
    ensures c in w'.clients && Unfinished(w'.streams, c) <= Unfinished(w.streams, c)
    ensures forall s :: s in w'.streams && w'.streams[s].owner == c ==> s in w.streams && w.streams[s].owner == c
    decreases |steps|
  {
    hide Enabled, Apply, StreamsOk, ReactorsOk, Counts;
    if steps != [] {
      StepKeeps(w, steps[0]);
      ShutdownStep(w, steps[0], c);
      ShutdownRun(Apply(w, steps[0]), steps[1..], w', c);
    }
  }

  /** After shutdown was flagged nothing registers, and a count that was waited down to zero stays there. */
  lemma ShutdownIsFinal(w: World, steps: seq<Step>, w': World, c: nat)
    requires Reachable(w) && Reaches(w, steps, w') && c in w.clients && w.clients[c].shuttingDown
    ensures c in w'.clients
    ensures forall s :: s in w'.streams && w'.streams[s].owner == c ==> s in w.streams
    ensures w.clients[c].active == 0 ==> w'.clients[c].active == 0
  {
    hide Reachable, Reaches, StreamsOk, ReactorsOk, Unfinished;
    ReachableInv(w);
    RunKeeps(w, steps, w');
    ShutdownRun(w, steps, w', c);
    assert w.clients[c].active == |Unfinished(w.streams, c)| && w'.clients[c].active == |Unfinished(w'.streams, c)|;
    if w.clients[c].active == 0 {
      assert Unfinished(w.streams, c) == {};
      assert Unfinished(w'.streams, c) == {};
    }
  }

  /** A reactor that has no completion due or under way. */
  predicate Settled(q: Reactor)
  {
    q.closing == {} && q.current.None?
  }

  lemma SettledIsReleased(w: World, s: nat)
    requires Inv(w) && s in w.streams && w.streams[s].reactor in w.reactors && Settled(w.reactors[w.streams[s].reactor])
    requires w.streams[s].owner in w.reactors[w.streams[s].reactor].swept || w.reactors[w.streams[s].reactor].left
    ensures w.streams[s].done && w.streams[s].released && w.streams[s].ended == 1
  {
    hide Inv, Serial, TerminalOnce, Delivered;
    LocalOf(w, s);
    NotHeld(w, s);
  }

  lemma NotHeld(w: World, s: nat)
    requires Inv(w) && s in w.streams && w.streams[s].reactor in w.reactors
    requires w.streams[s].owner in w.reactors[w.streams[s].reactor].swept || w.reactors[w.streams[s].reactor].left
    ensures var t := TrackOf(w.reactors[w.streams[s].reactor], s); !t.adding && !t.listed
  {
    hide StreamsOk, Counts;
    var r := w.streams[s].reactor;
    var q := w.reactors[r];
    assert ReactorOk(q, r, w.streams, w.clients);
    assert Add(s) !in Commands(q);
  }

  lemma AddsPrecedeOwnerCancel(w: World, r: nat, i: nat, j: nat)
    requires Reachable(w) && r in w.reactors && i < |Commands(w.reactors[r])| && j < |Commands(w.reactors[r])|
    requires Commands(w.reactors[r])[i].Add? && Commands(w.reactors[r])[i].stream in w.streams
    requires Commands(w.reactors[r])[j] == CancelOwner(w.streams[Commands(w.reactors[r])[i].stream].owner)
    ensures i < j
  {
    hide Reachable, StreamsOk, Counts;
    ReachableInv(w);
    assert ReactorOk(w.reactors[r], r, w.streams, w.clients);
  }

  /** Each add command precedes the owner's cancellation in its reactor's queue, so once every reactor has processed
      that cancellation (or has left its loop) the client's count is zero. */
  lemma ShutdownDrainsTheCount(w: World, c: nat)
    requires Reachable(w) && c in w.clients
    requires forall r :: r in w.reactors ==> Settled(w.reactors[r]) && (c in w.reactors[r].swept || w.reactors[r].left)
    ensures w.clients[c].active == 0
  {
    hide Reachable, StreamsOk, ReactorsOk;
    ReachableInv(w);
    forall s | s in w.streams && w.streams[s].owner == c ensures w.streams[s].released {
      SettledIsReleased(w, s);
    }
    assert Unfinished(w.streams, c) == {};
  }

  /** Every transfer completes at most once, and each transfer of a reactor that has left its loop exactly once. */
  lemma TransfersCompleteOnce(w: World, s: nat)
    requires Reachable(w) && s in w.streams
    ensures w.streams[s].ended <= 1
    ensures w.streams[s].reactor in w.reactors
    ensures w.reactors[w.streams[s].reactor].left && Settled(w.reactors[w.streams[s].reactor]) ==>
      w.streams[s].done && w.streams[s].ended == 1
  {
    hide Reachable, Inv, Serial, Delivered;
    ReachableInv(w);
    LocalOf(w, s);
    if w.reactors[w.streams[s].reactor].left && Settled(w.reactors[w.streams[s].reactor]) {
      SettledIsReleased(w, s);
    }
  }
}
