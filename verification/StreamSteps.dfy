/** Each step of the stream machine keeps its invariant. */
module StreamSteps {
  import opened Protocol
  import SerialDispatch
  import opened Streams
  import opened StreamLocal
  import opened StreamInvariant

  // ----- Queueing a command --------------------------------------------------

  lemma EnqueueTracks(q: Reactor, command: Command, s: nat)
    ensures TrackOf(Enqueued(q, command), s) ==
            TrackOf(q, s).(adding := Add(s) in Commands(q) || (!q.shutdownQueued && command == Add(s)))
  {
  }

  lemma EnqueueOk(q: Reactor, r: nat, command: Command, streams: map<nat, Stream>, clients: map<nat, Client>)
    requires ReactorOk(q, r, streams, clients)
    requires CommandOk(command, q.(shutdownQueued := true), r, streams, clients)
    requires q.shutdownQueued ==> command.CancelOwner? || command.Shutdown?
    requires command.Add? ==>
      forall i :: 0 <= i < |Commands(q)| && !Commands(q)[i].Shutdown? ==> MayFollow(Commands(q)[i], command, streams)
    ensures ReactorOk(Enqueued(q, command), r, streams, clients)
  {
    var q' := Enqueued(q, command);
    if q.shutdownQueued && !command.Shutdown? {
      assert q' == q;
    } else {
      assert Commands(q') == Commands(q) + [command];
      var before, after := Commands(q), Commands(q');
      hide Commands;
      forall i, j | 0 <= i < j < |after| ensures MayFollow(after[i], after[j], streams) {
        assert CommandOk(before[i], q, r, streams, clients);
      }
    }
  }

  lemma QueueKeeps(w: World, r: nat, command: Command)
    requires Inv(w) && r in w.reactors && !command.Add?
    requires CommandOk(command, w.reactors[r].(shutdownQueued := true), r, w.streams, w.clients)
    requires w.reactors[r].shutdownQueued ==> command.CancelOwner? || command.Shutdown?
    ensures Inv(WithReactor(w, r, Enqueued(w.reactors[r], command)))
  {
    hide Local, CommandOk, ReactorOk, TrackOf, Enqueued;
    var q := w.reactors[r];
    EnqueueOk(q, r, command, w.streams, w.clients);
    forall s | s in w.streams && w.streams[s].reactor == r
      ensures Local(w.streams[s], TrackOf(Enqueued(q, command), s), w.clients[w.streams[s].owner].shuttingDown)
    {
      SameTrack(q, command, s);
    }
    ReactorStep(w, r, Enqueued(q, command));
  }

  lemma SameTrack(q: Reactor, command: Command, s: nat)
    requires !command.Add?
    ensures TrackOf(Enqueued(q, command), s) == TrackOf(q, s)
  {
    EnqueueTracks(q, command, s);
  }

  // ----- Starting a stream ---------------------------------------------------

  lemma StartKeeps(w: World, s: nat, c: nat, r: nat)
    requires Inv(w) && Enabled(w, Start(s, c, r)) && !w.clients[c].shuttingDown
    ensures Inv(AfterStart(w, s, c, r))
  {
    hide Local, TrackOf, ReactorsOk, StreamsOk, Unfinished, Enqueued;
    var w' := AfterStart(w, s, c, r);
    StartReactors(w, s, c, r);
    StartStreams(w, s, c, r);
    forall k | k in w.clients ensures w'.clients[k].active == |Unfinished(w'.streams, k)| {
      StartCounts(w.streams, s, c, r, k);
    }
  }

  lemma StartReactors(w: World, s: nat, c: nat, r: nat)
    requires Inv(w) && Enabled(w, Start(s, c, r)) && !w.clients[c].shuttingDown
    ensures ReactorsOk(AfterStart(w, s, c, r))
  {
    hide StreamsOk, Counts, ReactorOk, Enqueued;
    var w' := AfterStart(w, s, c, r);
    forall o | o in w'.reactors ensures ReactorOk(w'.reactors[o], o, w'.streams, w'.clients) {
      ReactorFrame(w.reactors[o], o, w.streams, w.clients, w'.streams, w'.clients);
      if o == r { AddQueues(w.reactors[r], s, r, w.streams, w.clients, w'.streams, w'.clients); }
    }
  }

  lemma StartStreams(w: World, s: nat, c: nat, r: nat)
    requires Inv(w) && Enabled(w, Start(s, c, r)) && !w.clients[c].shuttingDown
    ensures var w' := AfterStart(w, s, c, r); Registered(w') && StreamsOk(w')
  {
    hide Local, TrackOf, ReactorsOk, Counts, Enqueued;
    var w', q := AfterStart(w, s, c, r), w.reactors[r];
    forall o | o in w'.streams
      ensures Local(w'.streams[o], TrackOf(w'.reactors[w'.streams[o].reactor], o),
                    w'.clients[w'.streams[o].owner].shuttingDown)
    {
      EnqueueTracks(q, Add(s), o);
      if o == s {
        NewTrack(w, s, r);
        LocalStart(c, r);
      } else {
        OldTrack(q, o);
      }
    }
  }

  lemma OldTrack(q: Reactor, s: nat)
    ensures TrackOf(q, s).(adding := Add(s) in Commands(q)) == TrackOf(q, s)
  {
  }

  /** A reactor has heard nothing of a stream that does not exist yet. */
  lemma NewTrack(w: World, s: nat, r: nat)
    requires Inv(w) && s !in w.streams && r in w.reactors
    ensures TrackOf(w.reactors[r], s) == Track(false, false, false, None, None)
  {
    Unheard(w.reactors[r], s, r, w.streams, w.clients);
  }

  lemma Unheard(q: Reactor, s: nat, r: nat, streams: map<nat, Stream>, clients: map<nat, Client>)
    requires ReactorOk(q, r, streams, clients) && s !in streams
    ensures TrackOf(q, s) == Track(false, false, false, None, None)
  {
    assert Add(s) !in Commands(q);
  }

  lemma AddQueues(q: Reactor, s: nat, r: nat, streams: map<nat, Stream>, clients: map<nat, Client>,
                  streams': map<nat, Stream>, clients': map<nat, Client>)
    requires ReactorOk(q, r, streams, clients) && ReactorOk(q, r, streams', clients')
    requires s !in streams && !q.shutdownQueued
    requires s in streams' && streams'[s].reactor == r && streams'[s].owner in clients
    requires !clients[streams'[s].owner].shuttingDown
    ensures ReactorOk(Enqueued(q, Add(s)), r, streams', clients')
  {
    forall i | 0 <= i < |Commands(q)| && !Commands(q)[i].Shutdown?
      ensures MayFollow(Commands(q)[i], Add(s), streams')
    {
      assert CommandOk(Commands(q)[i], q, r, streams, clients);
    }
    EnqueueOk(q, r, Add(s), streams', clients');
  }

  lemma StartCounts(streams: map<nat, Stream>, s: nat, c: nat, r: nat, k: nat)
    requires s !in streams
    ensures |Unfinished(streams[s := NewStream(c, r)], k)| == |Unfinished(streams, k)| + (if k == c then 1 else 0)
  {
    var after := Unfinished(streams[s := NewStream(c, r)], k);
    assert after == Unfinished(streams, k) + (if k == c then {s} else {});
  }

  // ----- Shutting a client down ----------------------------------------------

  lemma ShutdownKeeps(w: World, c: nat)
    requires Inv(w) && c in w.clients
    ensures Inv(WithClient(w, c, w.clients[c].(shuttingDown := true)))
  {
    hide Local, TrackOf, ReactorOk;
    var w' := WithClient(w, c, w.clients[c].(shuttingDown := true));
    forall r | r in w'.reactors ensures ReactorOk(w'.reactors[r], r, w'.streams, w'.clients) {
      ReactorFrame(w.reactors[r], r, w.streams, w.clients, w'.streams, w'.clients);
    }
    forall s | s in w'.streams
      ensures Local(w'.streams[s], TrackOf(w'.reactors[w'.streams[s].reactor], s),
                    w'.clients[w'.streams[s].owner].shuttingDown)
    {
      if w.streams[s].owner == c && !w.clients[c].shuttingDown {
        LocalQuiet(w.streams[s], TrackOf(w.reactors[w.streams[s].reactor], s));
      }
    }
  }

  // ----- The reactor's table -------------------------------------------------

  lemma SwapKeeps(w: World, r: nat)
    requires Inv(w) && Enabled(w, Swap(r))
    ensures Inv(Apply(w, Swap(r)))
  {
    var q := w.reactors[r];
    var q' := q.(batch := q.commands, commands := []);
    assert Commands(q') == Commands(q);
    forall s ensures TrackOf(q', s) == TrackOf(q, s) {}
    assert ReactorOk(q, r, w.streams, w.clients);
    hide Local, Commands, TrackOf;
    ReactorStep(w, r, q');
  }

  /** Transfers leave the table, and their completion is due. */
  lemma CloseTracks(q: Reactor, closing: set<nat>, left: bool, s: nat)
    requires Free(q)
    ensures var t := TrackOf(q, s);
      && t.stage.None? && t.report.None? && !t.closing
      && TrackOf(Closing(q, closing).(left := left), s) ==
         t.(listed := t.listed && s !in closing, closing := s in closing)
  {
  }

  lemma CloseKeeps(w: World, r: nat, closing: set<nat>, left: bool)
    requires Inv(w) && r in w.reactors && Free(w.reactors[r]) && closing <= w.reactors[r].transfers
    requires left ==> w.reactors[r].shuttingDown && closing == w.reactors[r].transfers
    ensures Inv(WithReactor(w, r, Closing(w.reactors[r], closing).(left := left)))
  {
    hide ReactorOk, Local, TrackOf, Closing, Free;
    var q := w.reactors[r];
    var q' := Closing(q, closing).(left := left);
    CloseOk(q, r, closing, left, w.streams, w.clients);
    forall s | s in w.streams && w.streams[s].reactor == r
      ensures Local(w.streams[s], TrackOf(q', s), w.clients[w.streams[s].owner].shuttingDown)
    {
      CloseTracks(q, closing, left, s);
      CloseOne(w, r, s, closing);
    }
    ReactorStep(w, r, q');
  }

  lemma CloseOk(q: Reactor, r: nat, closing: set<nat>, left: bool, streams: map<nat, Stream>, clients: map<nat, Client>)
    requires ReactorOk(q, r, streams, clients) && closing <= q.transfers
    requires left ==> q.shuttingDown && closing == q.transfers
    ensures ReactorOk(Closing(q, closing).(left := left), r, streams, clients)
  {
    assert Commands(Closing(q, closing).(left := left)) == Commands(q);
  }

  lemma CloseOne(w: World, r: nat, s: nat, closing: set<nat>)
    requires Inv(w) && s in w.streams && w.streams[s].reactor == r && r in w.reactors && Free(w.reactors[r])
    requires closing <= w.reactors[r].transfers
    ensures var t := TrackOf(w.reactors[r], s);
      Local(w.streams[s], t.(listed := t.listed && s !in closing, closing := s in closing),
            w.clients[w.streams[s].owner].shuttingDown)
  {
    hide ReactorsOk, Counts, Serial, TerminalOnce, Delivered;
    var t, quiet := TrackOf(w.reactors[r], s), w.clients[w.streams[s].owner].shuttingDown;
    assert Local(w.streams[s], t, quiet);
    CloseTracks(w.reactors[r], closing, false, s);
    if s in closing {
      LocalClose(w.streams[s], t, quiet);
    } else {
      assert t.(listed := t.listed && s !in closing, closing := s in closing) == t;
    }
  }

  // ----- Processing a command ------------------------------------------------

  function Taken(q: Reactor): Reactor
    requires q.batch != []
  {
    q.(batch := q.batch[1..])
  }

  /** The head of the queue is fit to be processed, and so is the rest behind it. */
  lemma TakenOk(q: Reactor, r: nat, streams: map<nat, Stream>, clients: map<nat, Client>)
    requires ReactorOk(q, r, streams, clients) && q.batch != []
    ensures ReactorOk(Taken(q), r, streams, clients)
    ensures Commands(Taken(q)) == Commands(q)[1..] && Commands(q) != [] && Commands(q)[0] == q.batch[0]
    ensures CommandOk(q.batch[0], q, r, streams, clients)
    ensures forall i :: 0 <= i < |Commands(Taken(q))| ==> MayFollow(q.batch[0], Commands(Taken(q))[i], streams)
  {
    var before, after := Commands(q), Commands(Taken(q));
    assert after == before[1..];
    assert CommandOk(before[0], q, r, streams, clients);
    forall i | 0 <= i < |after|
      ensures CommandOk(after[i], Taken(q), r, streams, clients) && MayFollow(before[0], after[i], streams)
    {
      assert after[i] == before[i + 1];
      assert CommandOk(before[i + 1], q, r, streams, clients);
    }
    forall i, j | 0 <= i < j < |after| ensures MayFollow(after[i], after[j], streams) {
      assert MayFollow(before[i + 1], before[j + 1], streams);
    }
  }

  lemma TakenTracks(q: Reactor, r: nat, s: nat, streams: map<nat, Stream>, clients: map<nat, Client>)
    requires ReactorOk(q, r, streams, clients) && q.batch != []
    ensures TrackOf(Taken(q), s) == TrackOf(q, s).(adding := TrackOf(q, s).adding && q.batch[0] != Add(s))
    ensures TrackOf(q, s).adding ==> q.batch[0] != CancelStream(s) && !q.batch[0].Shutdown?
    ensures q.batch[0] == Add(s) ==> TrackOf(q, s).adding
  {
    TakenOk(q, r, streams, clients);
    var rest := Commands(Taken(q));
    hide ReactorOk;
    assert Commands(q) == [q.batch[0]] + rest;
    assert Add(s) in Commands(q) <==> q.batch[0] == Add(s) || Add(s) in rest;
    if Add(s) in rest {
      var i :| 0 <= i < |rest| && rest[i] == Add(s);
      assert MayFollow(q.batch[0], rest[i], streams);
    }
  }

  lemma ProcessKeeps(w: World, r: nat, admitted: bool)
    requires Inv(w) && Enabled(w, Process(r, admitted))
    ensures Inv(WithReactor(w, r, ProcessSection(w.reactors[r], w.streams, admitted)))
  {
    hide ReactorOk, Local, TrackOf, ProcessSection;
    var q := w.reactors[r];
    var q' := ProcessSection(q, w.streams, admitted);
    ProcessOk(q, r, w.streams, w.clients, admitted);
    forall s | s in w.streams && w.streams[s].reactor == r
      ensures Local(w.streams[s], TrackOf(q', s), w.clients[w.streams[s].owner].shuttingDown)
    {
      ProcessOne(q, r, s, w.streams, w.clients, admitted, w.clients[w.streams[s].owner].shuttingDown);
    }
    ReactorStep(w, r, q');
  }

  lemma ProcessOk(q: Reactor, r: nat, streams: map<nat, Stream>, clients: map<nat, Client>, admitted: bool)
    requires ReactorOk(q, r, streams, clients) && q.batch != [] && Free(q)
    ensures ReactorOk(ProcessSection(q, streams, admitted), r, streams, clients)
  {
    var q' := ProcessSection(q, streams, admitted);
    TakenOk(q, r, streams, clients);
    assert Commands(q') == Commands(Taken(q));
    var rest := Commands(q');
    hide Commands;
    forall i | 0 <= i < |rest| ensures CommandOk(rest[i], q', r, streams, clients) {
      assert CommandOk(rest[i], Taken(q), r, streams, clients) && MayFollow(q.batch[0], rest[i], streams);
    }
  }

  lemma ProcessOne(q: Reactor, r: nat, s: nat, streams: map<nat, Stream>, clients: map<nat, Client>,
                   admitted: bool, quiet: bool)
    requires ReactorOk(q, r, streams, clients) && q.batch != [] && Free(q)
    requires s in streams && Local(streams[s], TrackOf(q, s), quiet)
    ensures Local(streams[s], TrackOf(ProcessSection(q, streams, admitted), s), quiet)
  {
    hide ReactorOk, Serial, TerminalOnce, Delivered, TrackOf;
    var t, t' := TrackOf(q, s), TrackOf(ProcessSection(q, streams, admitted), s);
    TakenTracks(q, r, s, streams, clients);
    ProcessTracks(q, s, streams, admitted);
    if q.batch[0] == Add(s) {
      LocalAdmit(streams[s], t, quiet);
    } else if t'.closing {
      LocalClose(streams[s], t, quiet);
    }
  }

  /** Where processing the head command leaves a stream. */
  lemma ProcessTracks(q: Reactor, s: nat, streams: map<nat, Stream>, admitted: bool)
    requires q.batch != [] && Free(q)
    ensures TrackOf(q, s).stage.None? && TrackOf(q, s).report.None? && !TrackOf(q, s).closing
    ensures var t, t' := TrackOf(Taken(q), s), TrackOf(ProcessSection(q, streams, admitted), s);
      var command := q.batch[0];
      if command == Add(s) && admitted && !q.shuttingDown then t' == t.(listed := true)
      else if command == Add(s) || command == CancelStream(s)
              || (command.CancelOwner? && t.listed && s in streams && streams[s].owner == command.owner)
      then t' == t.(listed := false, closing := true)
      else t' == t
  {
  }

  // ----- A chunk arrives; an error is recorded --------------------------------

  lemma ArriveKeeps(w: World, s: nat, work: Work)
    requires Inv(w) && Enabled(w, Arrive(s, work))
    ensures Inv(AfterArrive(w, s, work))
  {
    hide ReactorOk, Local, ArriveSection, SerialDispatch.Refuses;
    var u, quiet := w.streams[s], w.clients[w.streams[s].owner].shuttingDown;
    var q := w.reactors[u.reactor];
    var report := if SerialDispatch.Refuses(u.dispatch, Size(work), false) then Some(At(s, Locking)) else None;
    LocalArrive(u, TrackOf(q, s), quiet, work);
    ReportOk(q, u.reactor, s, report, w.streams, w.clients);
    ArriveSame(u, work);
    StreamStep(w, s, ArriveSection(u, work), q.(reporting := report));
  }

  lemma ArriveSame(u: Stream, work: Work)
    ensures var v := ArriveSection(u, work); v.owner == u.owner && v.reactor == u.reactor && v.released == u.released
  {
  }

  lemma ReportOk(q: Reactor, r: nat, s: nat, report: Option<At<Report>>, streams: map<nat, Stream>,
                 clients: map<nat, Client>)
    requires ReactorOk(q, r, streams, clients) && Known(s, r, streams)
    requires report.Some? ==> report.value.stream == s
    requires q.reporting.Some? ==> q.reporting.value.stream == s
    ensures ReactorOk(q.(reporting := report), r, streams, clients)
    ensures forall o :: o != s ==> TrackOf(q.(reporting := report), o) == TrackOf(q, o)
    ensures TrackOf(q.(reporting := report), s) ==
            TrackOf(q, s).(report := if report.Some? then Some(report.value.stage) else None)
  {
    assert Commands(q.(reporting := report)) == Commands(q);
  }

  lemma ReportKeeps(w: World, r: nat)
    requires Inv(w) && Enabled(w, ReportNext(r))
    ensures Inv(AfterReport(w, r))
  {
    hide ReactorOk, Local, ReportSection;
    var q := w.reactors[r];
    var s, at := q.reporting.value.stream, q.reporting.value.stage;
    var u, quiet := w.streams[s], w.clients[w.streams[s].owner].shuttingDown;
    assert Known(s, r, w.streams) by {
      assert ReactorOk(q, r, w.streams, w.clients);
      ReportingKnown(q, r, w.streams, w.clients);
    }
    var (v, next) := ReportSection(u, at);
    var report := if next.Some? then Some(At(s, next.value)) else None;
    var q' := q.(reporting := report);
    ReportOk(q, r, s, report, w.streams, w.clients);
    LocalReport(u, TrackOf(q, s), quiet);
    ReportSame(u, at);
    StreamStep(w, s, v, q');
    if at.Cancelling? {
      QueueKeeps(WithReactor(WithStream(w, s, v), r, q'), r, CancelStream(s));
      RestoredReactor(WithStream(w, s, v), r, q', Enqueued(q', CancelStream(s)));
    }
  }

  lemma RestoredReactor(w: World, r: nat, q: Reactor, q': Reactor)
    ensures WithReactor(WithReactor(w, r, q), r, q') == WithReactor(w, r, q')
  {
  }

  lemma ReportingKnown(q: Reactor, r: nat, streams: map<nat, Stream>, clients: map<nat, Client>)
    requires ReactorOk(q, r, streams, clients)
    ensures q.reporting.Some? ==> Known(q.reporting.value.stream, r, streams)
    ensures q.current.Some? ==> Known(q.current.value.stream, r, streams)
    ensures forall s :: s in q.closing ==> Known(s, r, streams)
  {
  }

  lemma ReportSame(u: Stream, at: Report)
    ensures var v := ReportSection(u, at).0; v.owner == u.owner && v.reactor == u.reactor && v.released == u.released
  {
  }

  // ----- Completing a transfer ------------------------------------------------

  lemma PickKeeps(w: World, r: nat, s: nat)
    requires Inv(w) && Enabled(w, Pick(r, s))
    ensures Inv(AfterPick(w, r, s))
  {
    hide ReactorOk, Local, TrackOf;
    var q := w.reactors[r];
    ReportingKnown(q, r, w.streams, w.clients);
    var u, quiet := w.streams[s], w.clients[w.streams[s].owner].shuttingDown;
    var current := if u.done then None else Some(At(s, Finalizing));
    var q' := q.(closing := q.closing - {s}, current := current);
    StageOk(q, r, s, q.closing - {s}, current, w.streams, w.clients);
    InClosing(q, s);
    LocalPick(u, TrackOf(q, s), quiet);
    var v := if u.done then u else u.(done := true);
    StreamStep(w, s, v, q');
    assert u.done ==> WithStream(w, s, u) == w;
  }

  lemma InClosing(q: Reactor, s: nat)
    requires s in q.closing && q.current.None?
    ensures TrackOf(q, s).closing && TrackOf(q, s).stage.None?
  {
  }

  lemma StageOk(q: Reactor, r: nat, s: nat, closing: set<nat>, current: Option<At<Stage>>,
                streams: map<nat, Stream>, clients: map<nat, Client>)
    requires ReactorOk(q, r, streams, clients) && Known(s, r, streams) && closing == q.closing - {s}
    requires current.Some? ==> current.value.stream == s
    requires q.current.Some? ==> q.current.value.stream == s
    ensures var q' := q.(closing := closing, current := current);
      && ReactorOk(q', r, streams, clients)
      && (forall o :: o != s ==> TrackOf(q', o) == TrackOf(q, o))
      && TrackOf(q', s) ==
         TrackOf(q, s).(closing := false, stage := if current.Some? then Some(current.value.stage) else None)
  {
    assert Commands(q.(closing := closing, current := current)) == Commands(q);
  }

  lemma AtStage(q: Reactor, s: nat)
    requires q.current.Some? && q.current.value.stream == s
    ensures TrackOf(q, s).stage == Some(q.current.value.stage)
  {
  }

  lemma SameClosing(q: Reactor, s: nat, current: Option<At<Stage>>)
    requires !TrackOf(q, s).closing
    ensures q.(closing := q.closing - {s}, current := current) == q.(current := current)
  {
    assert q.closing - {s} == q.closing;
  }

  /** The stream whose completion is under way. */
  lemma Completing(w: World, r: nat)
    requires Inv(w) && Enabled(w, Advance(r))
    ensures var q := w.reactors[r];
      var s := q.current.value.stream;
      && Known(s, r, w.streams) && w.streams[s].owner in w.clients && ReactorOk(q, r, w.streams, w.clients)
      && Local(w.streams[s], TrackOf(q, s), w.clients[w.streams[s].owner].shuttingDown)
      && TrackOf(q, s).stage == Some(q.current.value.stage) && !TrackOf(q, s).closing
      && (q.current.value.stage.Finalizing? ==> !w.streams[s].released)
  {
    hide ReactorOk, Serial, TerminalOnce, Delivered, TrackOf;
    var q := w.reactors[r];
    ReportingKnown(q, r, w.streams, w.clients);
    AtStage(q, q.current.value.stream);
    assert Local(w.streams[q.current.value.stream], TrackOf(q, q.current.value.stream),
                 w.clients[w.streams[q.current.value.stream].owner].shuttingDown);
  }

  lemma EndKeeps(w: World, r: nat)
    requires Inv(w) && Enabled(w, Advance(r)) && w.reactors[r].current.value.stage.Ending?
    ensures Inv(AfterAdvance(w, r))
  {
    hide ReactorOk, Local, TrackOf, Submit, Inv;
    var q := w.reactors[r];
    var s := q.current.value.stream;
    Completing(w, r);
    var u, quiet := w.streams[s], w.clients[w.streams[s].owner].shuttingDown;
    StageOk(q, r, s, q.closing - {s}, None, w.streams, w.clients);
    SameClosing(q, s, None);
    LocalEnd(u, TrackOf(q, s), quiet);
    var v := Submit(u.(ended := u.ended + 1), Terminal);
    SubmitKeeps(u.(ended := u.ended + 1), Terminal);
    assert v.owner == u.owner && v.reactor == u.reactor && v.released == u.released;
    StreamStep(w, s, v, q.(current := None));
  }

  lemma FinalizeKeeps(w: World, r: nat)
    requires Inv(w) && Enabled(w, Advance(r)) && w.reactors[r].current.value.stage.Finalizing?
    ensures Inv(AfterAdvance(w, r))
  {
    hide ReactorOk, Local, TrackOf, Inv;
    var q := w.reactors[r];
    var s := q.current.value.stream;
    Completing(w, r);
    var u, quiet := w.streams[s], w.clients[w.streams[s].owner].shuttingDown;
    StageOk(q, r, s, q.closing - {s}, Some(At(s, Ending)), w.streams, w.clients);
    SameClosing(q, s, Some(At(s, Ending)));
    LocalFinalize(u, TrackOf(q, s), quiet);
    ReleaseStep(w, s, q.(current := Some(At(s, Ending))));
  }

  lemma ReleaseStep(w: World, s: nat, q: Reactor)
    requires Inv(w) && s in w.streams && !w.streams[s].released
    requires ReactorOk(q, w.streams[s].reactor, w.streams, w.clients)
    requires Local(w.streams[s].(released := true), TrackOf(q, s), w.clients[w.streams[s].owner].shuttingDown)
    requires forall o :: o != s ==> TrackOf(q, o) == TrackOf(w.reactors[w.streams[s].reactor], o)
    ensures var u := w.streams[s];
      var k := w.clients[u.owner];
      Inv(WithReactor(WithStream(WithClient(w, u.owner, k.(active := k.active - 1)), s, u.(released := true)),
                      u.reactor, q))
  {
    hide ReactorOk, Local, TrackOf, Unfinished;
    var u := w.streams[s];
    var k := w.clients[u.owner];
    var w' := WithReactor(WithStream(WithClient(w, u.owner, k.(active := k.active - 1)), s, u.(released := true)),
                          u.reactor, q);
    assert StreamsOk(w') by { hide ReactorsOk, Counts; }
    hide StreamsOk;
    forall r | r in w'.reactors ensures ReactorOk(w'.reactors[r], r, w'.streams, w'.clients) {
      ReactorFrame(w'.reactors[r], r, w.streams, w.clients, w'.streams, w'.clients);
    }
    forall c | c in w.clients ensures w'.clients[c].active == |Unfinished(w'.streams, c)| {
      ReleaseCounts(w.streams, s, c);
    }
  }

  lemma ReleaseCounts(streams: map<nat, Stream>, s: nat, c: nat)
    requires s in streams && !streams[s].released
    ensures |Unfinished(streams[s := streams[s].(released := true)], c)| ==
            |Unfinished(streams, c)| - (if c == streams[s].owner then 1 else 0)
  {
    var before, after := Unfinished(streams, c), Unfinished(streams[s := streams[s].(released := true)], c);
    if c == streams[s].owner {
      assert after == before - {s} && s in before;
    } else {
      assert after == before;
    }
  }

  // ----- A drain --------------------------------------------------------------

  lemma DrainKeeps(w: World, s: nat, i: nat, ok: bool)
    requires Inv(w) && Enabled(w, DrainNext(s, i, ok))
    ensures Inv(AfterDrain(w, s, i, ok))
  {
    hide Inv, ReactorOk, Local, TrackOf, DrainSection, CommandOk;
    StreamFacts(w, s);
    var u, quiet := w.streams[s], w.clients[w.streams[s].owner].shuttingDown;
    var q := w.reactors[u.reactor];
    var v := DrainSection(u, i, quiet, ok);
    LocalDrain(u, TrackOf(q, s), quiet, i, ok);
    DrainSame(u, i, quiet, ok);
    StreamStep(w, s, v, q);
    var w' := WithStream(w, s, v);
    assert WithReactor(w', u.reactor, q) == w';
    if u.drains[i] == Reporting(Cancelling) {
      assert CommandOk(CancelStream(s), q.(shutdownQueued := true), u.reactor, w'.streams, w'.clients) by {
        CancelIsKnown(s, q.(shutdownQueued := true), u.reactor, w'.streams, w'.clients);
      }
      QueueKeeps(w', u.reactor, CancelStream(s));
    }
  }

  lemma CancelIsKnown(s: nat, q: Reactor, r: nat, streams: map<nat, Stream>, clients: map<nat, Client>)
    requires Known(s, r, streams)
    ensures CommandOk(CancelStream(s), q, r, streams, clients)
  {
  }

  /** What the invariant says of one stream. */
  lemma StreamFacts(w: World, s: nat)
    requires Inv(w) && s in w.streams
    ensures var u := w.streams[s];
      && u.owner in w.clients && u.reactor in w.reactors
      && ReactorOk(w.reactors[u.reactor], u.reactor, w.streams, w.clients)
      && Local(u, TrackOf(w.reactors[u.reactor], s), w.clients[u.owner].shuttingDown)
  {
    hide ReactorOk, Local, TrackOf, Counts;
  }

  lemma DrainSame(u: Stream, i: nat, quiet: bool, ok: bool)
    requires i < |u.drains|
    ensures var v := DrainSection(u, i, quiet, ok);
      v.owner == u.owner && v.reactor == u.reactor && v.released == u.released && v.done == u.done && v.ended == u.ended
  {
  }
}
