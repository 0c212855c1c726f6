/** What every step of the stream machine keeps. */
module StreamInvariant {
  import opened Streams
  import opened StreamLocal

  // ----- One reactor ---------------------------------------------------------

  /** The commands a reactor has yet to process. */
  function Commands(q: Reactor): seq<Command>
  {
    q.batch + q.commands
  }

  /** Nothing is added behind its own cancellation, its owner's, or the shutdown, nor twice. */
  predicate MayFollow(a: Command, b: Command, streams: map<nat, Stream>)
  {
    && (a.Shutdown? ==> b.Shutdown?)
    && (b.Add? ==>
          b.stream in streams && a != b && a != CancelStream(b.stream) && a != CancelOwner(streams[b.stream].owner))
  }

  predicate Known(s: nat, r: nat, streams: map<nat, Stream>)
  {
    s in streams && streams[s].reactor == r
  }

  predicate CommandOk(command: Command, q: Reactor, r: nat, streams: map<nat, Stream>, clients: map<nat, Client>)
  {
    match command
    case Add(s) => Known(s, r, streams) && streams[s].owner !in q.swept
    case CancelStream(s) => Known(s, r, streams)
    case CancelOwner(c) => c in clients && clients[c].shuttingDown
    case Shutdown => q.shutdownQueued
  }

  ghost predicate QueueOk(q: Reactor, r: nat, streams: map<nat, Stream>, clients: map<nat, Client>)
  {
    && (forall i :: 0 <= i < |Commands(q)| ==> CommandOk(Commands(q)[i], q, r, streams, clients))
    && (forall i, j :: 0 <= i < j < |Commands(q)| ==> MayFollow(Commands(q)[i], Commands(q)[j], streams))
    && (q.shuttingDown ==> q.shutdownQueued && forall i :: 0 <= i < |Commands(q)| ==> Commands(q)[i].Shutdown?)
  }

  ghost predicate Table(q: Reactor, r: nat, streams: map<nat, Stream>, clients: map<nat, Client>)
  {
    && (forall s :: s in q.transfers ==> Known(s, r, streams) && streams[s].owner !in q.swept)
    && (forall s :: s in q.closing ==> Known(s, r, streams))
    && (q.current.Some? ==> Known(q.current.value.stream, r, streams))
    && (q.reporting.Some? ==> Known(q.reporting.value.stream, r, streams))
    && (forall c :: c in q.swept ==> c in clients && clients[c].shuttingDown)
    && (q.left ==> q.shuttingDown && q.transfers == {})
  }

  ghost predicate ReactorOk(q: Reactor, r: nat, streams: map<nat, Stream>, clients: map<nat, Client>)
  {
    QueueOk(q, r, streams, clients) && Table(q, r, streams, clients)
  }

  // ----- The whole -----------------------------------------------------------

  ghost predicate Registered(w: World)
  {
    forall s :: s in w.streams ==> w.streams[s].owner in w.clients && w.streams[s].reactor in w.reactors
  }

  ghost predicate StreamsOk(w: World)
    requires Registered(w)
  {
    forall s :: s in w.streams ==>
      Local(w.streams[s], TrackOf(w.reactors[w.streams[s].reactor], s), w.clients[w.streams[s].owner].shuttingDown)
  }

  ghost predicate ReactorsOk(w: World)
  {
    forall r :: r in w.reactors ==> ReactorOk(w.reactors[r], r, w.streams, w.clients)
  }

  /** The streams of a client that are registered and not finalised. */
  ghost function Unfinished(streams: map<nat, Stream>, c: nat): set<nat>
  {
    set s | s in streams && streams[s].owner == c && !streams[s].released
  }

  ghost predicate Counts(w: World)
  {
    forall c :: c in w.clients ==> w.clients[c].active == |Unfinished(w.streams, c)|
  }

  ghost predicate Inv(w: World)
  {
    Registered(w) && StreamsOk(w) && ReactorsOk(w) && Counts(w)
  }

  // ----- Changing one reactor, or one stream with its reactor -----------------

  /** Owners and reactors of known streams stay, and shutting down is for good. */
  ghost predicate Extends(streams: map<nat, Stream>, clients: map<nat, Client>,
                          streams': map<nat, Stream>, clients': map<nat, Client>)
  {
    && (forall s :: s in streams ==>
          s in streams' && streams'[s].owner == streams[s].owner && streams'[s].reactor == streams[s].reactor)
    && (forall c :: c in clients ==> c in clients' && (clients[c].shuttingDown ==> clients'[c].shuttingDown))
  }

  lemma ReactorFrame(q: Reactor, r: nat, streams: map<nat, Stream>, clients: map<nat, Client>,
                     streams': map<nat, Stream>, clients': map<nat, Client>)
    requires ReactorOk(q, r, streams, clients) && Extends(streams, clients, streams', clients')
    ensures ReactorOk(q, r, streams', clients')
  {
    hide Commands;
  }

  lemma ReactorStep(w: World, r: nat, q: Reactor)
    requires Inv(w) && r in w.reactors && ReactorOk(q, r, w.streams, w.clients)
    requires forall s :: s in w.streams && w.streams[s].reactor == r ==>
      Local(w.streams[s], TrackOf(q, s), w.clients[w.streams[s].owner].shuttingDown)
    ensures Inv(WithReactor(w, r, q))
  {
    hide Local, ReactorOk, TrackOf;
  }

  /** A stream and its reactor change; the reactor's other streams are where they were. */
  lemma StreamStep(w: World, s: nat, u: Stream, q: Reactor)
    requires Inv(w) && s in w.streams && u.owner == w.streams[s].owner && u.reactor == w.streams[s].reactor
    requires u.released == w.streams[s].released
    requires ReactorOk(q, u.reactor, w.streams, w.clients)
    requires Local(u, TrackOf(q, s), w.clients[u.owner].shuttingDown)
    requires forall o :: o in w.streams && o != s && w.streams[o].reactor == u.reactor ==>
      TrackOf(q, o) == TrackOf(w.reactors[u.reactor], o)
    ensures Inv(WithReactor(WithStream(w, s, u), u.reactor, q))
  {
    hide Local, ReactorOk, TrackOf, Unfinished;
    var w' := WithReactor(WithStream(w, s, u), u.reactor, q);
    assert StreamsOk(w') by { hide ReactorsOk, Counts; }
    hide StreamsOk;
    forall r | r in w'.reactors ensures ReactorOk(w'.reactors[r], r, w'.streams, w'.clients) {
      ReactorFrame(w'.reactors[r], r, w.streams, w.clients, w'.streams, w'.clients);
    }
    forall c | c in w.clients ensures Unfinished(w'.streams, c) == Unfinished(w.streams, c) {
      SameUnfinished(w.streams, w'.streams, c);
    }
  }

  lemma SameUnfinished(streams: map<nat, Stream>, streams': map<nat, Stream>, c: nat)
    requires streams'.Keys == streams.Keys
    requires forall s :: s in streams ==>
      streams'[s].owner == streams[s].owner && streams'[s].released == streams[s].released
    ensures Unfinished(streams', c) == Unfinished(streams, c)
  {
  }
}
