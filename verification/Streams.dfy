/** Client streams: reactors that drive transfers from a command queue, the dispatch queue that runs each stream's
    handlers, and the count of active streams a client waits for when it shuts down. One step is one locked section,
    one callback from the transfer library, or one call of a handler. */
module Streams {
  import opened Protocol
  import opened SerialDispatch

  // ----- State ---------------------------------------------------------------

  datatype Work = Metadata | Chunk(data: Bytes) | Terminal

  /** Inside `RecordError`: about to lock the error, to set the suppress flag, to queue the cancellation. */
  datatype Report = Locking | Suppressing | Cancelling

  /** A drain loop: between tasks, before the suppress check of a task, inside its handler, recording its error. */
  datatype Drainer = Idle | Checking(work: Work) | Calling(work: Work) | Reporting(at: Report)

  /** A registered stream and its transfer. `arrived` and `handled` record the metadata and chunks received and the
      handler calls begun on them, `completed` the completion handler calls begun, `failure` whether the last of these
      was given a recorded error, and `ended` the calls of `Finish`. */
  datatype Stream = Stream(
    owner: nat,
    reactor: nat,
    done: bool,
    released: bool,
    ended: nat,
    dispatch: Dispatch<Work>,
    drains: seq<Drainer>,
    failed: bool,
    suppressed: bool,
    arrived: seq<Work>,
    handled: seq<Work>,
    completed: nat,
    failure: bool)

  datatype Command = Add(stream: nat) | CancelStream(stream: nat) | CancelOwner(owner: nat) | Shutdown

  /** Inside `Complete`, after the done flag was set: about to finalise, about to queue the terminal task. */
  datatype Stage = Finalizing | Ending

  datatype At<T> = At(stream: nat, stage: T)

  /** `batch` are the commands swapped out and not yet processed, `closing` the transfers taken out of the table whose
      completion is still due, `current` the one being completed and `reporting` the stream whose callback is recording
      an error. `swept` records the owners whose cancellation was processed. */
  datatype Reactor = Reactor(
    commands: seq<Command>,
    batch: seq<Command>,
    transfers: set<nat>,
    closing: set<nat>,
    current: Option<At<Stage>>,
    reporting: Option<At<Report>>,
    shutdownQueued: bool,
    shuttingDown: bool,
    left: bool,
    swept: set<nat>)

  /** The suppress flag of a client is set together with `shuttingDown`. */
  datatype Client = Client(active: int, shuttingDown: bool)

  datatype World = World(clients: map<nat, Client>, reactors: map<nat, Reactor>, streams: map<nat, Stream>)

  // ----- Sections of one stream ----------------------------------------------

  function Size(work: Work): nat
  {
    if work.Chunk? then |work.data| else 0
  }

  /** Queues a task, and a drain if none is scheduled. */
  function Submit(u: Stream, work: Work): Stream
  {
    u.(dispatch := Pushed(u.dispatch, work, Size(work)),
       drains := if u.dispatch.scheduled then u.drains else u.drains + [Idle])
  }

  function ArriveSection(u: Stream, work: Work): Stream
  {
    var v := u.(arrived := u.arrived + [work]);
    if Refuses(u.dispatch, Size(work), false) then v else Submit(v, work)
  }

  /** One section of `RecordError`, and where it goes on. */
  function ReportSection(u: Stream, at: Report): (Stream, Option<Report>)
  {
    match at
    case Locking => (u.(failed := true), if u.failed then None else Some(Suppressing))
    case Suppressing => (u.(suppressed := true), Some(Cancelling))
    case Cancelling => (u, None)
  }

  /** Whether a drain goes on to call the handler; `quiet` is the client's suppress flag. */
  predicate Calls(u: Stream, drain: Drainer, quiet: bool)
  {
    drain.Checking? && (drain.work.Terminal? || (!quiet && !u.suppressed))
  }

  /** Where a drain with a task goes on; `ok` is whether the handler succeeded. */
  function NextDrainer(u: Stream, drain: Drainer, quiet: bool, ok: bool): Drainer
    requires !drain.Idle?
  {
    if drain.Checking? then if Calls(u, drain, quiet) then Calling(drain.work) else Idle
    else if drain.Calling? then if ok || drain.work.Terminal? then Idle else Reporting(Locking)
    else
      var next := ReportSection(u, drain.at).1;
      if next.Some? then Reporting(next.value) else Idle
  }

  /** One step of drain `i`. */
  function DrainSection(u: Stream, i: nat, quiet: bool, ok: bool): Stream
    requires i < |u.drains|
  {
    var drain := u.drains[i];
    if drain.Idle? && u.dispatch.tasks == [] then
      u.(dispatch := u.dispatch.(scheduled := false), drains := u.drains[..i] + u.drains[i + 1..])
    else if drain.Idle? then
      u.(dispatch := Popped(u.dispatch), drains := u.drains[i := Checking(u.dispatch.tasks[0].task)])
    else
      u.(drains := u.drains[i := NextDrainer(u, drain, quiet, ok)],
         failed := u.failed || drain == Reporting(Locking),
         suppressed := u.suppressed || drain == Reporting(Suppressing),
         handled := if Calls(u, drain, quiet) && !drain.work.Terminal? then u.handled + [drain.work] else u.handled,
         completed := if Calls(u, drain, quiet) && drain.work.Terminal? then u.completed + 1 else u.completed,
         failure := if Calls(u, drain, quiet) && drain.work.Terminal? then u.failed else u.failure)
  }

  // ----- Steps ---------------------------------------------------------------

  /** Outside any callback or completion. */
  predicate Free(r: Reactor)
  {
    r.closing == {} && r.current.None? && r.reporting.None? && !r.left
  }

  /** `Enqueue` on a reactor; a cancellation by owner is dropped once shutdown is queued. */
  function Enqueued(r: Reactor, command: Command): Reactor
  {
    if r.shutdownQueued && !command.Shutdown? then r
    else r.(commands := r.commands + [command], shutdownQueued := r.shutdownQueued || command.Shutdown?)
  }

  function Owned(streams: map<nat, Stream>, transfers: set<nat>, owner: nat): set<nat>
  {
    set s | s in transfers && s in streams && streams[s].owner == owner
  }

  /** Takes transfers out of the table, their completion being due. */
  function Closing(r: Reactor, closing: set<nat>): Reactor
  {
    r.(transfers := r.transfers - closing, closing := closing)
  }

  /** Processes the next command; `admitted` is whether the transfer library takes an added transfer. */
  function ProcessSection(r: Reactor, streams: map<nat, Stream>, admitted: bool): Reactor
    requires r.batch != []
  {
    var command, rest := r.batch[0], r.(batch := r.batch[1..]);
    match command
    case Add(s) =>
      if r.shuttingDown || !admitted then Closing(rest, {s}) else rest.(transfers := r.transfers + {s})
    case CancelStream(s) => Closing(rest, {s})
    case CancelOwner(c) => Closing(rest, Owned(streams, r.transfers, c)).(swept := r.swept + {c})
    case Shutdown => rest.(shuttingDown := true)
  }

  datatype Step =
    | Start(stream: nat, owner: nat, reactor: nat)
    | Cancel(stream: nat)
    | BeginShutdown(owner: nat)
    | SendCancelOwner(owner: nat, reactor: nat)
    | QueueShutdown(reactor: nat)
    | Swap(reactor: nat)
    | Process(reactor: nat, admitted: bool)
    | Arrive(stream: nat, work: Work)
    | ReportNext(reactor: nat)
    | Finished(stream: nat)
    | FailAll(reactor: nat)
    | Pick(reactor: nat, stream: nat)
    | Advance(reactor: nat)
    | Leave(reactor: nat)
    | DrainNext(stream: nat, index: nat, ok: bool)

  /** A stream keeps its reactor from being shut down, so nothing but owner cancellations is queued on a reactor
      behind its shutdown command. */
  ghost predicate Enabled(w: World, step: Step)
  {
    match step
    case Start(s, c, r) => s !in w.streams && c in w.clients && r in w.reactors && !w.reactors[r].shutdownQueued
    case Cancel(s) =>
      s in w.streams && w.streams[s].reactor in w.reactors && !w.reactors[w.streams[s].reactor].shutdownQueued
    case BeginShutdown(c) => c in w.clients
    case SendCancelOwner(c, r) => c in w.clients && w.clients[c].shuttingDown && r in w.reactors
    case QueueShutdown(r) => r in w.reactors
    case Swap(r) => r in w.reactors && Free(w.reactors[r]) && w.reactors[r].batch == []
    case Process(r, _) => r in w.reactors && Free(w.reactors[r]) && w.reactors[r].batch != []
    case Arrive(s, work) =>
      && s in w.streams && w.streams[s].reactor in w.reactors && !work.Terminal?
      && Free(w.reactors[w.streams[s].reactor]) && s in w.reactors[w.streams[s].reactor].transfers
    case ReportNext(r) =>
      && r in w.reactors && w.reactors[r].reporting.Some? && w.reactors[r].reporting.value.stream in w.streams
      && (w.reactors[r].reporting.value.stage.Cancelling? ==> !w.reactors[r].shutdownQueued)
    case Finished(s) =>
      && s in w.streams && w.streams[s].reactor in w.reactors
      && Free(w.reactors[w.streams[s].reactor]) && s in w.reactors[w.streams[s].reactor].transfers
    case FailAll(r) => r in w.reactors && Free(w.reactors[r])
    case Pick(r, s) =>
      && r in w.reactors && s in w.reactors[r].closing && s in w.streams
      && w.reactors[r].current.None? && w.reactors[r].reporting.None?
    case Advance(r) =>
      && r in w.reactors && w.reactors[r].current.Some? && w.reactors[r].current.value.stream in w.streams
      && w.streams[w.reactors[r].current.value.stream].owner in w.clients
    case Leave(r) => r in w.reactors && Free(w.reactors[r]) && w.reactors[r].shuttingDown && w.reactors[r].batch == []
    case DrainNext(s, i, _) =>
      && s in w.streams && i < |w.streams[s].drains|
      && w.streams[s].owner in w.clients && w.streams[s].reactor in w.reactors
      && (w.streams[s].drains[i] == Reporting(Cancelling) ==> !w.reactors[w.streams[s].reactor].shutdownQueued)
  }

  function NewStream(owner: nat, reactor: nat): Stream
  {
    Stream(owner, reactor, false, false, 0, Dispatch([], 0, false), [], false, false, [], [], 0, false)
  }

  /** A world with one stream, reactor or client replaced. */
  function WithStream(w: World, s: nat, u: Stream): World
  {
    w.(streams := w.streams[s := u])
  }

  function WithReactor(w: World, r: nat, q: Reactor): World
  {
    w.(reactors := w.reactors[r := q])
  }

  function WithClient(w: World, c: nat, k: Client): World
  {
    w.(clients := w.clients[c := k])
  }

  ghost function AfterStart(w: World, s: nat, c: nat, r: nat): World
    requires Enabled(w, Start(s, c, r))
  {
    if w.clients[c].shuttingDown then w
    else
      WithReactor(WithStream(WithClient(w, c, w.clients[c].(active := w.clients[c].active + 1)), s, NewStream(c, r)),
                  r, Enqueued(w.reactors[r], Add(s)))
  }

  ghost function AfterArrive(w: World, s: nat, work: Work): World
    requires Enabled(w, Arrive(s, work))
  {
    var u := w.streams[s];
    var q := w.reactors[u.reactor];
    WithReactor(WithStream(w, s, ArriveSection(u, work)), u.reactor,
                q.(reporting := if Refuses(u.dispatch, Size(work), false) then Some(At(s, Locking)) else None))
  }

  ghost function AfterReport(w: World, r: nat): World
    requires Enabled(w, ReportNext(r))
  {
    var q := w.reactors[r];
    var s := q.reporting.value.stream;
    var (u, next) := ReportSection(w.streams[s], q.reporting.value.stage);
    var q' := q.(reporting := if next.Some? then Some(At(s, next.value)) else None);
    WithReactor(WithStream(w, s, u), r,
                if q.reporting.value.stage.Cancelling? then Enqueued(q', CancelStream(s)) else q')
  }

  /** `Complete` up to the done flag. */
  ghost function AfterPick(w: World, r: nat, s: nat): World
    requires Enabled(w, Pick(r, s))
  {
    var q := w.reactors[r].(closing := w.reactors[r].closing - {s});
    if w.streams[s].done then WithReactor(w, r, q)
    else WithReactor(WithStream(w, s, w.streams[s].(done := true)), r, q.(current := Some(At(s, Finalizing))))
  }

  ghost function AfterAdvance(w: World, r: nat): World
    requires Enabled(w, Advance(r))
  {
    var q := w.reactors[r];
    var s := q.current.value.stream;
    var u := w.streams[s];
    var k := w.clients[u.owner];
    match q.current.value.stage
    case Finalizing =>
      WithReactor(WithStream(WithClient(w, u.owner, k.(active := k.active - 1)), s, u.(released := true)),
                  r, q.(current := Some(At(s, Ending))))
    case Ending =>
      WithReactor(WithStream(w, s, Submit(u.(ended := u.ended + 1), Terminal)), r, q.(current := None))
  }

  ghost function AfterDrain(w: World, s: nat, i: nat, ok: bool): World
    requires Enabled(w, DrainNext(s, i, ok))
  {
    var u := w.streams[s];
    var w' := WithStream(w, s, DrainSection(u, i, w.clients[u.owner].shuttingDown, ok));
    if u.drains[i] == Reporting(Cancelling)
    then WithReactor(w', u.reactor, Enqueued(w.reactors[u.reactor], CancelStream(s)))
    else w'
  }

  ghost function Apply(w: World, step: Step): World
    requires Enabled(w, step)
  {
    match step
    case Start(s, c, r) => AfterStart(w, s, c, r)
    case Cancel(s) =>
      WithReactor(w, w.streams[s].reactor, Enqueued(w.reactors[w.streams[s].reactor], CancelStream(s)))
    case BeginShutdown(c) => WithClient(w, c, w.clients[c].(shuttingDown := true))
    case SendCancelOwner(c, r) => WithReactor(w, r, Enqueued(w.reactors[r], CancelOwner(c)))
    case QueueShutdown(r) => WithReactor(w, r, Enqueued(w.reactors[r], Shutdown))
    case Swap(r) => WithReactor(w, r, w.reactors[r].(batch := w.reactors[r].commands, commands := []))
    case Process(r, admitted) => WithReactor(w, r, ProcessSection(w.reactors[r], w.streams, admitted))
    case Arrive(s, work) => AfterArrive(w, s, work)
    case ReportNext(r) => AfterReport(w, r)
    case Finished(s) => WithReactor(w, w.streams[s].reactor, Closing(w.reactors[w.streams[s].reactor], {s}))
    case FailAll(r) => WithReactor(w, r, Closing(w.reactors[r], w.reactors[r].transfers))
    case Pick(r, s) => AfterPick(w, r, s)
    case Advance(r) => AfterAdvance(w, r)
    case Leave(r) => WithReactor(w, r, Closing(w.reactors[r], w.reactors[r].transfers).(left := true))
    case DrainNext(s, i, ok) => AfterDrain(w, s, i, ok)
  }

  ghost predicate Initial(w: World)
  {
    && w.streams == map[]
    && (forall c :: c in w.clients ==> w.clients[c] == Client(0, false))
    && (forall r :: r in w.reactors ==> w.reactors[r] == Reactor([], [], {}, {}, None, None, false, false, false, {}))
  }

  ghost predicate Reaches(w: World, steps: seq<Step>, w': World)
    decreases |steps|
  {
    if steps == [] then w' == w
    else Enabled(w, steps[0]) && Reaches(Apply(w, steps[0]), steps[1..], w')
  }

  ghost predicate Reachable(w: World)
  {
    exists start, steps :: Initial(start) && Reaches(start, steps, w)
  }
}
