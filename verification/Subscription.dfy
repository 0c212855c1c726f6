/**
 The task subscription protocol: publishers, a shutting-down service, a canceller and a reader per session, and the
 suspended coroutine they hand to one another. Every step below is one critical section of the service mutex, of a
 subscriber mutex, of a promise mutex, or one acquisition or release of a frame's resume mutex; between two steps any
 other party may run. Fields marked `history` exist only to state properties.
*/
module Subscription {
  import opened Protocol

  type SubId = nat

  datatype Event = TaskEvent(task: Task) | StatusUpdate(taskId: Bytes, contextId: Bytes, status: Status)

  datatype Latest = Latest(contextId: Bytes, status: Status)

  predicate TerminalEvent(e: Event)
  {
    e.StatusUpdate? && IsTerminal(e.status.state)
  }

  /** The snapshot event carries the task without its artifacts and history. */
  function SnapshotEvent(task: Task): Event
  {
    TaskEvent(task.(artifacts := [], history := []))
  }

  function UpdateEvent(task: Task): Event
  {
    StatusUpdate(task.id, task.contextId, task.status)
  }

  // ----- The coroutine frame -----------------------------------------------

  /** Where a suspended frame waits. A yield point remembers whether the event it yielded was terminal. */
  datatype Point = InitialPoint | YieldPoint(terminal: bool) | AwaitPoint | FinalPoint

  /** The next critical section a running frame will execute. */
  datatype Code = YieldSnapshot | AwaitReady | AwaitSuspend | AwaitResume | YieldEvent(e: Event) | Return

  /** `Undefined` is what touching a destroyed frame, or resuming one at a point it does not wait at, leads to. */
  datatype Frame = Suspended(point: Point) | Running(code: Code) | Destroyed | Undefined

  /** Those who take a continuation and resume it. */
  datatype Signaller = Publisher | Closer | Canceller

  datatype Resumer = Nobody | Reader | By(signaller: Signaller)

  /** A signaller's progress through one subscriber: its own critical section, then `SignalSubscriber`. */
  datatype Sig = Out | ToLock | Due | Holding | Resuming | Released

  datatype CancelPc = NotCancelled | Signalling | Removing | Draining | Cancelled

  datatype ReaderPc = Outside | ToResume | InResume | Waiting | Got(e: Event)

  /** The reader owns the initial point and the yield points, a signaller owns the await point. */
  function ResumeFrame(frame: Frame, byReader: bool): Frame
  {
    match frame
    case Suspended(InitialPoint) => if byReader then Running(YieldSnapshot) else Undefined
    case Suspended(YieldPoint(t)) => if byReader then Running(if t then Return else AwaitReady) else Undefined
    case Suspended(AwaitPoint) => if byReader then Undefined else Running(AwaitResume)
    case _ => Undefined
  }

  function ReleaseFrame(frame: Frame): Frame
  {
    if frame.Suspended? then frame else Undefined
  }

  /** One session: subscriber state, promise, coroutine handle and the program counters of those at work on it. */
  datatype Sub = Sub(
    task: Task,
    events: seq<Event>,
    closed: bool,
    pending: int,
    cont: bool,
    active: int,
    frame: Frame,
    resumer: Resumer,
    current: Option<Event>,
    done: bool,
    started: bool,
    again: bool,
    reader: ReaderPc,
    pub: Sig,
    clo: Sig,
    can: Sig,
    cancel: CancelPc,
    from: nat,
    accepted: seq<Event>,
    handed: seq<Event>,
    late: bool)
  // History: `from` is the number of publications before the subscription, `accepted` the events ever queued,
  // `handed` the events `Next` has returned, `late` whether a signaller ever took a continuation for nothing.
  {
    function Of(p: Signaller): Sig
    {
      match p
      case Publisher => pub
      case Closer => clo
      case Canceller => can
    }

    /** Leaving `SignalSubscriber`, the canceller goes on to the removal. */
    function With(p: Signaller, x: Sig): Sub
    {
      this.(pub := if p.Publisher? then x else pub,
            clo := if p.Closer? then x else clo,
            can := if p.Canceller? then x else can,
            cancel := if !p.Canceller? then cancel else if x == Out then Removing else Signalling)
    }
  }

  function NewSub(task: Task, from: nat): Sub
  {
    Sub(task, [], false, 0, false, 0, Suspended(InitialPoint), Nobody, None, false, false, false, Outside,
        Out, Out, Out, NotCancelled, from, [], [], false)
  }

  // ----- Critical sections of one session ----------------------------------

  /** The publisher's section queues the event unless closed; the other two only close. */
  function LockSection(u: Sub, p: Signaller, e: Event): Sub
  {
    var push := p.Publisher? && !u.closed;
    u.With(p, Due).(
      events := if push then u.events + [e] else u.events,
      pending := if push then u.pending + 1 else u.pending,
      accepted := if push then u.accepted + [e] else u.accepted,
      closed := if push then TerminalEvent(e) else true)
  }

  function TakeSection(u: Sub, p: Signaller): Sub
  {
    u.With(p, if u.cont then Holding else Out).(
      cont := false,
      active := if u.cont then u.active + 1 else u.active,
      late := u.late || (u.cont && u.events == [] && !u.closed))
  }

  function ResumeSection(u: Sub, p: Signaller): Sub
  {
    u.With(p, Resuming).(resumer := By(p), frame := ResumeFrame(u.frame, false))
  }

  function ReturnSection(u: Sub, p: Signaller): Sub
  {
    u.With(p, Released).(resumer := Nobody, frame := ReleaseFrame(u.frame))
  }

  function DropSection(u: Sub, p: Signaller): Sub
  {
    u.With(p, Out).(active := u.active - 1)
  }

  function FrameSection(u: Sub): Sub
    requires u.frame.Running?
  {
    match u.frame.code
    case YieldSnapshot => u.(current := Some(SnapshotEvent(u.task)), frame := Suspended(YieldPoint(false)))
    case AwaitReady => u.(frame := Running(if u.closed || u.events != [] then AwaitResume else AwaitSuspend))
    case AwaitSuspend =>
      if u.closed || u.events != [] then u.(frame := Running(AwaitResume))
      else u.(cont := true, frame := Suspended(AwaitPoint))
    case AwaitResume =>
      if u.events == [] then u.(frame := Running(Return))
      else u.(events := u.events[1..], frame := Running(YieldEvent(u.events[0])))
    case YieldEvent(e) => u.(current := Some(e), frame := Suspended(YieldPoint(TerminalEvent(e))))
    case Return => u.(done := true, frame := Suspended(FinalPoint))
  }

  /** Entering `WaitForNext`. */
  function ReadSection(u: Sub): Sub
  {
    if !u.started then u.(started := true, reader := ToResume)
    else if u.again then u.(again := false, reader := ToResume)
    else u.(reader := Waiting)
  }

  function WakeSection(u: Sub): Sub
  {
    if u.current.Some? then u.(current := None, again := true, reader := Got(u.current.value))
    else u.(reader := Outside)
  }

  /** `RecordDeliveredEvent`, then `Next` returns the event. */
  function DeliverSection(u: Sub): Sub
    requires u.reader.Got?
  {
    u.(handed := u.handed + [u.reader.e], pending := if u.reader.e.StatusUpdate? then u.pending - 1 else u.pending,
       reader := Outside)
  }

  predicate IsLive(u: Sub)
  {
    !u.done && (!u.closed || u.pending != 0)
  }

  // ----- The service -------------------------------------------------------

  datatype Publication = Quiet | Publishing(task: Task, todo: seq<SubId>)

  datatype Service = Service(
    latest: map<Bytes, Latest>,
    registered: map<Bytes, seq<SubId>>,
    shutdown: bool,
    publication: Publication,
    closing: seq<SubId>,
    subs: map<SubId, Sub>,
    log: seq<Task>)
  // History: `log` lists the publications the service took, in order.

  function Init(): Service
  {
    Service(map[], map[], false, Quiet, [], map[], [])
  }

  datatype Step =
    | Subscribe(s: SubId, task: Task)
    | Publish(task: Task)
    | Shutdown(order: seq<SubId>)
    | Cancel(s: SubId)
    | Lock(s: SubId, p: Signaller)
    | Take(s: SubId, p: Signaller)
    | Resume(s: SubId, p: Signaller)
    | ReturnFromResume(s: SubId, p: Signaller)
    | Drop(s: SubId, p: Signaller)
    | Remove(s: SubId)
    | Drain(s: SubId)
    | RunFrame(s: SubId)
    | Read(s: SubId)
    | ReaderResume(s: SubId)
    | ReaderReturn(s: SubId)
    | Wake(s: SubId)
    | TimeOut(s: SubId)
    | Deliver(s: SubId)
    | Destroy(s: SubId)

  /** The publisher and the closer walk their lists in order. */
  predicate AtHead(g: Service, s: SubId, p: Signaller)
  {
    match p
    case Publisher => g.publication.Publishing? && g.publication.todo != [] && g.publication.todo[0] == s
    case Closer => g.closing != [] && g.closing[0] == s
    case Canceller => s in g.subs && g.subs[s].cancel == Signalling
  }

  ghost predicate Enabled(g: Service, step: Step)
  {
    match step
    case Subscribe(s, _) => s !in g.subs
    case Publish(_) => g.publication.Quiet?
    case Shutdown(order) => g.shutdown || Listing(g, order)
    case Cancel(s) => s in g.subs && g.subs[s].cancel == NotCancelled && !g.subs[s].frame.Destroyed?
    case Lock(s, p) => s in g.subs && AtHead(g, s, p) && g.subs[s].Of(p) == ToLock
    case Take(s, p) => s in g.subs && AtHead(g, s, p) && g.subs[s].Of(p) == Due
    case Resume(s, p) => s in g.subs && AtHead(g, s, p) && g.subs[s].Of(p) == Holding && g.subs[s].resumer == Nobody
    case ReturnFromResume(s, p) =>
      s in g.subs && AtHead(g, s, p) && g.subs[s].Of(p) == Resuming && !g.subs[s].frame.Running?
    case Drop(s, p) => s in g.subs && AtHead(g, s, p) && g.subs[s].Of(p) == Released
    case Remove(s) => s in g.subs && g.subs[s].cancel == Removing
    case Drain(s) => s in g.subs && g.subs[s].cancel == Draining && g.subs[s].active == 0
    case RunFrame(s) => s in g.subs && g.subs[s].frame.Running?
    case Read(s) => s in g.subs && g.subs[s].reader == Outside && !g.subs[s].frame.Destroyed?
    case ReaderResume(s) => s in g.subs && g.subs[s].reader == ToResume && g.subs[s].resumer == Nobody
    case ReaderReturn(s) => s in g.subs && g.subs[s].reader == InResume && !g.subs[s].frame.Running?
    case Wake(s) => s in g.subs && g.subs[s].reader == Waiting && (g.subs[s].current.Some? || g.subs[s].done)
    case TimeOut(s) => s in g.subs && g.subs[s].reader == Waiting && g.subs[s].current.None? && !g.subs[s].done
    case Deliver(s) => s in g.subs && g.subs[s].reader.Got?
    case Destroy(s) =>
      s in g.subs && g.subs[s].reader == Outside && g.subs[s].cancel == Cancelled && !g.subs[s].frame.Destroyed?
  }

  function Put(g: Service, s: SubId, u: Sub): Service
  {
    g.(subs := g.subs[s := u])
  }

  /** Leaving `SignalSubscriber`, the publisher and the closer go on to their next subscriber. */
  function LeaveSignal(g: Service, p: Signaller): Service
  {
    match p
    case Publisher =>
      if g.publication.Publishing? && |g.publication.todo| > 1
      then g.(publication := g.publication.(todo := g.publication.todo[1..]))
      else g.(publication := Quiet)
    case Closer => if g.closing == [] then g else g.(closing := g.closing[1..])
    case Canceller => g
  }

  function Without(xs: seq<SubId>, s: SubId): seq<SubId>
  {
    if xs == [] then [] else if xs[0] == s then Without(xs[1..], s) else [xs[0]] + Without(xs[1..], s)
  }

  /** The first section of `PublishTaskUpdated`. */
  function ApplyPublish(g: Service, task: Task): Service
    requires g.publication.Quiet?
  {
    if g.shutdown then g
    else
      var g1 := g.(latest := g.latest[task.id := Latest(task.contextId, task.status)], log := g.log + [task]);
      if task.id !in g.registered then g1
      else
        var todo := g.registered[task.id];
        var erase := todo == [] || IsTerminal(task.status.state);
        g1.(registered := if erase then g.registered - {task.id} else g.registered,
            publication := if todo == [] then Quiet else Publishing(task, todo),
            subs := map s | s in g.subs :: if s in todo then g.subs[s].(pub := ToLock) else g.subs[s])
  }

  /** The task whose snapshot a subscriber gets: the stored one, brought up to date by the last publication. */
  function CurrentTask(g: Service, task: Task): Task
  {
    if task.id in g.latest
    then task.(contextId := g.latest[task.id].contextId, status := g.latest[task.id].status)
    else task
  }

  predicate Accepts(g: Service, task: Task)
  {
    !g.shutdown && !IsTerminal(CurrentTask(g, task).status.state)
  }

  function ApplySubscribe(g: Service, s: SubId, task: Task): Service
    requires s !in g.subs
  {
    if !Accepts(g, task) then g
    else
      var list := if task.id in g.registered then g.registered[task.id] else [];
      Put(g, s, NewSub(CurrentTask(g, task), |g.log|)).(registered := g.registered[task.id := list + [s]])
  }

  ghost predicate Registered(g: Service, s: SubId)
  {
    exists id :: id in g.registered && s in g.registered[id]
  }

  predicate NoRepeats<T(==)>(xs: seq<T>)
  {
    forall i, j :: 0 <= i < j < |xs| ==> xs[i] != xs[j]
  }

  /** The table is unordered: any order of the registered subscribers may be the order in which they are closed. */
  ghost predicate Listing(g: Service, order: seq<SubId>)
  {
    && NoRepeats(order)
    && (forall s :: s in order ==> s in g.subs && Registered(g, s))
    && (forall id, s :: id in g.registered && s in g.registered[id] ==> s in order)
  }

  function ApplyShutdown(g: Service, order: seq<SubId>): Service
  {
    if g.shutdown then g
    else
      g.(shutdown := true, latest := map[], registered := map[], closing := order,
         subs := map s | s in g.subs :: if s in order then g.subs[s].(clo := ToLock) else g.subs[s])
  }

  /** The last section of `RemoveSubscriber`. */
  function Unlist(g: Service, s: SubId): Service
    requires s in g.subs
  {
    var id := g.subs[s].task.id;
    if id !in g.registered then g
    else
      var rest := Without(g.registered[id], s);
      g.(registered := if rest == [] then g.registered - {id} else g.registered[id := rest])
  }

  predicate OnTables(step: Step)
  {
    step.Subscribe? || step.Publish? || step.Shutdown?
  }

  /** What a step makes of the session it works on. */
  function Section(g: Service, step: Step): Sub
    requires Enabled(g, step) && !OnTables(step)
  {
    var u := g.subs[step.s];
    match step
    case Cancel(_) => u.With(Canceller, ToLock)
    case Lock(_, p) =>
      LockSection(u, p, if g.publication.Publishing? then UpdateEvent(g.publication.task) else SnapshotEvent(u.task))
    case Take(_, p) => TakeSection(u, p)
    case Resume(_, p) => ResumeSection(u, p)
    case ReturnFromResume(_, p) => ReturnSection(u, p)
    case Drop(_, p) => DropSection(u, p)
    case Remove(_) => u.(cancel := Draining)
    case Drain(_) => u.(cancel := Cancelled)
    case RunFrame(_) => FrameSection(u)
    case Read(_) => ReadSection(u)
    case ReaderResume(_) => u.(resumer := Reader, reader := InResume, frame := ResumeFrame(u.frame, true))
    case ReaderReturn(_) => u.(resumer := Nobody, reader := Waiting, frame := ReleaseFrame(u.frame))
    case Wake(_) => WakeSection(u)
    case TimeOut(_) => u.(reader := Outside)
    case Deliver(_) => DeliverSection(u)
    case Destroy(_) => u.(frame := if u.frame.Suspended? then Destroyed else Undefined)
  }

  /** The signaller leaves `SignalSubscriber`: it found no continuation, or it has resumed one. */
  predicate Leaves(g: Service, step: Step)
  {
    step.Drop? || (step.Take? && step.s in g.subs && !g.subs[step.s].cont)
  }

  function Apply(g: Service, step: Step): Service
    requires Enabled(g, step)
  {
    if step.Subscribe? then ApplySubscribe(g, step.s, step.task)
    else if step.Publish? then ApplyPublish(g, step.task)
    else if step.Shutdown? then ApplyShutdown(g, step.order)
    else
      var g' := Put(g, step.s, Section(g, step));
      if step.Remove? then Unlist(g', step.s)
      else if Leaves(g, step) then LeaveSignal(g', step.p)
      else g'
  }

  /** `steps` is an interleaving the parties can take from `g`, and `end` is where it leads. */
  ghost predicate Reaches(g: Service, steps: seq<Step>, end: Service)
    decreases |steps|
  {
    if steps == [] then g == end
    else Enabled(g, steps[0]) && Reaches(Apply(g, steps[0]), steps[1..], end)
  }
}
