/** The service-wide invariant: tables, walks, and how each session's queue relates to the publication log. */
module SubscriptionService {
  import opened Protocol
  import opened Subscription
  import opened SubscriptionInvariant

  /** The status updates that publications on one task call for, in publication order. */
  function PublishedOn(log: seq<Task>, id: Bytes): seq<Event>
  {
    if log == [] then []
    else
      var last := log[|log| - 1];
      PublishedOn(log[..|log| - 1], id) + (if last.id == id then [UpdateEvent(last)] else [])
  }

  function LastOn(log: seq<Task>, id: Bytes): Option<Task>
  {
    if log == [] then None
    else if log[|log| - 1].id == id then Some(log[|log| - 1])
    else LastOn(log[..|log| - 1], id)
  }

  predicate Removed(u: Sub)
  {
    u.cancel == Draining || u.cancel == Cancelled
  }

  predicate Listed(g: Service, s: SubId)
    requires s in g.subs
  {
    g.subs[s].task.id in g.registered && s in g.registered[g.subs[s].task.id]
  }

  ghost predicate Registry(g: Service)
  {
    forall id :: id in g.registered ==>
      && NoRepeats(g.registered[id])
      && forall s :: s in g.registered[id] ==> s in g.subs && g.subs[s].task.id == id && !Removed(g.subs[s])
  }

  /** The publisher has left everyone before the head of its list and only gathered those behind it. */
  ghost predicate PublisherWalk(g: Service)
  {
    && (g.publication.Publishing? ==>
         && NoRepeats(g.publication.todo) && g.publication.todo != []
         && g.log != [] && g.log[|g.log| - 1] == g.publication.task
         && (forall i :: 0 <= i < |g.publication.todo| ==>
               && g.publication.todo[i] in g.subs
               && (i > 0 ==> g.subs[g.publication.todo[i]].pub == ToLock)))
    && (forall s :: s in g.subs ==>
          (g.subs[s].pub != Out <==> g.publication.Publishing? && s in g.publication.todo))
    && (forall s :: s in g.subs && g.publication.Publishing? && s in g.publication.todo ==>
          g.subs[s].task.id == g.publication.task.id)
  }

  ghost predicate CloserWalk(g: Service)
  {
    && NoRepeats(g.closing)
    && (!g.shutdown ==> g.closing == [])
    && (forall i :: 0 <= i < |g.closing| ==>
          g.closing[i] in g.subs && (i > 0 ==> g.subs[g.closing[i]].clo == ToLock))
    && (forall s :: s in g.subs ==> (g.subs[s].clo != Out <==> s in g.closing))
  }

  ghost predicate LatestFits(g: Service)
  {
    forall id :: !g.shutdown ==>
      && (id in g.latest <==> LastOn(g.log, id).Some?)
      && (id in g.latest ==> g.latest[id] == Latest(LastOn(g.log, id).value.contextId, LastOn(g.log, id).value.status))
  }

  /** An open subscriber is registered, unless the publication that unlisted it will close it. */
  ghost predicate ListedWhileOpen(g: Service, s: SubId)
    requires s in g.subs
  {
    !g.subs[s].closed && !g.shutdown ==>
      || Listed(g, s)
      || (g.subs[s].pub == ToLock && g.publication.Publishing? && IsTerminal(g.publication.task.status.state))
  }

  function Undelivered(g: Service, u: Sub): seq<Event>
  {
    if u.pub == ToLock && g.publication.Publishing? then [UpdateEvent(g.publication.task)] else []
  }

  /** Everything published since the subscription has been accepted, up to the moment of closing. */
  ghost predicate LogFits(g: Service, u: Sub)
  {
    && u.from <= |g.log|
    && u.accepted <= PublishedOn(g.log[u.from..], u.task.id)
    && (!u.closed ==> PublishedOn(g.log[u.from..], u.task.id) == u.accepted + Undelivered(g, u))
  }

  ghost predicate SnapshotFits(g: Service, u: Sub)
  {
    && u.from <= |g.log|
    && var last := LastOn(g.log[..u.from], u.task.id);
       last.Some? ==> u.task.contextId == last.value.contextId && u.task.status == last.value.status
  }

  /** Only a terminal publication, a shutdown or a cancellation closes a subscriber. */
  predicate ClosedFor(g: Service, u: Sub)
  {
    u.closed ==>
      || g.shutdown || u.cancel != NotCancelled
      || (u.accepted != [] && TerminalEvent(u.accepted[|u.accepted| - 1]))
  }

  ghost predicate SubFits(g: Service, s: SubId)
    requires s in g.subs
  {
    && LogFits(g, g.subs[s]) && SnapshotFits(g, g.subs[s]) && ListedWhileOpen(g, s) && ClosedFor(g, g.subs[s])
  }

  /** How the sessions, the tables and the log hang together. */
  ghost predicate Links(g: Service)
  {
    && (forall s :: s in g.subs ==> SubFits(g, s))
    && Registry(g) && PublisherWalk(g) && CloserWalk(g) && LatestFits(g)
  }

  ghost predicate AllLocal(subs: map<SubId, Sub>)
  {
    forall s :: s in subs ==> Local(subs[s])
  }

  ghost predicate Inv(g: Service)
  {
    AllLocal(g.subs) && Links(g)
  }

  // ----- Steps on one session ------------------------------------------------

  predicate SameWalk(x: Sig, y: Sig)
  {
    x == y || (!x.Out? && !x.ToLock? && !y.Out? && !y.ToLock?)
  }

  /** What the rest of the service can see of a session. */
  predicate SameOutside(u: Sub, v: Sub)
  {
    && v.task == u.task && v.from == u.from && v.accepted == u.accepted && (u.closed ==> v.closed)
    && SameWalk(u.pub, v.pub) && SameWalk(u.clo, v.clo) && (Removed(v) ==> Removed(u))
    && (v.closed ==> u.closed || v.cancel != NotCancelled) && (u.cancel != NotCancelled ==> v.cancel != NotCancelled)
  }

  lemma RegistryKept(g: Service, g': Service)
    requires Registry(g) && g'.registered == g.registered && g.subs.Keys <= g'.subs.Keys
    requires forall x :: x in g.subs ==>
      g'.subs[x].task == g.subs[x].task && (Removed(g'.subs[x]) ==> Removed(g.subs[x]))
    ensures Registry(g')
  {
  }

  lemma PublisherKept(g: Service, g': Service)
    requires PublisherWalk(g) && g'.publication == g.publication && g'.log == g.log && g.subs.Keys == g'.subs.Keys
    requires forall x :: x in g.subs ==> g'.subs[x].task == g.subs[x].task && SameWalk(g.subs[x].pub, g'.subs[x].pub)
    ensures PublisherWalk(g')
  {
  }

  lemma CloserKept(g: Service, g': Service)
    requires CloserWalk(g) && g'.closing == g.closing && g'.shutdown == g.shutdown && g.subs.Keys == g'.subs.Keys
    requires forall x :: x in g.subs ==> SameWalk(g.subs[x].clo, g'.subs[x].clo)
    ensures CloserWalk(g')
  {
  }

  lemma LatestKept(g: Service, g': Service)
    requires LatestFits(g) && g'.log == g.log && (!g'.shutdown ==> !g.shutdown && g'.latest == g.latest)
    ensures LatestFits(g')
  {
  }

  lemma FitsKept(g: Service, g': Service, x: SubId)
    requires x in g.subs && SubFits(g, x) && x in g'.subs && g'.log == g.log && (g.shutdown ==> g'.shutdown)
    requires var u, v := g.subs[x], g'.subs[x];
      && v.task == u.task && v.from == u.from && v.accepted == u.accepted && (u.closed ==> v.closed)
      && (v.closed ==> u.closed || g'.shutdown || v.cancel != NotCancelled)
      && (u.cancel != NotCancelled ==> v.cancel != NotCancelled)
      && (v.pub == ToLock <==> u.pub == ToLock)
      && (u.pub == ToLock ==> g'.publication == g.publication)
      && (Listed(g, x) && !v.closed && !g'.shutdown ==> Listed(g', x))
    ensures SubFits(g', x)
  {
  }

  lemma PutKeeps(g: Service, s: SubId, v: Sub)
    requires Links(g) && s in g.subs && SameOutside(g.subs[s], v)
    ensures Links(Put(g, s, v))
  {
    hide SubFits, Registry, PublisherWalk, CloserWalk, LatestFits;
    var g' := Put(g, s, v);
    RegistryKept(g, g');
    LatestKept(g, g');
    PublisherKept(g, g');
    CloserKept(g, g');
    forall x | x in g'.subs
      ensures SubFits(g', x)
    {
      FitsKept(g, g', x);
    }
  }

  /** What the publisher's section does, as the rest of the service sees it. */
  predicate Pushed(u: Sub, v: Sub, e: Event)
  {
    && v.task == u.task && v.from == u.from && v.clo == u.clo && v.cancel == u.cancel && v.pub == Due
    && v.closed == (u.closed || TerminalEvent(e))
    && v.accepted == if u.closed then u.accepted else u.accepted + [e]
  }

  /** What was published last is now accepted, unless the subscriber was closed before. */
  lemma PushLinks(g: Service, s: SubId, v: Sub)
    requires Links(g) && s in g.subs && AtHead(g, s, Publisher) && g.subs[s].pub == ToLock
    requires Pushed(g.subs[s], v, UpdateEvent(g.publication.task))
    ensures Links(Put(g, s, v))
  {
    hide SubFits, Registry, PublisherWalk, CloserWalk, LatestFits;
    var g' := Put(g, s, v);
    RegistryKept(g, g');
    LatestKept(g, g');
    CloserKept(g, g');
    PushWalk(g, s, v);
    PushFits(g, s, v);
    forall x | x in g'.subs
      ensures SubFits(g', x)
    {
      if x != s { FitsKept(g, g', x); }
    }
  }

  lemma PushWalk(g: Service, s: SubId, v: Sub)
    requires PublisherWalk(g) && s in g.subs && AtHead(g, s, Publisher)
    requires v.task == g.subs[s].task && v.pub == Due
    ensures PublisherWalk(Put(g, s, v))
  {
  }

  lemma PushFits(g: Service, s: SubId, v: Sub)
    requires s in g.subs && SubFits(g, s) && AtHead(g, s, Publisher) && g.subs[s].pub == ToLock
    requires Pushed(g.subs[s], v, UpdateEvent(g.publication.task))
    ensures SubFits(Put(g, s, v), s)
  {
    var u := g.subs[s];
    if !u.closed {
      assert v.accepted == u.accepted + Undelivered(g, u);
      assert v.accepted + [] == v.accepted;
    }
  }

  lemma PublisherLeaves(g: Service, s: SubId, v: Sub)
    requires Links(g) && s in g.subs && AtHead(g, s, Publisher) && g.subs[s].pub != ToLock
    requires SameOutside(g.subs[s].(pub := Out), v)
    ensures Links(LeaveSignal(Put(g, s, v), Publisher))
  {
    hide SubFits, Registry, PublisherWalk, CloserWalk, LatestFits, LeaveSignal;
    var g' := LeaveSignal(Put(g, s, v), Publisher);
    LeavePublication(Put(g, s, v));
    RegistryKept(g, g');
    LatestKept(g, g');
    CloserKept(g, g');
    PublisherTail(g, s, v);
    forall x | x in g'.subs
      ensures SubFits(g', x)
    {
      PublisherTailFits(g, s, v, x);
    }
  }

  lemma LeavePublication(g: Service)
    ensures LeaveSignal(g, Publisher) == g.(publication := LeaveSignal(g, Publisher).publication)
  {
  }

  lemma PublisherTailFits(g: Service, s: SubId, v: Sub, x: SubId)
    requires PublisherWalk(g) && s in g.subs && AtHead(g, s, Publisher) && g.subs[s].pub != ToLock
    requires SameOutside(g.subs[s].(pub := Out), v) && x in g.subs && SubFits(g, x)
    ensures SubFits(LeaveSignal(Put(g, s, v), Publisher), x)
  {
    var g' := LeaveSignal(Put(g, s, v), Publisher);
    if x == s || g.subs[x].pub != ToLock {
      FitsKept(g, g', x);
    } else {
      assert x in g.publication.todo;
      assert Undelivered(g', g'.subs[x]) == Undelivered(g, g.subs[x]);
    }
  }

  lemma PublisherTail(g: Service, s: SubId, v: Sub)
    requires PublisherWalk(g) && s in g.subs && AtHead(g, s, Publisher) && v.task == g.subs[s].task && v.pub == Out
    ensures PublisherWalk(LeaveSignal(Put(g, s, v), Publisher))
  {
    var todo := g.publication.todo;
    assert todo == [s] + todo[1..];
    if |todo| > 1 {
      var g' := Put(g, s, v).(publication := g.publication.(todo := todo[1..]));
      assert LeaveSignal(Put(g, s, v), Publisher) == g';
    }
  }

  lemma CloserLeaves(g: Service, s: SubId, v: Sub)
    requires Links(g) && s in g.subs && AtHead(g, s, Closer) && g.subs[s].clo != ToLock
    requires SameOutside(g.subs[s].(clo := Out), v)
    ensures Links(LeaveSignal(Put(g, s, v), Closer))
  {
    hide SubFits, Registry, PublisherWalk, CloserWalk, LatestFits;
    var g' := LeaveSignal(Put(g, s, v), Closer);
    RegistryKept(g, g');
    LatestKept(g, g');
    PublisherKept(g, g');
    CloserTail(g, s, v);
    forall x | x in g'.subs
      ensures SubFits(g', x)
    {
      FitsKept(g, g', x);
    }
  }

  lemma CloserTail(g: Service, s: SubId, v: Sub)
    requires CloserWalk(g) && s in g.subs && AtHead(g, s, Closer) && v.clo == Out
    ensures CloserWalk(LeaveSignal(Put(g, s, v), Closer))
  {
    assert g.closing == [s] + g.closing[1..];
  }

  lemma CloseLinks(g: Service, s: SubId, e: Event)
    requires Links(g) && s in g.subs && AtHead(g, s, Closer) && g.subs[s].clo == ToLock
    ensures Links(Put(g, s, LockSection(g.subs[s], Closer, e)))
  {
    hide SubFits, Registry, PublisherWalk, CloserWalk, LatestFits;
    var g' := Put(g, s, LockSection(g.subs[s], Closer, e));
    RegistryKept(g, g');
    LatestKept(g, g');
    PublisherKept(g, g');
    CloseWalk(g, s, LockSection(g.subs[s], Closer, e));
    assert g'.shutdown by { ClosingMeansShutdown(g); }
    forall x | x in g'.subs
      ensures SubFits(g', x)
    {
      FitsKept(g, g', x);
    }
  }

  lemma ClosingMeansShutdown(g: Service)
    requires CloserWalk(g) && g.closing != []
    ensures g.shutdown
  {
  }

  lemma CloseWalk(g: Service, s: SubId, v: Sub)
    requires CloserWalk(g) && s in g.subs && AtHead(g, s, Closer) && v.clo == Due
    ensures CloserWalk(Put(g, s, v))
  {
  }

  lemma {:induction false} WithoutIsRemoval(xs: seq<SubId>, s: SubId)
    requires NoRepeats(xs)
    ensures NoRepeats(Without(xs, s))
    ensures forall x :: x in Without(xs, s) <==> x in xs && x != s
  {
    if xs != [] {
      WithoutIsRemoval(xs[1..], s);
      assert xs[0] !in xs[1..];
    }
  }

  lemma RemoveLinks(g: Service, s: SubId, v: Sub)
    requires Links(g) && s in g.subs && g.subs[s].closed && v == g.subs[s].(cancel := Draining)
    ensures Links(Unlist(Put(g, s, v), s))
  {
    hide SubFits, Registry, PublisherWalk, CloserWalk, LatestFits, Unlist;
    var g' := Unlist(Put(g, s, v), s);
    UnlistRegistry(g, s, v);
    LatestKept(g, g');
    PublisherKept(g, g');
    CloserKept(g, g');
    forall x | x in g'.subs
      ensures SubFits(g', x)
    {
      FitsKept(g, g', x);
    }
  }

  lemma UnlistRegistry(g: Service, s: SubId, v: Sub)
    requires Registry(g) && s in g.subs && v.task == g.subs[s].task
    ensures var g' := Unlist(Put(g, s, v), s);
      && Registry(g')
      && g' == Put(g, s, v).(registered := g'.registered)
      && forall x :: x in g.subs && x != s && Listed(g, x) ==> Listed(g', x)
  {
    var id := g.subs[s].task.id;
    if id in g.registered {
      WithoutIsRemoval(g.registered[id], s);
    }
  }

  // ----- Steps on the tables -------------------------------------------------

  lemma SubscribeLinks(g: Service, s: SubId, task: Task)
    requires Links(g) && s !in g.subs && Accepts(g, task)
    ensures Links(ApplySubscribe(g, s, task))
  {
    hide SubFits, Registry, PublisherWalk, CloserWalk, LatestFits;
    var g' := ApplySubscribe(g, s, task);
    SubscribeRegistry(g, s, task);
    SubscribeWalks(g, s, task);
    LatestKept(g, g');
    SubscribeFits(g, s, task);
    forall x | x in g'.subs
      ensures SubFits(g', x)
    {
      if x != s { FitsKept(g, g', x); }
    }
  }

  lemma SubscribeRegistry(g: Service, s: SubId, task: Task)
    requires Registry(g) && s !in g.subs && Accepts(g, task)
    ensures Registry(ApplySubscribe(g, s, task))
    ensures forall x :: x in g.subs && Listed(g, x) ==> Listed(ApplySubscribe(g, s, task), x)
  {
  }

  lemma SubscribeWalks(g: Service, s: SubId, task: Task)
    requires PublisherWalk(g) && CloserWalk(g) && s !in g.subs && Accepts(g, task)
    ensures PublisherWalk(ApplySubscribe(g, s, task)) && CloserWalk(ApplySubscribe(g, s, task))
  {
  }

  /** The snapshot is the stored task, brought up to date by the last publication before. */
  lemma SubscribeFits(g: Service, s: SubId, task: Task)
    requires LatestFits(g) && s !in g.subs && Accepts(g, task)
    ensures SubFits(ApplySubscribe(g, s, task), s)
  {
    assert g.log[|g.log|..] == [] && g.log[..|g.log|] == g.log;
    assert task.id in g.latest <==> LastOn(g.log, task.id).Some?;
  }

  lemma PublishLinks(g: Service, task: Task)
    requires Links(g) && g.publication.Quiet? && !g.shutdown
    ensures Links(ApplyPublish(g, task))
  {
    hide SubFits, Registry, PublisherWalk, CloserWalk, LatestFits;
    var g' := ApplyPublish(g, task);
    PublishLatest(g, task);
    PublishTables(g, task);
    forall x | x in g'.subs
      ensures SubFits(g', x)
    {
      assert SubFits(g, x);
      PublishSub(g, task, x);
    }
  }

  lemma PublishSub(g: Service, task: Task, x: SubId)
    requires Registry(g) && PublisherWalk(g) && g.publication.Quiet? && !g.shutdown && x in g.subs && SubFits(g, x)
    ensures x in ApplyPublish(g, task).subs && SubFits(ApplyPublish(g, task), x)
  {
    hide Registry, PublisherWalk, LogFits, SnapshotFits, Gathered;
    PublishGathers(g, task, x);
    PublishFits(g, ApplyPublish(g, task), task, x);
  }

  lemma PublishLatest(g: Service, task: Task)
    requires LatestFits(g) && g.publication.Quiet? && !g.shutdown
    ensures LatestFits(ApplyPublish(g, task))
  {
    var g' := ApplyPublish(g, task);
    assert g'.log == g.log + [task] && g'.log[..|g.log|] == g.log;
    forall id
      ensures LastOn(g'.log, id) == if id == task.id then Some(task) else LastOn(g.log, id)
    {
    }
  }

  lemma PublishTables(g: Service, task: Task)
    requires Registry(g) && PublisherWalk(g) && CloserWalk(g) && g.publication.Quiet? && !g.shutdown
    ensures var g' := ApplyPublish(g, task); Registry(g') && PublisherWalk(g') && CloserWalk(g')
  {
    var g' := ApplyPublish(g, task);
    assert CloserWalk(g');
    assert Registry(g');
    if task.id in g.registered {
      var todo := g.registered[task.id];
      forall i | 0 <= i < |todo| ensures todo[i] in g.subs { assert todo[i] in g.registered[task.id]; }
    }
  }

  /** A publication on another task passes a subscriber by; one on its own task gathers it while it is open. */
  predicate Gathered(g: Service, g': Service, task: Task, x: SubId)
    requires x in g.subs && x in g'.subs
  {
    var u := g.subs[x];
    && u.pub == Out
    && (|| (g'.subs[x] == u && (task.id == u.task.id ==> u.closed) && (Listed(g, x) ==> Listed(g', x)))
        || (&& g'.subs[x] == u.(pub := ToLock) && task.id == u.task.id && Listed(g, x)
            && g'.publication.Publishing? && g'.publication.task == task
            && (IsTerminal(task.status.state) || Listed(g', x))))
  }

  lemma PublishGathers(g: Service, task: Task, x: SubId)
    requires Registry(g) && PublisherWalk(g) && g.publication.Quiet? && !g.shutdown && x in g.subs
    requires ListedWhileOpen(g, x)
    ensures x in ApplyPublish(g, task).subs && Gathered(g, ApplyPublish(g, task), task, x)
  {
  }

  lemma PublishFits(g: Service, g': Service, task: Task, x: SubId)
    requires x in g.subs && x in g'.subs && SubFits(g, x) && !g.shutdown && !g'.shutdown && g'.log == g.log + [task]
    requires Gathered(g, g', task, x)
    ensures SubFits(g', x)
  {
    var u := g.subs[x];
    PublishedAppends(g.log, u.from, task, u.task.id);
  }

  lemma PublishedAppends(log: seq<Task>, from: nat, task: Task, id: Bytes)
    requires from <= |log|
    ensures (log + [task])[..from] == log[..from]
    ensures PublishedOn((log + [task])[from..], id) ==
            PublishedOn(log[from..], id) + (if task.id == id then [UpdateEvent(task)] else [])
  {
    var rest := (log + [task])[from..];
    assert rest == log[from..] + [task] && rest[..|rest| - 1] == log[from..];
  }

  lemma ShutdownLinks(g: Service, order: seq<SubId>)
    requires Links(g) && !g.shutdown && Listing(g, order)
    ensures Links(ApplyShutdown(g, order))
  {
    hide SubFits, Registry, PublisherWalk, CloserWalk, LatestFits;
    var g' := ApplyShutdown(g, order);
    PublisherKept(g, g');
    LatestKept(g, g');
    ShutdownTables(g, order);
    forall x | x in g'.subs
      ensures SubFits(g', x)
    {
      FitsKept(g, g', x);
    }
  }

  lemma ShutdownTables(g: Service, order: seq<SubId>)
    requires CloserWalk(g) && !g.shutdown && Listing(g, order)
    ensures Registry(ApplyShutdown(g, order)) && CloserWalk(ApplyShutdown(g, order))
  {
  }
}
