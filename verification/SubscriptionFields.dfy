/** What subscribers see, field by field: the snapshot, the updates, who is let in and when a session is live. */
module SubscriptionFields {
  import opened Protocol
  import opened Subscription
  import opened SubscriptionInvariant
  import opened SubscriptionService
  import opened SubscriptionRuns

  // ----- What is handed out --------------------------------------------------

  /** The publications on a task, as the service was given them. */
  function TasksOn(log: seq<Task>, id: Bytes): seq<Task>
  {
    if log == [] then []
    else TasksOn(log[..|log| - 1], id) + (if log[|log| - 1].id == id then [log[|log| - 1]] else [])
  }

  predicate ShowsSnapshot(e: Event, task: Task)
  {
    && e.TaskEvent? && e.task.id == task.id && e.task.contextId == task.contextId && e.task.status == task.status
    && e.task.artifacts == [] && e.task.history == []
  }

  predicate ShowsUpdate(e: Event, task: Task)
  {
    e.StatusUpdate? && e.taskId == task.id && e.contextId == task.contextId && e.status == task.status
  }

  lemma {:induction false} PublishedShows(log: seq<Task>, id: Bytes)
    ensures |PublishedOn(log, id)| == |TasksOn(log, id)|
    ensures forall k :: 0 <= k < |TasksOn(log, id)| ==>
      TasksOn(log, id)[k].id == id && ShowsUpdate(PublishedOn(log, id)[k], TasksOn(log, id)[k])
  {
    if log != [] { PublishedShows(log[..|log| - 1], id); }
  }

  /** In every interleaving: first the snapshot, with the subscribed task's id, context and status and nothing else of
      it; then for each publication on that task since the subscription, in order and without gap, an update with its
      id, context and status, and none behind one in a terminal state. */
  lemma HandedShowsPublications(g: Service, s: SubId)
    requires Reachable(g) && s in g.subs
    ensures g.subs[s].from <= |g.log|
    ensures g.subs[s].handed != [] ==> ShowsSnapshot(g.subs[s].handed[0], g.subs[s].task)
    ensures var u := g.subs[s];
      var published := TasksOn(g.log[u.from..], u.task.id);
      forall k :: 0 < k < |u.handed| ==>
        && k <= |published| && published[k - 1].id == u.task.id && ShowsUpdate(u.handed[k], published[k - 1])
        && (k < |u.handed| - 1 ==> !Ended(published[k - 1].status.state))
  {
    hide Inv, Reachable;
    ReachableKeeps(g);
    HandedOwed(g, s);
    var u := g.subs[s];
    PublishedShows(g.log[u.from..], u.task.id);
    var events := PublishedOn(g.log[u.from..], u.task.id);
    forall k | 0 < k < |u.handed|
      ensures k <= |events| && u.handed[k] == events[k - 1] && (k < |u.handed| - 1 ==> !TerminalEvent(events[k - 1]))
    {
      assert u.handed[k] == Owed(u)[k] == u.accepted[k - 1];
    }
  }

  lemma HandedOwed(g: Service, s: SubId)
    requires Inv(g) && s in g.subs
    ensures var u := g.subs[s];
      && u.from <= |g.log| && u.handed <= Owed(u) && u.accepted <= PublishedOn(g.log[u.from..], u.task.id)
      && forall k :: 0 <= k < |u.accepted| - 1 ==> !TerminalEvent(u.accepted[k])
  {
    assert SubFits(g, s);
    hide Control, LateFits, Counted;
  }

  // ----- Who is let in -------------------------------------------------------

  /** The states in which a task is over. */
  predicate Ended(state: TaskState)
  {
    match state
    case Completed => true
    case Failed => true
    case Canceled => true
    case Rejected => true
    case _ => false
  }

  /** A subscription is refused exactly after shutdown or when the task is over by its last publication, or by the
      stored task if nothing was published on it. Otherwise the snapshot is of the stored task, with the context and
      status of the last publication. */
  lemma SubscribedExactly(g: Service, s: SubId, task: Task)
    requires Reachable(g) && s !in g.subs
    ensures var last := LastOn(g.log, task.id);
      var status := if last.Some? then last.value.status else task.status;
      var g' := Apply(g, Subscribe(s, task));
      if g.shutdown || Ended(status.state) then g' == g
      else
        && s in g'.subs && g'.subs[s].task.id == task.id && g'.subs[s].task.status == status
        && g'.subs[s].task.contextId == (if last.Some? then last.value.contextId else task.contextId)
        && g'.subs[s].from == |g.log| && g'.subs[s].handed == [] && g'.subs[s].accepted == []
        && !g'.subs[s].closed
  {
    hide Inv, Reachable, Registry, PublisherWalk, CloserWalk, AllLocal;
    ReachableKeeps(g);
    assert LatestFits(g) by { LatestHolds(g); }
  }

  lemma LatestHolds(g: Service)
    requires Inv(g)
    ensures LatestFits(g)
  {
    hide LatestFits;
  }

  // ----- When a session is live ----------------------------------------------

  /** How many updates `Next` has returned. */
  function UpdatesHanded(u: Sub): nat
  {
    if u.handed == [] then 0 else |u.handed| - 1
  }

  /** A session is live exactly while its stream has not returned and it is open or owes an update it accepted. */
  lemma LiveExactly(g: Service, s: SubId)
    requires Reachable(g) && s in g.subs && !g.subs[s].frame.Destroyed?
    ensures IsLive(g.subs[s]) <==>
      !g.subs[s].done && (!g.subs[s].closed || UpdatesHanded(g.subs[s]) < |g.subs[s].accepted|)
  {
    hide Inv, Reachable;
    ReachableKeeps(g);
    PendingIsOwed(g, s);
  }

  lemma PendingIsOwed(g: Service, s: SubId)
    requires Inv(g) && s in g.subs && !g.subs[s].frame.Destroyed?
    ensures g.subs[s].pending == |g.subs[s].accepted| - UpdatesHanded(g.subs[s]) >= 0
  {
    var u := g.subs[s];
    assert Conserved(u) && Counted(u);
    hide Links, Control, LateFits, TerminalLast;
    FlightIsOwed(u);
  }

  lemma FlightIsOwed(u: Sub)
    requires Conserved(u) && Counted(u) && !u.frame.Destroyed?
    ensures u.pending == |u.accepted| - UpdatesHanded(u) >= 0
  {
    var flight := InFlight(u);
    assert |u.handed| + |flight| + |u.events| == 1 + |u.accepted|;
    assert (u.handed + flight + u.events)[0] == SnapshotEvent(u.task);
    if flight != [] {
      assert (u.handed + flight + u.events)[|u.handed|] == flight[0] == Owed(u)[|u.handed|];
    }
  }
}
