/** A run in which a late signal ends an open stream, so that the terminal update is queued and never handed out. */
module SubscriptionEarlyEnd {
  import opened Protocol
  import opened Subscription
  import opened SubscriptionRuns

  const ID: Bytes := [116]

  function At(state: TaskState): Task
  {
    Task(ID, [], Status(state, None, ""), [], [])
  }

  const STORED := At(Submitted)
  const FIRST := At(Working)
  const LAST := At(Completed)
  const SNAPSHOT := SnapshotEvent(STORED)
  const UPDATE := UpdateEvent(FIRST)
  const END := UpdateEvent(LAST)

  /** The service with one session on the one task there is. */
  function With(g: Service, u: Sub): Service
  {
    g.(subs := map[0 := u])
  }

  /** While the first publication is under way, after it, and while the last one is. */
  const FIRST_ROUND :=
    Service(map[ID := Latest([], FIRST.status)], map[ID := [0]], false, Publishing(FIRST, [0]), [], map[], [FIRST])

  const BETWEEN := FIRST_ROUND.(publication := Quiet)

  const LAST_ROUND :=
    Service(map[ID := Latest([], LAST.status)], map[], false, Publishing(LAST, [0]), [], map[], [FIRST, LAST])

  lemma Extend(run: seq<Step>, g: Service, step: Step) returns (longer: seq<Step>)
    requires Reaches(Init(), run, g) && Enabled(g, step)
    ensures Reaches(Init(), longer, Apply(g, step))
  {
    hide Enabled, Apply;
    longer := run + [step];
    assert [step][1..] == [];
    assert Reaches(g, [step], Apply(g, step));
    RunsCompose(Init(), run, g, [step], Apply(g, step));
  }

  /** One step on the session. */
  lemma Move(run: seq<Step>, g: Service, u: Sub, step: Step, v: Sub) returns (longer: seq<Step>)
    requires Reaches(Init(), run, With(g, u)) && Enabled(With(g, u), step) && !OnTables(step) && step.s == 0
    requires !step.Remove? && !Leaves(With(g, u), step) && v == Section(With(g, u), step)
    ensures Reaches(Init(), longer, With(g, v))
  {
    hide Reaches, Enabled, Section;
    longer := Extend(run, With(g, u), step);
    assert With(g, u).subs[0 := v] == map[0 := v];
    assert Apply(With(g, u), step) == With(g, v);
  }

  // ----- The session along the run -------------------------------------------

  /** The update is queued, its publisher has not signalled yet, and nothing has been read. */
  const QUEUED := NewSub(STORED, 0).(events := [UPDATE], accepted := [UPDATE], pending := 1, pub := Due)

  const SNAPSHOT_OUT :=
    QUEUED.(started := true, frame := Suspended(YieldPoint(false)), current := Some(SNAPSHOT), resumer := Reader,
            reader := InResume)

  const ASKING :=
    QUEUED.(started := true, frame := Suspended(YieldPoint(false)), reader := ToResume, handed := [SNAPSHOT])

  const POPPED :=
    ASKING.(frame := Running(YieldEvent(UPDATE)), resumer := Reader, reader := InResume, events := [])

  const UPDATE_TAKEN :=
    POPPED.(frame := Suspended(YieldPoint(false)), resumer := Nobody, reader := Got(UPDATE), again := true)

  const ASKING_AGAIN :=
    UPDATE_TAKEN.(reader := ToResume, again := false, pending := 0, handed := [SNAPSHOT, UPDATE])

  const PARKED := ASKING_AGAIN.(frame := Suspended(AwaitPoint), resumer := Reader, reader := InResume, cont := true)

  const SUBSCRIBED := Service(map[], map[ID := [0]], false, Quiet, [], map[0 := NewSub(STORED, 0)], [])

  lemma Subscribes() returns (run: seq<Step>)
    ensures Reaches(Init(), run, SUBSCRIBED)
  {
    var u := NewSub(STORED, 0);
    run := Extend([], Init(), Subscribe(0, STORED));
    assert map[][0 := u] == map[0 := u] && [] + [0] == [0];
    assert Apply(Init(), Subscribe(0, STORED)) == SUBSCRIBED;
  }

  lemma Queues() returns (run: seq<Step>)
    ensures Reaches(Init(), run, With(FIRST_ROUND, QUEUED))
  {
    hide Reaches;
    var u := NewSub(STORED, 0).(pub := ToLock);
    run := Subscribes();
    run := Extend(run, SUBSCRIBED, Publish(FIRST));
    assert Apply(SUBSCRIBED, Publish(FIRST)) == With(FIRST_ROUND, u);
    run := Move(run, FIRST_ROUND, u, Lock(0, Publisher), QUEUED);
  }

  lemma ReadsSnapshot() returns (run: seq<Step>)
    ensures Reaches(Init(), run, With(FIRST_ROUND, SNAPSHOT_OUT))
  {
    hide Reaches;
    run := Queues();
    var u1 := QUEUED.(started := true, reader := ToResume);
    run := Move(run, FIRST_ROUND, QUEUED, Read(0), u1);
    var u2 := u1.(resumer := Reader, reader := InResume, frame := Running(YieldSnapshot));
    run := Move(run, FIRST_ROUND, u1, ReaderResume(0), u2);
    run := Move(run, FIRST_ROUND, u2, RunFrame(0), SNAPSHOT_OUT);
  }

  lemma TakesSnapshot() returns (run: seq<Step>)
    ensures Reaches(Init(), run, With(FIRST_ROUND, ASKING))
  {
    hide Reaches;
    run := ReadsSnapshot();
    var u1 := SNAPSHOT_OUT.(resumer := Nobody, reader := Waiting);
    run := Move(run, FIRST_ROUND, SNAPSHOT_OUT, ReaderReturn(0), u1);
    var u2 := u1.(current := None, again := true, reader := Got(SNAPSHOT));
    run := Move(run, FIRST_ROUND, u1, Wake(0), u2);
    var u3 := u2.(handed := [SNAPSHOT], reader := Outside);
    run := Move(run, FIRST_ROUND, u2, Deliver(0), u3);
    run := Move(run, FIRST_ROUND, u3, Read(0), ASKING);
  }

  lemma Pops() returns (run: seq<Step>)
    ensures Reaches(Init(), run, With(FIRST_ROUND, POPPED))
  {
    hide Reaches;
    run := TakesSnapshot();
    var u1 := ASKING.(resumer := Reader, reader := InResume, frame := Running(AwaitReady));
    run := Move(run, FIRST_ROUND, ASKING, ReaderResume(0), u1);
    var u2 := u1.(frame := Running(AwaitResume));
    run := Move(run, FIRST_ROUND, u1, RunFrame(0), u2);
    run := Move(run, FIRST_ROUND, u2, RunFrame(0), POPPED);
  }

  lemma TakesUpdate() returns (run: seq<Step>)
    ensures Reaches(Init(), run, With(FIRST_ROUND, UPDATE_TAKEN))
  {
    hide Reaches;
    run := Pops();
    var u1 := POPPED.(current := Some(UPDATE), frame := Suspended(YieldPoint(false)));
    run := Move(run, FIRST_ROUND, POPPED, RunFrame(0), u1);
    var u2 := u1.(resumer := Nobody, reader := Waiting);
    run := Move(run, FIRST_ROUND, u1, ReaderReturn(0), u2);
    run := Move(run, FIRST_ROUND, u2, Wake(0), UPDATE_TAKEN);
  }

  lemma AsksAgain() returns (run: seq<Step>)
    ensures Reaches(Init(), run, With(FIRST_ROUND, ASKING_AGAIN))
  {
    hide Reaches;
    run := TakesUpdate();
    var u1 := UPDATE_TAKEN.(handed := [SNAPSHOT, UPDATE], pending := 0, reader := Outside);
    run := Move(run, FIRST_ROUND, UPDATE_TAKEN, Deliver(0), u1);
    run := Move(run, FIRST_ROUND, u1, Read(0), ASKING_AGAIN);
  }

  lemma Parks() returns (run: seq<Step>)
    ensures Reaches(Init(), run, With(FIRST_ROUND, PARKED))
  {
    hide Reaches;
    run := AsksAgain();
    var u1 := ASKING_AGAIN.(resumer := Reader, reader := InResume, frame := Running(AwaitReady));
    run := Move(run, FIRST_ROUND, ASKING_AGAIN, ReaderResume(0), u1);
    var u2 := u1.(frame := Running(AwaitSuspend));
    run := Move(run, FIRST_ROUND, u1, RunFrame(0), u2);
    run := Move(run, FIRST_ROUND, u2, RunFrame(0), PARKED);
  }

  const TAKEN :=
    PARKED.(resumer := Nobody, reader := Waiting, pub := Holding, cont := false, active := 1, late := true)

  const RETURNED := TAKEN.(pub := Resuming, resumer := By(Publisher), done := true, frame := Suspended(FinalPoint))

  const ENDED := RETURNED.(pub := Out, resumer := Nobody, active := 0)

  const MISSED := ENDED.(pub := Due, events := [END], accepted := [UPDATE, END], pending := 1, closed := true)

  /** The publisher of an update that was read long ago takes the continuation of a reader waiting for the next one. */
  lemma TakesLate() returns (run: seq<Step>)
    ensures Reaches(Init(), run, With(FIRST_ROUND, TAKEN))
  {
    hide Reaches;
    run := Parks();
    var u1 := PARKED.(resumer := Nobody, reader := Waiting);
    run := Move(run, FIRST_ROUND, PARKED, ReaderReturn(0), u1);
    run := Move(run, FIRST_ROUND, u1, Take(0, Publisher), TAKEN);
  }

  /** The frame finds an empty queue and returns. */
  lemma Returns() returns (run: seq<Step>)
    ensures Reaches(Init(), run, With(FIRST_ROUND, RETURNED))
  {
    hide Reaches;
    run := TakesLate();
    var u1 := TAKEN.(pub := Resuming, resumer := By(Publisher), frame := Running(AwaitResume));
    run := Move(run, FIRST_ROUND, TAKEN, Resume(0, Publisher), u1);
    var u2 := u1.(frame := Running(Return));
    run := Move(run, FIRST_ROUND, u1, RunFrame(0), u2);
    run := Move(run, FIRST_ROUND, u2, RunFrame(0), RETURNED);
  }

  lemma Ends() returns (run: seq<Step>)
    ensures Reaches(Init(), run, With(BETWEEN, ENDED))
  {
    hide Reaches;
    run := Returns();
    var u1 := RETURNED.(pub := Released, resumer := Nobody);
    run := Move(run, FIRST_ROUND, RETURNED, ReturnFromResume(0, Publisher), u1);
    run := Extend(run, With(FIRST_ROUND, u1), Drop(0, Publisher));
    assert With(FIRST_ROUND, u1).subs[0 := ENDED] == map[0 := ENDED];
    assert Apply(With(FIRST_ROUND, u1), Drop(0, Publisher)) == With(BETWEEN, ENDED);
  }

  lemma PublishesLast() returns (run: seq<Step>)
    ensures Reaches(Init(), run, With(LAST_ROUND, ENDED.(pub := ToLock)))
  {
    hide Reaches;
    run := Ends();
    var g, u := With(BETWEEN, ENDED), ENDED.(pub := ToLock);
    run := Extend(run, g, Publish(LAST));
    assert g.registered - {ID} == map[] && [FIRST] + [LAST] == [FIRST, LAST];
    assert g.latest[ID := Latest([], LAST.status)] == LAST_ROUND.latest;
    assert Apply(g, Publish(LAST)) == With(LAST_ROUND, u);
  }

  lemma Misses() returns (run: seq<Step>)
    ensures Reaches(Init(), run, With(LAST_ROUND, MISSED))
  {
    hide Reaches;
    run := PublishesLast();
    run := Move(run, LAST_ROUND, ENDED.(pub := ToLock), Lock(0, Publisher), MISSED);
  }

  /** A session neither cancelled nor shut down whose stream has ended with the terminal update of its task queued and
      not handed out; by then nothing more ever is. */
  lemma StreamsCanEndEarly() returns (run: seq<Step>, end: Service)
    ensures Reaches(Init(), run, end) && 0 in end.subs
    ensures var u := end.subs[0];
      && u.late && u.frame == Suspended(FinalPoint) && u.cancel == NotCancelled && !end.shutdown
      && u.handed == [SNAPSHOT, UPDATE] && u.events == [END] && TerminalEvent(END)
  {
    hide Reaches;
    run := Misses();
    end := With(LAST_ROUND, MISSED);
  }
}
