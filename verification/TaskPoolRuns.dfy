/** Runs in which Stop returns with an accepted task still queued. */
module TaskPoolRuns {
  import opened Options
  import opened TaskPools
  import opened TaskPoolSafety

  /** Some run leads to this state. */
  ghost predicate Reachable(p: Pool) {
    exists states: seq<Pool>, labels: seq<Label> :: Run(states, labels) && states[|labels|] == p
  }

  lemma NewIsReachable(maxThreads: int, minThreads: int)
    ensures Reachable(New(maxThreads, minThreads))
  {
    assert Run([New(maxThreads, minThreads)], []);
  }

  lemma StepTo(p: Pool, l: Label, q: Pool)
    requires Reachable(p) && Next(p, l, q)
    ensures Reachable(q)
  {
    hide Next;
    var states, labels :| Run(states, labels) && states[|labels|] == p;
    var states', labels' := states + [q], labels + [l];
    forall i | 0 <= i < |labels'| ensures Next(states'[i], labels'[i], states'[i + 1]) {
      if i < |labels| { assert Next(states[i], labels[i], states[i + 1]); }
    }
    assert Run(states', labels') && states'[|labels'|] == q;
  }

  // ---------------------------------------------------------------- one thread

  const LAST_LEAVES: Pool :=
    New(1, 1).(isStarted := true, isStopping := true, curThreads := 1, workers := map[0 := Leaving], nextTid := 1,
               genericThread := Some(0), stopsWaiting := 1)

  lemma LastLeavesIsReachable()
    ensures Reachable(LAST_LEAVES)
  {
    hide Reachable;
    var p0 := New(1, 1);
    var p1 := p0.(isStarted := true, curThreads := 1, workers := map[0 := Fresh], nextTid := 1);
    var p2 := p1.(genericThread := Some(0), workers := map[0 := Ready]);
    var p3 := p2.(isStopping := true, stopsWaiting := 1);
    NewIsReachable(1, 1);
    assert SpawnUpTo(p1, 1) == p1;
    StepTo(p0, DoStart, p1);
    StepTo(p1, DoBecome(0), p2);
    StepTo(p2, DoStopBegin, p3);
    StepTo(p3, DoIdle(0), LAST_LEAVES);
  }

  /** A Start that comes while Stop is waiting can lose a task: the last worker is already leaving, the task is
      accepted without a new thread, the pool is empty although started with a minimum of one, and Stop returns with
      the task still queued. */
  lemma StartDuringStopLosesTask()
    ensures exists p: Pool ::
      && Reachable(p) && CanStopReturn(p) && p.maxThreads == 1 && p.log == [Generic] && p.finished == {}
      && p.isStarted && !p.isStopping && p.minThreads == 1 && p.curThreads == 0
  {
    hide Reachable;
    var p5 := LAST_LEAVES.(isStopping := false, overlapped := true);
    var p6 := p5.(generic := [0], genericTaskCount := 1, log := [Generic]);
    var p7 := p6.(genericThread := None, curThreads := 0, workers := map[]);
    LastLeavesIsReachable();
    StepTo(LAST_LEAVES, DoStart, p5);
    StepTo(p5, DoSchedule(Generic), p6);
    StepTo(p6, DoExit(0), p7);
  }

  // ---------------------------------------------------------------- two threads, and no Start during Stop

  /** One task of the tag is queued, and a thread was spawned for it. */
  const ONE_QUEUED: Pool :=
    New(2, 0).(isStarted := true, queues := map["a" := Queue(0, None, [0])], nextNode := 1, queuedTaskCount := 1,
               log := [Tagged("a")], curThreads := 1, workers := map[0 := Fresh], nextTid := 1)

  /** Two tasks of the tag, two workers about to reap, the first of them generic. */
  const BOTH_READY: Pool :=
    ONE_QUEUED.(queues := map["a" := Queue(0, None, [0, 1])], queuedTaskCount := 2, log := [Tagged("a"), Tagged("a")],
                curThreads := 2, workers := map[0 := Ready, 1 := Ready], nextTid := 2, genericThread := Some(0))

  /** One of them is done. */
  const ONE_DONE: Pool :=
    BOTH_READY.(queues := map["a" := Queue(0, None, [1])], started := [0], finished := {0}, queuedTaskCount := 1)

  /** Both are done. */
  const BOTH_DONE: Pool :=
    ONE_DONE.(queues := map["a" := Queue(0, None, [])], started := [0, 1], finished := {0, 1}, queuedTaskCount := 0)

  lemma SpawnsOneMore(p: Pool)
    ensures SpawnUpTo(p, p.curThreads + 1) == Spawn(p)
  {
    assert SpawnUpTo(Spawn(p), p.curThreads + 1) == Spawn(p);
  }

  lemma OneQueuedIsReachable()
    ensures Reachable(ONE_QUEUED)
  {
    hide Reachable;
    var p0 := New(2, 0);
    var p1 := p0.(isStarted := true);
    NewIsReachable(2, 0);
    StepTo(p0, DoStart, p1);
    var queued := Queued(p1, Tagged("a"));
    SpawnsOneMore(queued);
    assert [] + [0] == [0];
    assert queued.queues == ONE_QUEUED.queues && queued.log == ONE_QUEUED.log;
    assert queued.workers[0 := Fresh] == ONE_QUEUED.workers;
    assert Schedule(p1, Tagged("a")) == Spawn(queued) == ONE_QUEUED;
    StepTo(p1, DoSchedule(Tagged("a")), ONE_QUEUED);
  }

  lemma BothReadyIsReachable()
    ensures Reachable(BOTH_READY)
  {
    hide Reachable;
    var p3 := BOTH_READY.(workers := map[0 := Fresh, 1 := Fresh], genericThread := None);
    var p4 := BOTH_READY.(workers := map[0 := Ready, 1 := Fresh]);
    OneQueuedIsReachable();
    var queued := Queued(ONE_QUEUED, Tagged("a"));
    SpawnsOneMore(queued);
    assert [0] + [1] == [0, 1];
    assert queued.queues == BOTH_READY.queues && queued.log == BOTH_READY.log;
    assert queued.workers[1 := Fresh] == p3.workers;
    assert Schedule(ONE_QUEUED, Tagged("a")) == Spawn(queued) == p3;
    StepTo(ONE_QUEUED, DoSchedule(Tagged("a")), p3);
    assert p3.workers[0 := Ready] == p4.workers && p4.workers[1 := Ready] == BOTH_READY.workers;
    StepTo(p3, DoBecome(0), p4);
    StepTo(p4, DoBecome(1), BOTH_READY);
  }

  /** The second worker takes the first task of the queue and finishes it. */
  lemma SecondRuns(p: Pool, q: Pool)
    requires Reachable(p) && At(p, 1, Ready) && p.generic == [] && p.genericThread == Some(0)
    requires "a" in p.queues && p.queues["a"].lockThread == None && p.queues["a"].tasks != []
    requires var id := p.queues["a"].tasks[0];
      q == p.(queues := p.queues["a" := Queue(p.queues["a"].node, None, p.queues["a"].tasks[1..])],
              queuedTaskCount := p.queuedTaskCount - 1, started := p.started + [id], finished := p.finished + {id})
    ensures Reachable(q)
  {
    hide Reachable;
    var r := ReapQueued(p, 1, "a");
    StepTo(p, DoReapQueued(1, "a"), r);
    assert r.queues["a"].lockThread == Some(1) && r.workers[1].queue == Some(Pointer("a", p.queues["a"].node));
    assert r.workers[1 := Ready] == p.workers;
    assert r.queues["a" := r.queues["a"].ReleaseLock(1)] == q.queues;
    StepTo(r, DoFinish(1), q);
  }

  lemma BothDoneIsReachable()
    ensures Reachable(BOTH_DONE)
  {
    hide Reachable;
    BothReadyIsReachable();
    assert [0, 1][1..] == [1] && [1][1..] == [] && [0] + [1] == [0, 1] && {0} + {1} == {0, 1};
    assert BOTH_READY.queues["a" := Queue(0, None, [1])] == ONE_DONE.queues;
    assert ONE_DONE.queues["a" := Queue(0, None, [])] == BOTH_DONE.queues;
    SecondRuns(BOTH_READY, ONE_DONE);
    SecondRuns(ONE_DONE, BOTH_DONE);
  }

  /** The second worker waits for a limited time, the wait times out, and a task is accepted without a spawn. */
  const ACCEPTED: Pool :=
    BOTH_DONE.(workers := map[0 := Ready, 1 := Leaving], queues := map["a" := Queue(0, None, [2])], queuedTaskCount := 1,
               log := [Tagged("a"), Tagged("a"), Tagged("a")])

  lemma TimedOutIsReachable()
    ensures Reachable(BOTH_DONE.(workers := map[0 := Ready, 1 := Leaving]))
  {
    hide Reachable;
    var p10 := BOTH_DONE.(workers := map[0 := Ready, 1 := Waiting(true)], idleThreads := 1);
    var p11 := BOTH_DONE.(workers := map[0 := Ready, 1 := Leaving]);
    BothDoneIsReachable();
    assert BOTH_DONE.workers[1 := Waiting(true)] == p10.workers && p10.workers[1 := Leaving] == p11.workers;
    StepTo(BOTH_DONE, DoIdle(1), p10);
    StepTo(p10, DoWake(1, true), p11);
  }

  lemma AcceptedIsReachable()
    ensures Reachable(ACCEPTED)
  {
    hide Reachable;
    var p11 := BOTH_DONE.(workers := map[0 := Ready, 1 := Leaving]);
    TimedOutIsReachable();
    var queued := Queued(p11, Tagged("a"));
    assert [] + [2] == [2];
    assert queued.queues == ACCEPTED.queues && queued.log == ACCEPTED.log;
    assert Schedule(p11, Tagged("a")) == queued == ACCEPTED;
    StepTo(p11, DoSchedule(Tagged("a")), ACCEPTED);
  }

  /** With more threads a task can be lost without any Start during Stop: a worker has timed out but not exited, a
      tagged task is accepted without a spawn, and the generic worker leaves it because it is not yet alone. */
  lemma TwoThreadsLoseTask()
    ensures exists p: Pool ::
      && Reachable(p) && CanStopReturn(p) && p.maxThreads == 2 && !p.overlapped
      && 2 < |p.log| && p.log[2] == Tagged("a") && 2 !in p.finished && 2 !in p.started
  {
    hide Reachable, Next;
    StoppingIsReachable();
    LeaversExit(STOPPING, LeaversGone(STOPPING));
    var p := LeaversGone(STOPPING);
    assert Reachable(p) && CanStopReturn(p) && p.maxThreads == 2 && !p.overlapped && |p.log| == 3;
  }

  const STOPPING: Pool :=
    ACCEPTED.(isStopping := true, stopsWaiting := 1, workers := map[0 := Leaving, 1 := Leaving])

  lemma StoppingIsReachable()
    ensures Reachable(STOPPING)
  {
    hide Reachable;
    var p13 := ACCEPTED.(isStopping := true, stopsWaiting := 1);
    AcceptedIsReachable();
    StepTo(ACCEPTED, DoStopBegin, p13);
    assert p13.workers[0 := Leaving] == STOPPING.workers;
    StepTo(p13, DoIdle(0), STOPPING);
  }

  function LeaversGone(p: Pool): Pool { p.(genericThread := None, curThreads := p.curThreads - 2, workers := map[]) }

  lemma LeaversExit(p: Pool, q: Pool)
    requires Reachable(p) && p.workers == map[0 := Leaving, 1 := Leaving] && p.genericThread == Some(0) && q == LeaversGone(p)
    ensures Reachable(q)
  {
    hide Reachable;
    var r := p.(genericThread := None, curThreads := p.curThreads - 1, workers := map[1 := Leaving]);
    assert p.workers - {0} == r.workers && r.workers - {1} == q.workers;
    StepTo(p, DoExit(0), r);
    StepTo(r, DoExit(1), q);
  }
}
