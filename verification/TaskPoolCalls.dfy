/** What the calls and the workers' decisions mean in terms of accepted, waiting, running and finished tasks. */
module TaskPoolCalls {
  import opened Options
  import opened TaskPools
  import opened TaskPoolSafety

  /** The accepted tasks that have not finished. */
  ghost function Unfinished(p: Pool): int { |Pending(p, true)| + |Pending(p, false)| }

  /** The step occurs in some run. */
  ghost predicate Happens(p: Pool, l: Label, q: Pool) {
    exists states: seq<Pool>, labels: seq<Label>, n: nat :: Run(states, labels) && StepAt(states, labels, n, p, l, q)
  }

  ghost predicate StepAt(states: seq<Pool>, labels: seq<Label>, n: nat, p: Pool, l: Label, q: Pool) {
    n < |labels| && n + 1 < |states| && states[n] == p && labels[n] == l && states[n + 1] == q
  }

  lemma Happened(p: Pool, l: Label, q: Pool)
    requires Happens(p, l, q)
    ensures Inv(p) && Next(p, l, q) && Fits(p)
  {
    hide Next, Inv, Fits;
    var states: seq<Pool>, labels: seq<Label>, n: nat :| Run(states, labels) && StepAt(states, labels, n, p, l, q);
    assert Next(states[n], labels[n], states[n + 1]);
    RunKeepsInv(states, labels, n);
    CountersFit(states, labels, n);
  }

  // ---------------------------------------------------------------- Schedule

  lemma SpawnOnlySpawns(p: Pool)
    ensures var q := TryToSpawnThreads(p); q == p.(curThreads := q.curThreads, workers := q.workers, nextTid := q.nextTid)
    ensures TryToSpawnThreads(p).curThreads ==
      p.curThreads + if p.isStarted && p.curThreads < p.maxThreads && p.curThreads < p.queuedTaskCount + p.genericTaskCount then 1 else 0
  {
    assert SpawnUpTo(Spawn(p), p.curThreads + 1) == Spawn(p);
  }

  /** The 32-bit counters do not overflow. */
  ghost predicate Fits(p: Pool) { |Pending(p, true)| <= 0x7FFF_FFFF && |Pending(p, false)| <= 0x7FFF_FFFF }

  lemma {:induction false} CountersFit(states: seq<Pool>, labels: seq<Label>, n: nat)
    requires Run(states, labels) && n <= |labels|
    ensures Fits(states[n]) && 0 <= states[n].queuedTaskCount <= 0x7FFF_FFFF && 0 <= states[n].genericTaskCount <= 0x7FFF_FFFF
  {
    hide Next, Inv, Pending;
    RunKeepsInv(states, labels, n);
    CountersArePending(states[n]);
    if n > 0 {
      CountersFit(states, labels, n - 1);
      assert Next(states[n - 1], labels[n - 1], states[n - 1 + 1]);
      StepCounts(states[n - 1], labels[n - 1], states[n]);
    }
  }

  lemma CountersArePending(p: Pool)
    requires Inv(p)
    ensures p.queuedTaskCount == |Pending(p, true)| && p.genericTaskCount == |Pending(p, false)| && p.curThreads == |p.workers|
  {
    hide Ordered, Locked, Led, Single, Pending;
  }

  lemma StepCounts(p: Pool, l: Label, q: Pool)
    requires Next(p, l, q)
    ensures q.queuedTaskCount > p.queuedTaskCount ==> q.queuedTaskCount == p.queuedTaskCount + 1 && p.queuedTaskCount != 0x7FFF_FFFF
    ensures q.genericTaskCount > p.genericTaskCount ==> q.genericTaskCount == p.genericTaskCount + 1 && p.genericTaskCount != 0x7FFF_FFFF
  {
    match l
    case DoSchedule(kind) => ScheduleAdds(p, kind);
    case DoStart => StartOnlySpawns(p);
    case _ =>
  }

  lemma ScheduleAdds(p: Pool, kind: Kind)
    ensures var q, count := Schedule(p, kind), if kind == Generic then p.genericTaskCount else p.queuedTaskCount;
      if p.isStarted && !p.isStopping && count != 0x7FFF_FFFF then
        && q.log == p.log + [kind] && q.finished == p.finished && q.isStarted && q.maxThreads == p.maxThreads
        && q.queuedTaskCount == p.queuedTaskCount + (if kind == Generic then 0 else 1)
        && q.genericTaskCount == p.genericTaskCount + (if kind == Generic then 1 else 0)
        && q.curThreads == p.curThreads
             + if p.curThreads < p.maxThreads && p.curThreads < q.queuedTaskCount + q.genericTaskCount then 1 else 0
      else q == p
  {
    hide SpawnThreads, TryToSpawnThreads;
    match kind
    case Generic =>
      SpawnOnlySpawns(p.(generic := p.generic + [|p.log|], genericTaskCount := p.genericTaskCount + 1, log := p.log + [kind]));
    case Tagged(tag) => {
      var queue := if tag in p.queues then p.queues[tag] else Queue(p.nextNode, None, []);
      SpawnOnlySpawns(p.(queues := p.queues[tag := queue.PutTask(|p.log|)],
                         nextNode := if tag in p.queues then p.nextNode else p.nextNode + 1,
                         queuedTaskCount := p.queuedTaskCount + 1, log := p.log + [kind]));
    }
  }

  /** In every run, Schedule accepts a task exactly if the pool is started, not stopping, and has fewer than 2^31 - 1
      unfinished tasks of that sort. It then spawns one thread exactly if there are fewer than the maximum, and fewer
      than unfinished tasks. Otherwise nothing changes. */
  lemma ScheduleIff(p: Pool, kind: Kind, q: Pool)
    requires Happens(p, DoSchedule(kind), q)
    ensures
      if p.isStarted && !p.isStopping && |Pending(p, kind.Tagged?)| < 0x7FFF_FFFF then
        && q.log == p.log + [kind] && Unfinished(q) == Unfinished(p) + 1
        && |q.workers| == |p.workers| + if |p.workers| < p.maxThreads && |p.workers| < Unfinished(q) then 1 else 0
      else q == p
  {
    hide Happens, Inv, Pending, Schedule;
    Happened(p, DoSchedule(kind), q);
    NextKeepsInv(p, DoSchedule(kind), q);
    CountersArePending(p);
    CountersArePending(q);
    ScheduleAdds(p, kind);
  }

  // ---------------------------------------------------------------- Start and ShrinkMemory

  lemma {:induction false} SpawnUpToCounts(p: Pool, limit: int)
    ensures var q := SpawnUpTo(p, limit);
      && q == p.(curThreads := q.curThreads, workers := q.workers, nextTid := q.nextTid)
      && q.curThreads == if p.curThreads < limit then limit else p.curThreads
    decreases limit - p.curThreads
  {
    if p.curThreads < limit { SpawnUpToCounts(Spawn(p), limit); }
  }

  lemma StartOnlySpawns(p: Pool)
    ensures var q := Start(p); q.queuedTaskCount == p.queuedTaskCount && q.genericTaskCount == p.genericTaskCount && q.log == p.log
    ensures var q := Start(p);
      if 0 <= p.minThreads <= p.maxThreads && 0 < p.maxThreads then
        q.isStarted && !q.isStopping && q.curThreads == if p.curThreads < p.minThreads then p.minThreads else p.curThreads
      else q == p
  {
    var started := p.(isStarted := true, isStopping := false, overlapped := p.overlapped || p.stopsWaiting > 0);
    SpawnUpToCounts(started, p.minThreads);
  }

  /** Start with admissible limits opens the pool and brings the threads up to the minimum; otherwise nothing changes. */
  lemma StartIff(p: Pool, q: Pool)
    requires Happens(p, DoStart, q)
    ensures
      if 0 <= p.minThreads <= p.maxThreads && 0 < p.maxThreads then
        && q.isStarted && !q.isStopping && q.log == p.log
        && |q.workers| == if |p.workers| < p.minThreads then p.minThreads else |p.workers|
      else q == p
  {
    hide Happens, Inv, Start;
    Happened(p, DoStart, q);
    NextKeepsInv(p, DoStart, q);
    CountersArePending(p);
    CountersArePending(q);
    StartOnlySpawns(p);
  }

  /** Stop waits, however many others already do, unless the pool is not started; and it returns exactly when no worker
      is left, which closes the pool. */
  lemma StopIff(p: Pool, q: Pool)
    ensures Happens(p, DoStopBegin, q) ==>
      if p.isStarted then q.isStopping && q.stopsWaiting == p.stopsWaiting + 1 && q.workers == p.workers && q.log == p.log else q == p
    ensures Happens(p, DoStopReturn, q) ==>
      p.workers == map[] && !q.isStarted && p.stopsWaiting > 0 && q.stopsWaiting == p.stopsWaiting - 1 && q.log == p.log
  {
    hide Happens, Inv;
    if Happens(p, DoStopBegin, q) { Happened(p, DoStopBegin, q); }
    if Happens(p, DoStopReturn, q) { Happened(p, DoStopReturn, q); CountersArePending(p); }
  }

  ghost predicate HasTasks(p: Pool, tag: string) { exists id: TaskId :: id < |p.log| && p.log[id] == Tagged(tag) && id !in p.finished }

  /** ShrinkMemory removes the queue of the tag exactly if every accepted task of the tag has finished. */
  lemma ShrinkIff(p: Pool, tag: string, q: Pool)
    requires Happens(p, DoShrink(tag), q)
    ensures q == p.(queues := if HasTasks(p, tag) then p.queues else p.queues - {tag})
  {
    hide Happens, Inv, HasTasks;
    Happened(p, DoShrink(tag), q);
    if tag in p.queues { QueueInUseIff(p, tag); } else { assert p.queues - {tag} == p.queues; }
  }

  lemma QueueInUseIff(p: Pool, tag: string)
    requires Inv(p) && tag in p.queues
    ensures HasTasks(p, tag) <==> p.queues[tag].lockThread != None || p.queues[tag].tasks != []
  {
    hide Counted, Led, Single;
    var queue := p.queues[tag];
    assert Lined(p, Tagged(tag), WaitingOf(p, Tagged(tag))) && Owned(p, tag);
    if queue.tasks != [] {
      WaitingHasNotStarted(p, queue.tasks[0]);
    } else if queue.lockThread.Some? {
      assert RunsWell(p, queue.lockThread.value);
    } else if HasTasks(p, tag) {
      var id: TaskId :| id < |p.log| && p.log[id] == Tagged(tag) && id !in p.finished;
      RunningIsLocked(p, id);
    }
  }

  lemma WaitingHasNotStarted(p: Pool, id: TaskId)
    requires Inv(p) && id < |p.log| && id in WaitingOf(p, p.log[id])
    ensures id !in p.finished && id !in p.started
  {
  }

  lemma RunningIsLocked(p: Pool, id: TaskId)
    requires Inv(p) && id < |p.log| && p.log[id].Tagged? && id !in p.finished && id !in WaitingOf(p, p.log[id])
    ensures p.log[id].tag in p.queues && p.queues[p.log[id].tag].lockThread.Some?
  {
    hide Counted, Led, Single;
    assert id in p.started;
    var t :| RunBy(p, t, id);
    assert RunsWell(p, t);
  }

  // ---------------------------------------------------------------- what a worker does next

  /** A queued task starts only when every accepted generic task has started and every earlier one of its tag has
      finished, and on the generic worker only if that is alone. */
  lemma GenericFirst(p: Pool, t: Tid, tag: string, q: Pool)
    requires Happens(p, DoReapQueued(t, tag), q)
    ensures |q.started| == |p.started| + 1
    ensures var next := q.started[|p.started|];
      && (forall id: TaskId | id < |p.log| && p.log[id] == Generic :: id in p.started)
      && next < |p.log| && p.log[next] == Tagged(tag)
      && (forall id: TaskId | id < next && p.log[id] == Tagged(tag) :: id in p.finished)
      && (p.genericThread == Some(t) ==> |p.workers| <= 1)
  {
    hide Happens, Inv;
    Happened(p, DoReapQueued(t, tag), q);
    CountersArePending(p);
    var next := q.started[|p.started|];
    FirstWaiting(p, tag);
    forall id: TaskId | id < |p.log| && p.log[id] == Generic ensures id in p.started { StartedOrWaiting(p, id); }
    forall id: TaskId | id < next && p.log[id] == Tagged(tag) ensures id in p.finished {
      StartedOrWaiting(p, id);
      if id !in p.finished { RunningIsLocked(p, id); }
    }
  }

  lemma StartedOrWaiting(p: Pool, id: TaskId)
    requires Inv(p) && id < |p.log|
    ensures id in p.started || id in WaitingOf(p, p.log[id])
  {
  }

  lemma FirstWaiting(p: Pool, tag: string)
    requires Inv(p) && tag in p.queues && p.queues[tag].tasks != []
    ensures var tasks := p.queues[tag].tasks;
      && (forall id: TaskId | id in tasks :: id < |p.log| && p.log[id] == Tagged(tag) && tasks[0] <= id)
      && tasks[0] < |p.log|
    ensures p.queues[tag].lockThread.Some? ==>
      p.queues[tag].lockThread.value in p.workers && p.workers[p.queues[tag].lockThread.value].Running?
  {
    assert Lined(p, Tagged(tag), WaitingOf(p, Tagged(tag))) && Owned(p, tag);
  }

  /** A worker finds nothing to do only if every accepted generic task has started and, unless it is the generic worker
      of a larger pool, each tag with an unstarted task has one running. */
  lemma IdleMeansNothingToTake(p: Pool, t: Tid, q: Pool, id: TaskId)
    requires Happens(p, DoIdle(t), q) && id < |p.log| && id !in p.started
    ensures p.log[id].Tagged?
    ensures p.genericThread != Some(t) || |p.workers| == 1 ==>
      exists u, other: TaskId :: RunBy(p, u, other) && other < |p.log| && p.log[other] == p.log[id]
  {
    hide Happens, Inv;
    Happened(p, DoIdle(t), q);
    CountersArePending(p);
    StartedOrWaiting(p, id);
    if p.genericThread != Some(t) || |p.workers| == 1 {
      var tag := p.log[id].tag;
      assert !Yields(p, t, tag);
      var u := p.queues[tag].lockThread.value;
      LockHolderRuns(p, tag);
      assert RunBy(p, u, p.workers[u].task);
    }
  }

  lemma LockHolderRuns(p: Pool, tag: string)
    requires Inv(p) && tag in p.queues && p.queues[tag].lockThread.Some?
    ensures var u := p.queues[tag].lockThread.value;
      u in p.workers && p.workers[u].Running? && p.workers[u].task < |p.log| && p.log[p.workers[u].task] == Tagged(tag)
  {
    assert Owned(p, tag);
    assert RunsWell(p, p.queues[tag].lockThread.value);
  }

  /** A worker that finds nothing leaves at once if Stop is under way. Otherwise it waits, and a timeout with no
      unfinished generic task lets it leave exactly if it is not the generic worker and there are more workers than the
      minimum. */
  lemma IdleLeavesIff(p: Pool, t: Tid, q: Pool)
    requires Happens(p, DoIdle(t), q)
    ensures At(q, t, Leaving) <==> p.isStopping
    ensures !p.isStopping && Pending(p, false) == {} ==>
      ((exists r :: Next(q, DoWake(t, true), r) && At(r, t, Leaving)) <==>
         p.genericThread != Some(t) && |p.workers| > p.minThreads)
  {
    hide Happens, Inv, Pending;
    Happened(p, DoIdle(t), q);
    CountersArePending(p);
    if !p.isStopping && Pending(p, false) == {} { assert Next(q, DoWake(t, true), Wake(q, t, true)); }
  }

  /** A waiting worker leaves exactly after a timeout of a timed wait while no generic task is unfinished. */
  lemma WakeLeavesIff(p: Pool, t: Tid, timeout: bool, q: Pool)
    requires Happens(p, DoWake(t, timeout), q)
    ensures At(q, t, if timeout && At(p, t, Waiting(true)) && Pending(p, false) == {} then Leaving else Ready)
  {
    hide Happens, Inv, Pending;
    Happened(p, DoWake(t, timeout), q);
    CountersArePending(p);
  }
}
