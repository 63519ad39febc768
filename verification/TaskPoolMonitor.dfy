/** The task pool object: each method is a critical section, proved to be a step of the transition system. */
module TaskPoolMonitor {
  import opened Options
  import opened TaskPools
  import opened TaskPoolSafety

  class TaskPool {
    var queuedTasks: map<string, Queue>
    var genericTasks: seq<TaskId>
    var genericThread: Option<Tid>
    var genericTaskCount: int
    var queuedTaskCount: int
    var isStarted: bool
    var isStopping: bool
    const maxThreads: int
    const minThreads: int
    var curThreads: int
    var idleThreads: int
    var nextTid: Tid
    var nextNode: nat
    var accepted: nat         // names the next task
    ghost var model: Pool

    constructor (maxThreads: int, minThreads: int)
      ensures model == New(maxThreads, minThreads) && Valid()
    {
      this.maxThreads, this.minThreads := maxThreads, minThreads;
      queuedTasks, genericTasks, genericThread, genericTaskCount, queuedTaskCount := map[], [], None, 0, 0;
      isStarted, isStopping, curThreads, idleThreads, nextTid, nextNode, accepted := false, false, 0, 0, 0, 0, 0;
      model := New(maxThreads, minThreads);
      new;
      NewIsInv(maxThreads, minThreads);
    }

    /** The fields hold what the model says. */
    ghost predicate Agrees()
      reads this
    {
      && queuedTasks == model.queues && genericTasks == model.generic && genericThread == model.genericThread
      && genericTaskCount == model.genericTaskCount && queuedTaskCount == model.queuedTaskCount
      && isStarted == model.isStarted && isStopping == model.isStopping
      && maxThreads == model.maxThreads && minThreads == model.minThreads
      && curThreads == model.curThreads && idleThreads == model.idleThreads
      && nextTid == model.nextTid && nextNode == model.nextNode && accepted == |model.log|
    }

    ghost predicate Valid()
      reads this
    {
      Agrees() && Inv(model)
    }

    method SpawnThreads(isStart: bool)
      requires Agrees()
      modifies this
      ensures Agrees() && model == TaskPools.SpawnThreads(old(model), isStart)
    {
      if !isStarted || curThreads >= maxThreads { return; }
      var limits := if isStart then minThreads else curThreads + 1;
      while curThreads < limits
        invariant Agrees() && SpawnUpTo(model, limits) == SpawnUpTo(old(model), limits)
        decreases limits - curThreads
      {
        curThreads, nextTid := curThreads + 1, nextTid + 1;
        model := Spawn(model);
      }
    }

    method TryToSpawnThreads()
      requires Agrees()
      modifies this
      ensures Agrees() && model == TaskPools.TryToSpawnThreads(old(model))
    {
      if curThreads >= maxThreads || curThreads >= queuedTaskCount + genericTaskCount { return; }
      SpawnThreads(false);
    }

    method Start() returns (ok: bool)
      requires Valid()
      modifies this
      ensures Valid() && model == TaskPools.Start(old(model)) && ok == GoodLimits(model)
    {
      hide Inv;
      StartKeeps(model);
      if maxThreads < minThreads || maxThreads <= 0 || minThreads < 0 { return false; }
      isStarted, isStopping := true, false;
      model := Begun(model);
      SpawnThreads(true);
      ok := true;
    }

    /** PutTask into the right queue, and its counter. */
    method Enqueue(kind: Kind)
      requires Agrees()
      modifies this
      ensures Agrees() && model == Queued(old(model), kind)
    {
      if kind == Generic {
        genericTasks := genericTasks + [accepted];
        genericTaskCount := genericTaskCount + 1;
      } else {
        EnqueueTagged(kind.tag);
      }
      accepted := accepted + 1;
      model := Queued(model, kind);
    }

    method EnqueueTagged(tag: string)
      modifies this`queuedTasks, this`nextNode, this`queuedTaskCount
      ensures queuedTaskCount == old(queuedTaskCount) + 1
      ensures nextNode == if tag in old(queuedTasks) then old(nextNode) else old(nextNode) + 1
      ensures queuedTasks == old(queuedTasks)[tag :=
        (if tag in old(queuedTasks) then old(queuedTasks)[tag] else Queue(old(nextNode), None, [])).PutTask(accepted)]
    {
      if tag !in queuedTasks {
        queuedTasks := queuedTasks[tag := Queue(nextNode, None, [])];
        nextNode := nextNode + 1;
      }
      queuedTasks := queuedTasks[tag := queuedTasks[tag].PutTask(accepted)];
      queuedTaskCount := queuedTaskCount + 1;
    }

    method Schedule(kind: Kind) returns (ok: bool)
      requires Valid()
      modifies this
      ensures Valid() && model == TaskPools.Schedule(old(model), kind)
      ensures ok <==> Accepts(old(model), if kind == Generic then old(genericTaskCount) else old(queuedTaskCount))
    {
      hide Inv, TaskPools.TryToSpawnThreads, TaskPools.Schedule, Queued;
      ScheduleKeeps(model, kind);
      ScheduleIsQueued(model, kind);
      ok := false;
      if !isStarted || isStopping { return; }
      if (if kind == Generic then genericTaskCount else queuedTaskCount) == INT_MAX { return; }
      Enqueue(kind);
      TryToSpawnThreads();
      ok := true;
    }

    method ShrinkMemory(tag: string)
      requires Valid()
      modifies this
      ensures Valid() && model == TaskPools.ShrinkMemory(old(model), tag)
    {
      hide Inv;
      ShrinkKeeps(model, tag);
      if tag in queuedTasks && queuedTasks[tag].IsEmptyAndUnlocked() {
        queuedTasks := queuedTasks - {tag};
      }
      model := TaskPools.ShrinkMemory(model, tag);
    }

    /** Stop up to its wait for the threads to exit. */
    method StopBegin()
      requires Valid()
      modifies this
      ensures Valid() && model == TaskPools.StopBegin(old(model))
    {
      hide Inv;
      StopBeginKeeps(model);
      if isStarted { isStopping := true; }
      model := TaskPools.StopBegin(model);
    }

    /** Stop after its wait. */
    method StopReturn()
      requires Valid() && CanStopReturn(model)
      modifies this
      ensures Valid() && model == TaskPools.StopReturn(old(model))
    {
      hide Inv;
      StopReturnKeeps(model);
      isStarted := false;
      model := TaskPools.StopReturn(model);
    }

    method BecomeGenericWorker(me: Tid)
      requires Valid() && At(model, me, Fresh)
      modifies this
      ensures Valid() && model == Become(old(model), me)
    {
      hide Inv;
      BecomeKeeps(model, me);
      if genericThread == None { genericThread := Some(me); }
      model := Become(model, me);
    }

    /** ReapTask: a generic task first; the generic worker of a larger pool takes nothing else; otherwise the first
        queue, in map order, that yields a task. */
    method ReapTask(me: Tid) returns (task: Option<TaskId>, queue: Option<Pointer>)
      requires Valid() && At(model, me, Ready)
      modifies this
      ensures Valid()
      ensures match (task, queue)
        case (Some(id), None) =>
          old(genericTasks) != [] && model == ReapGeneric(old(model), me) && At(model, me, Running(id, None))
        case (Some(id), Some(ptr)) =>
          && old(genericTasks) == [] && !OnlyGeneric(old(model), me)
          && Yields(old(model), me, ptr.tag) && model == ReapQueued(old(model), me, ptr.tag)
          && At(model, me, Running(id, Some(ptr)))
        case (None, _) =>
          && model == old(model) && genericTasks == []
          && (OnlyGeneric(model, me) || forall tag :: !Yields(model, me, tag))
    {
      hide Inv;
      HoldsNoLock(model, me);
      if genericTasks != [] {
        ReapGenericKeeps(model, me);
        task, queue := Some(genericTasks[0]), None;
        genericTasks := genericTasks[1..];
        model := ReapGeneric(model, me);
        return;
      }
      task, queue := None, None;
      if genericThread == Some(me) && curThreads > 1 {
        SetThreadFree(me);
        return;
      }
      task, queue := ReapFromQueues(me);
      if task != None { ReapQueuedKeeps(old(model), me, queue.value.tag); }
    }

    /** The loop of ReapTask over the queues. */
    method ReapFromQueues(me: Tid) returns (task: Option<TaskId>, queue: Option<Pointer>)
      requires Agrees() && forall tag | tag in queuedTasks :: queuedTasks[tag].lockThread != Some(me)
      modifies this
      ensures Agrees()
      ensures match (task, queue)
        case (Some(id), Some(ptr)) =>
          && Yields(old(model), me, ptr.tag) && model == ReapQueued(old(model), me, ptr.tag)
          && At(model, me, Running(id, Some(ptr)))
        case (Some(_), None) => false
        case (None, _) => model == old(model) && forall tag :: !Yields(model, me, tag)
    {
      task, queue := None, None;
      var rest := queuedTasks.Keys;
      while rest != {}
        invariant Agrees() && model == old(model) && rest <= queuedTasks.Keys
        invariant forall tag | tag in queuedTasks && tag !in rest :: !Yields(model, me, tag)
        decreases rest
      {
        var tag :| tag in rest;
        rest := rest - {tag};
        var (q, got) := queuedTasks[tag].GetTaskAutoLock(me);
        queuedTasks := queuedTasks[tag := q];
        if got != None {
          task, queue := got, Some(Pointer(tag, q.node));
          model := ReapQueued(model, me, tag);
          return;
        }
      }
    }

    /** SetThreadFree releases every lock of this thread; a reaping worker holds none. */
    method SetThreadFree(me: Tid)
      requires Agrees() && forall tag | tag in queuedTasks :: queuedTasks[tag].lockThread != Some(me)
      modifies this`queuedTasks
      ensures Agrees()
    {
      var rest := queuedTasks.Keys;
      while rest != {}
        invariant Agrees() && rest <= queuedTasks.Keys
        decreases rest
      {
        var tag :| tag in rest;
        rest := rest - {tag};
        queuedTasks := queuedTasks[tag := queuedTasks[tag].ReleaseLock(me)];
      }
    }

    /** IdleExit up to its wait; `stop` when the worker leaves at once. */
    method IdleExit(me: Tid) returns (stop: bool)
      requires Valid() && At(model, me, Ready) && genericTasks == []
      requires OnlyGeneric(model, me) || forall tag :: !Yields(model, me, tag)
      modifies this
      ensures Valid() && model == GoIdle(old(model), me) && (stop <==> At(model, me, Leaving))
    {
      hide Inv;
      IdleKeeps(model, me);
      stop := isStopping;
      if !isStopping { idleThreads := idleThreads + 1; }
      model := GoIdle(model, me);
    }

    /** IdleExit after its wait; `timed` tells which wait it was, `timeout` how that wait ended. */
    method ResumeFromWait(me: Tid, timed: bool, timeout: bool) returns (stop: bool)
      requires Valid() && At(model, me, Waiting(timed))
      modifies this
      ensures Valid() && model == Wake(old(model), me, timeout) && (stop <==> At(model, me, Leaving))
    {
      hide Inv;
      WakeKeeps(model, me, timeout);
      stop := timed && timeout && genericTaskCount <= 0;
      idleThreads := idleThreads - 1;
      model := Wake(model, me, timeout);
    }

    method FinishExecuteTask(me: Tid, queue: Option<Pointer>)
      requires Valid() && me in model.workers && model.workers[me].Running? && model.workers[me].queue == queue
      modifies this
      ensures Valid() && CanFinish(old(model), me) && model == TaskPools.FinishExecuteTask(old(model), me)
    {
      hide Inv;
      RunningQueueIsThere(model, me);
      FinishKeeps(model, me);
      if queue.Some? {
        var tag := queue.value.tag;
        queuedTasks := queuedTasks[tag := queuedTasks[tag].ReleaseLock(me)];
        queuedTaskCount := queuedTaskCount - 1;
      } else {
        genericTaskCount := genericTaskCount - 1;
      }
      model := TaskPools.FinishExecuteTask(model, me);
    }

    method ExitGenericWorker(me: Tid)
      requires Valid() && At(model, me, Leaving)
      modifies this
      ensures Valid() && model == TaskPools.ExitGenericWorker(old(model), me)
    {
      hide Inv;
      ExitKeeps(model, me);
      if genericThread == Some(me) { genericThread := None; }
      curThreads := curThreads - 1;
      model := TaskPools.ExitGenericWorker(model, me);
    }
  }

  lemma ScheduleIsQueued(p: Pool, kind: Kind)
    ensures Schedule(p, kind) ==
      if Accepts(p, if kind == Generic then p.genericTaskCount else p.queuedTaskCount)
      then TryToSpawnThreads(Queued(p, kind)) else p
  {
  }

  lemma RunningQueueIsThere(p: Pool, me: Tid)
    requires Inv(p) && me in p.workers && p.workers[me].Running?
    ensures CanFinish(p, me)
  {
    hide Ordered, Counted, Led, Single;
    assert RunsWell(p, me);
  }

  lemma HoldsNoLock(p: Pool, me: Tid)
    requires Inv(p) && At(p, me, Ready)
    ensures forall tag | tag in p.queues :: p.queues[tag].lockThread != Some(me)
  {
    hide Ordered, Counted, Led, Single;
    forall tag | tag in p.queues ensures p.queues[tag].lockThread != Some(me) { assert Owned(p, tag); }
  }
}
