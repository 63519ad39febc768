/** What every reachable state of the task pool keeps. */
module TaskPoolSafety {
  import opened Options
  import opened TaskPools

  // ---------------------------------------------------------------- waiting and started tasks

  /** The queued tasks of one kind: known, of that kind, in scheduling order. */
  ghost predicate Lined(p: Pool, kind: Kind, tasks: seq<TaskId>) {
    && (forall i | 0 <= i < |tasks| :: tasks[i] < |p.log| && p.log[tasks[i]] == kind)
    && (forall i, j | 0 <= i < j < |tasks| :: tasks[i] < tasks[j])
  }

  function WaitingOf(p: Pool, kind: Kind): seq<TaskId> {
    match kind
    case Generic => p.generic
    case Tagged(tag) => if tag in p.queues then p.queues[tag].tasks else []
  }

  ghost predicate Ordered(p: Pool) {
    && (forall kind :: Lined(p, kind, WaitingOf(p, kind)))
    && (forall i | 0 <= i < |p.started| :: p.started[i] < |p.log|)
    // a task starts at most once, and tasks of one kind start in scheduling order
    && (forall i, j | 0 <= i < j < |p.started| :: p.started[i] != p.started[j])
    && (forall i, j | 0 <= i < j < |p.started| && p.log[p.started[i]] == p.log[p.started[j]] ::
          p.started[i] < p.started[j])
    // whatever waits comes after whatever has started
    && (forall s, w | s in p.started && 0 <= w < |p.log| && w in WaitingOf(p, p.log[w]) && p.log[s] == p.log[w] :: s < w)
    // no accepted task is lost
    && (forall id | 0 <= id < |p.log| :: id in p.started || id in WaitingOf(p, p.log[id]))
  }

  // ---------------------------------------------------------------- running tasks and locks

  ghost predicate RunsWell(p: Pool, t: Tid)
    requires t in p.workers && p.workers[t].Running?
  {
    var w := p.workers[t];
    && w.task in p.started && w.task !in p.finished && w.task < |p.log|
    && match w.queue
       case None => p.log[w.task] == Generic
       case Some(ptr) =>
         && p.log[w.task] == Tagged(ptr.tag)
         && ptr.tag in p.queues && p.queues[ptr.tag].node == ptr.node && p.queues[ptr.tag].lockThread == Some(t)
  }

  ghost predicate Owned(p: Pool, tag: string)
    requires tag in p.queues
  {
    match p.queues[tag].lockThread
    case None => true
    case Some(t) => t in p.workers && p.workers[t].Running? && p.workers[t].queue == Some(Pointer(tag, p.queues[tag].node))
  }

  ghost predicate RunBy(p: Pool, t: Tid, id: TaskId) { t in p.workers && p.workers[t].Running? && p.workers[t].task == id }

  ghost predicate Locked(p: Pool) {
    && (forall t | t in p.workers && p.workers[t].Running? :: RunsWell(p, t))
    && (forall tag | tag in p.queues :: Owned(p, tag))
    && (forall t, u, id | RunBy(p, t, id) && RunBy(p, u, id) :: t == u)
    && (forall id | id in p.started :: id in p.finished || exists t :: RunBy(p, t, id))
    && (forall id | id in p.finished :: id in p.started)
  }

  // ---------------------------------------------------------------- counters

  /** The accepted tasks of a sort that have not finished. */
  ghost function Pending(p: Pool, tagged: bool): set<TaskId> {
    set id: TaskId | 0 <= id < |p.log| && p.log[id].Tagged? == tagged && id !in p.finished
  }

  ghost function Idlers(p: Pool): set<Tid> { set t | t in p.workers && p.workers[t].Waiting? }

  ghost predicate Counted(p: Pool) {
    && p.queuedTaskCount == |Pending(p, true)| && p.genericTaskCount == |Pending(p, false)|
    && p.curThreads == |p.workers| && p.idleThreads == |Idlers(p)|
    && (forall t | t in p.workers :: t < p.nextTid)
    && (p.curThreads == 0 || (p.curThreads <= p.maxThreads && GoodLimits(p)))
    && (p.isStarted ==> GoodLimits(p))
    && (!p.isStarted ==> p.curThreads == 0)
  }

  // ---------------------------------------------------------------- the generic worker

  ghost predicate Led(p: Pool) {
    && (p.genericThread.Some? ==>
          && p.genericThread.value in p.workers
          && p.workers[p.genericThread.value] != Fresh && p.workers[p.genericThread.value] != Waiting(true))
    && (!p.overlapped ==>
          && (p.isStarted && p.isStopping ==> p.stopsWaiting > 0)
          && (!p.isStopping ==>
                && p.stopsWaiting == 0
                && (forall t | t in p.workers && p.workers[t] != Fresh ::
                      p.genericThread.Some? && p.workers[p.genericThread.value] != Leaving))
          && (p.isStarted && !p.isStopping && p.minThreads >= 1 ==> p.curThreads >= 1))
  }

  /** With a single thread, a worker leaves only when nothing is left to do. */
  ghost predicate Single(p: Pool) {
    p.maxThreads == 1 && !p.overlapped ==>
      && (forall t | t in p.workers :: p.workers[t] != Waiting(true))
      && (forall t | t in p.workers && p.workers[t] == Leaving :: p.isStopping && p.queuedTaskCount + p.genericTaskCount == 0)
      && (p.curThreads == 0 ==> p.queuedTaskCount + p.genericTaskCount == 0)
  }

  ghost predicate Inv(p: Pool) { Ordered(p) && Locked(p) && Counted(p) && Led(p) && Single(p) }

  // ---------------------------------------------------------------- each step

  lemma NewIsInv(maxThreads: int, minThreads: int)
    ensures Inv(New(maxThreads, minThreads))
  {
  }

  /** Ordered depends only on the waiting tasks and the history. */
  lemma OrderedFrame(p: Pool, q: Pool)
    requires Ordered(p) && q.log == p.log && q.started == p.started
    requires forall kind :: WaitingOf(q, kind) == WaitingOf(p, kind)
    ensures Ordered(q)
  {
    forall kind ensures Lined(q, kind, WaitingOf(q, kind)) { assert Lined(p, kind, WaitingOf(p, kind)); }
  }

  ghost predicate SameRunning(p: Pool, q: Pool) {
    forall t :: (t in q.workers && q.workers[t].Running?) == (t in p.workers && p.workers[t].Running?)
                && (t in p.workers && p.workers[t].Running? ==> q.workers[t] == p.workers[t])
  }

  ghost predicate SameLocks(p: Pool, q: Pool) {
    && (forall tag | tag in q.queues :: if tag in p.queues
          then q.queues[tag].node == p.queues[tag].node && q.queues[tag].lockThread == p.queues[tag].lockThread
          else q.queues[tag].lockThread == None)
    && (forall tag | tag in p.queues && tag !in q.queues :: p.queues[tag].lockThread == None)
  }

  /** Locked depends only on the running workers, the locks and the history. */
  lemma LockedFrame(p: Pool, q: Pool)
    requires Locked(p) && p.log <= q.log && q.started == p.started && q.finished == p.finished
    requires SameRunning(p, q) && SameLocks(p, q)
    ensures Locked(q)
  {
    forall t | t in q.workers && q.workers[t].Running? ensures RunsWell(q, t) { assert RunsWell(p, t); }
    forall tag | tag in q.queues ensures Owned(q, tag) { if tag in p.queues { assert Owned(p, tag); } }
    forall t, u, id | RunBy(q, t, id) && RunBy(q, u, id) ensures t == u {
      assert RunBy(p, t, id) && RunBy(p, u, id);
    }
    forall id | id in q.started ensures id in q.finished || exists t :: RunBy(q, t, id) {
      if id !in p.finished { var t :| RunBy(p, t, id); assert RunBy(q, t, id); }
    }
  }

  // Spawning

  ghost predicate Manned(p: Pool) {
    && p.curThreads == |p.workers| && p.idleThreads == |Idlers(p)| && (forall t | t in p.workers :: t < p.nextTid)
  }

  /** `q` is `p` with some new threads that have not run yet. */
  ghost predicate Spawned(p: Pool, q: Pool) {
    && q == p.(curThreads := q.curThreads, workers := q.workers, nextTid := q.nextTid)
    && p.curThreads <= q.curThreads && Manned(q)
    && (forall t | t in p.workers :: t in q.workers && q.workers[t] == p.workers[t])
    && (forall t | t in q.workers && t !in p.workers :: q.workers[t] == Fresh)
  }

  lemma {:induction false} SpawnUpToSpawns(p: Pool, limit: int)
    requires Manned(p)
    ensures Spawned(p, SpawnUpTo(p, limit))
    ensures SpawnUpTo(p, limit).curThreads == if p.curThreads < limit then limit else p.curThreads
    decreases limit - p.curThreads
  {
    if p.curThreads < limit {
      var q := Spawn(p);
      assert q.workers.Keys == p.workers.Keys + {p.nextTid};
      assert Idlers(q) == Idlers(p);
      SpawnUpToSpawns(q, limit);
    }
  }

  lemma TryToSpawnSpawns(p: Pool)
    requires Manned(p)
    ensures Spawned(p, TryToSpawnThreads(p))
    ensures TryToSpawnThreads(p).curThreads ==
      if p.isStarted && p.curThreads < p.maxThreads && p.curThreads < p.queuedTaskCount + p.genericTaskCount
      then p.curThreads + 1 else p.curThreads
  {
    SpawnUpToSpawns(p, p.curThreads + 1);
  }

  lemma SpawnedKeeps(p: Pool, q: Pool)
    requires Ordered(p) && Locked(p) && Spawned(p, q)
    ensures Ordered(q) && Locked(q)
  {
    OrderedFrame(p, q);
    LockedFrame(p, q);
  }

  function Begun(p: Pool): Pool {
    p.(isStarted := true, isStopping := false, overlapped := p.overlapped || p.stopsWaiting > 0)
  }

  lemma StartSpawns(p: Pool)
    requires Manned(p) && GoodLimits(p)
    ensures Spawned(Begun(p), Start(p))
    ensures Start(p).curThreads == if p.curThreads < p.minThreads then p.minThreads else p.curThreads
  {
    assert Idlers(Begun(p)) == Idlers(p);
    SpawnUpToSpawns(Begun(p), p.minThreads);
  }

  lemma StartCounts(p: Pool, q: Pool)
    requires Counted(p) && Led(p) && Single(p) && GoodLimits(p) && Spawned(Begun(p), q)
    requires q.curThreads == if p.curThreads < p.minThreads then p.minThreads else p.curThreads
    ensures Counted(q) && Led(q) && Single(q)
  {
    SameHistory(p, q);
  }

  lemma StartKeeps(p: Pool)
    requires Inv(p)
    ensures Inv(Start(p))
  {
    hide Ordered, Locked, Start, Led, Single;
    if GoodLimits(p) {
      OrderedFrame(p, Begun(p));
      LockedFrame(p, Begun(p));
      StartSpawns(p);
      SpawnedKeeps(Begun(p), Start(p));
      StartCounts(p, Start(p));
    } else {
      NoStart(p);
    }
  }

  lemma NoStart(p: Pool)
    requires !GoodLimits(p)
    ensures Start(p) == p
  {
  }

  // Clients

  lemma StopBeginKeeps(p: Pool)
    requires Inv(p)
    ensures Inv(StopBegin(p))
  {
    hide Ordered, Locked;
    var q := StopBegin(p);
    OrderedFrame(p, q);
    LockedFrame(p, q);
    SameHistory(p, q);
  }

  lemma StopReturnKeeps(p: Pool)
    requires Inv(p) && CanStopReturn(p)
    ensures Inv(StopReturn(p))
  {
    hide Ordered, Locked;
    var q := StopReturn(p);
    OrderedFrame(p, q);
    LockedFrame(p, q);
    SameHistory(p, q);
  }

  lemma SameHistory(p: Pool, q: Pool)
    requires q.log == p.log && q.finished == p.finished
    ensures Pending(q, true) == Pending(p, true) && Pending(q, false) == Pending(p, false)
    ensures q.workers == p.workers ==> Idlers(q) == Idlers(p)
  {
  }

  lemma ShrinkKeeps(p: Pool, tag: string)
    requires Inv(p)
    ensures Inv(ShrinkMemory(p, tag))
  {
    hide Ordered, Locked;
    var q := ShrinkMemory(p, tag);
    if !(tag in p.queues && p.queues[tag].IsEmptyAndUnlocked()) { return; }
    forall kind ensures WaitingOf(q, kind) == WaitingOf(p, kind) {}
    OrderedFrame(p, q);
    LockedFrame(p, q);
    SameHistory(p, q);
  }

  /** The state after a task was queued and counted, before threads are spawned for it. */
  function Queued(p: Pool, kind: Kind): Pool {
    var id := |p.log|;
    match kind
    case Generic =>
      p.(generic := p.generic + [id], genericTaskCount := p.genericTaskCount + 1, log := p.log + [kind])
    case Tagged(tag) =>
      var q := if tag in p.queues then p.queues[tag] else Queue(p.nextNode, None, []);
      p.(queues := p.queues[tag := q.PutTask(id)],
         nextNode := if tag in p.queues then p.nextNode else p.nextNode + 1,
         queuedTaskCount := p.queuedTaskCount + 1, log := p.log + [kind])
  }

  lemma QueuedWaits(p: Pool, kind: Kind)
    ensures WaitingOf(Queued(p, kind), kind) == WaitingOf(p, kind) + [|p.log|]
    ensures forall k | k != kind :: WaitingOf(Queued(p, kind), k) == WaitingOf(p, k)
    ensures Queued(p, kind).started == p.started && Queued(p, kind).log == p.log + [kind]
  {
  }

  lemma QueuedOrdered(p: Pool, kind: Kind)
    requires Ordered(p)
    ensures Ordered(Queued(p, kind))
  {
    var q := Queued(p, kind);
    QueuedWaits(p, kind);
    hide Queued, WaitingOf;
    forall k ensures Lined(q, k, WaitingOf(q, k)) { assert Lined(p, k, WaitingOf(p, k)); }
    forall w | 0 <= w < |q.log| ensures w in q.started || w in WaitingOf(q, q.log[w]) {
      if w < |p.log| {
        assert q.log[w] == p.log[w] && (w in p.started || w in WaitingOf(p, p.log[w]));
      } else {
        assert WaitingOf(q, kind)[|WaitingOf(p, kind)|] == w;
      }
    }
    forall s, w | s in q.started && 0 <= w < |q.log| && w in WaitingOf(q, q.log[w]) && q.log[s] == q.log[w]
      ensures s < w
    {
      if w < |p.log| { assert q.log[w] == p.log[w] && w in WaitingOf(p, p.log[w]) && q.log[s] == p.log[s]; }
    }
  }

  lemma QueuedPending(p: Pool, kind: Kind)
    requires forall id | id in p.finished :: id < |p.log|
    ensures Pending(Queued(p, kind), kind.Tagged?) == Pending(p, kind.Tagged?) + {|p.log|}
    ensures Pending(Queued(p, kind), !kind.Tagged?) == Pending(p, !kind.Tagged?)
    ensures |p.log| !in Pending(p, kind.Tagged?)
  {
    var q := Queued(p, kind);
    assert q.log == p.log + [kind] && q.finished == p.finished;
    hide Queued;
  }

  lemma QueuedSizes(p: Pool, kind: Kind)
    requires forall id | id in p.finished :: id < |p.log|
    ensures |Pending(Queued(p, kind), true)| == |Pending(p, true)| + (if kind.Tagged? then 1 else 0)
    ensures |Pending(Queued(p, kind), false)| == |Pending(p, false)| + (if kind.Tagged? then 0 else 1)
    ensures |Idlers(Queued(p, kind))| == |Idlers(p)|
  {
    QueuedPending(p, kind);
    assert Idlers(Queued(p, kind)) == Idlers(p);
    hide Pending, Queued, Idlers;
  }

  lemma QueuedCounted(p: Pool, kind: Kind)
    requires Counted(p)
    requires forall id | id in p.finished :: id < |p.log|
    ensures Counted(Queued(p, kind))
  {
    hide Pending, Idlers;
    QueuedSizes(p, kind);
  }

  lemma FinishedIsLogged(p: Pool)
    requires Ordered(p) && Locked(p)
    ensures forall id | id in p.finished :: id < |p.log|
  {
  }

  lemma ScheduleKeeps(p: Pool, kind: Kind)
    requires Inv(p)
    ensures Inv(Schedule(p, kind))
  {
    if Accepts(p, if kind.Tagged? then p.queuedTaskCount else p.genericTaskCount) {
      var p1 := Queued(p, kind);
      FinishedIsLogged(p);
      QueuedOrdered(p, kind);
      LockedFrame(p, p1);
      QueuedCounted(p, kind);
      TryToSpawnSpawns(p1);
      SpawnedKeeps(p1, Schedule(p, kind));
      ScheduleCounts(p, kind);
    }
  }

  lemma ScheduleCounts(p: Pool, kind: Kind)
    requires Counted(p) && Led(p) && Single(p) && Counted(Queued(p, kind))
    requires Accepts(p, if kind.Tagged? then p.queuedTaskCount else p.genericTaskCount)
    requires Spawned(Queued(p, kind), Schedule(p, kind))
    requires Schedule(p, kind).curThreads == TryToSpawnThreads(Queued(p, kind)).curThreads
    ensures Counted(Schedule(p, kind)) && Led(Schedule(p, kind)) && Single(Schedule(p, kind))
  {
    TryToSpawnSpawns(Queued(p, kind));
    SameHistory(Queued(p, kind), Schedule(p, kind));
  }

  // Workers

  /** Changing one worker between states that are not Running. */
  lemma OffDutyStep(p: Pool, q: Pool, t: Tid)
    requires Ordered(p) && Locked(p)
    requires q.log == p.log && q.started == p.started && q.finished == p.finished
    requires q.queues == p.queues && q.generic == p.generic
    requires t in p.workers && !p.workers[t].Running?
    requires q.workers == p.workers - {t} || (t in q.workers && !q.workers[t].Running? && q.workers == p.workers[t := q.workers[t]])
    ensures Ordered(q) && Locked(q)
  {
    OrderedFrame(p, q);
    LockedFrame(p, q);
  }

  lemma IdlersStep(p: Pool, q: Pool, t: Tid)
    requires t in p.workers
    requires q.workers == p.workers - {t} || (t in q.workers && q.workers == p.workers[t := q.workers[t]])
    ensures Idlers(q) == (Idlers(p) - {t}) + (if t in q.workers && q.workers[t].Waiting? then {t} else {})
    ensures q.workers.Keys == if t in q.workers then p.workers.Keys else p.workers.Keys - {t}
  {
  }

  lemma WorkerSizes(p: Pool, q: Pool, t: Tid)
    requires t in p.workers
    requires q.workers == p.workers - {t} || (t in q.workers && q.workers == p.workers[t := q.workers[t]])
    ensures |Idlers(q)| == |Idlers(p)| - (if p.workers[t].Waiting? then 1 else 0)
                           + (if t in q.workers && q.workers[t].Waiting? then 1 else 0)
    ensures |q.workers| == |p.workers| - (if t in q.workers then 0 else 1)
  {
    IdlersStep(p, q, t);
    assert t in Idlers(p) <==> p.workers[t].Waiting?;
    hide Idlers;
    assert |p.workers| == |p.workers.Keys| && |q.workers| == |q.workers.Keys|;
  }

  /** A step of one worker that neither takes nor finishes a task. */
  lemma CountsStep(p: Pool, q: Pool, t: Tid)
    requires Counted(p) && t in p.workers && q.log == p.log && q.finished == p.finished
    requires q == p.(workers := q.workers, curThreads := q.curThreads, idleThreads := q.idleThreads,
                     genericThread := q.genericThread)
    requires q.workers == p.workers - {t} || (t in q.workers && q.workers == p.workers[t := q.workers[t]])
    requires q.curThreads == p.curThreads - (if t in q.workers then 0 else 1)
    requires q.idleThreads == p.idleThreads - (if p.workers[t].Waiting? then 1 else 0)
                              + (if t in q.workers && q.workers[t].Waiting? then 1 else 0)
    ensures Counted(q)
  {
    hide Idlers, Pending;
    WorkerSizes(p, q, t);
    SameHistory(p, q);
  }

  lemma BecomeKeeps(p: Pool, t: Tid)
    requires Inv(p) && At(p, t, Fresh)
    ensures Inv(Become(p, t))
  {
    hide Ordered, Locked, Pending, Idlers;
    OffDutyStep(p, Become(p, t), t);
    CountsStep(p, Become(p, t), t);
  }

  lemma WakeKeeps(p: Pool, t: Tid, timeout: bool)
    requires Inv(p) && t in p.workers && p.workers[t].Waiting?
    ensures Inv(Wake(p, t, timeout))
  {
    hide Ordered, Locked, Pending, Idlers;
    OffDutyStep(p, Wake(p, t, timeout), t);
    CountsStep(p, Wake(p, t, timeout), t);
  }

  lemma ExitKeeps(p: Pool, t: Tid)
    requires Inv(p) && At(p, t, Leaving)
    ensures Inv(ExitGenericWorker(p, t))
  {
    hide Ordered, Locked, Pending, Idlers;
    var q := ExitGenericWorker(p, t);
    OffDutyStep(p, q, t);
    CountsStep(p, q, t);
    ExitLed(p, t);
  }

  /** Before Stop the generic worker is not the one that leaves, so the pool does not run empty. */
  lemma ExitLed(p: Pool, t: Tid)
    requires Counted(p) && Led(p) && At(p, t, Leaving)
    ensures Led(ExitGenericWorker(p, t))
  {
    hide Pending, Idlers;
    var q := ExitGenericWorker(p, t);
    if !p.overlapped && !p.isStopping {
      assert p.genericThread.Some? && p.genericThread.value in q.workers;
      assert q.workers.Keys != {};
      assert |q.workers.Keys| == |p.workers.Keys - {t}|;
    }
  }

  // Taking and finishing tasks

  lemma TakeOrdered(p: Pool, q: Pool, kind: Kind)
    requires Ordered(p) && q.log == p.log && WaitingOf(p, kind) != []
    requires WaitingOf(q, kind) == WaitingOf(p, kind)[1..] && q.started == p.started + [WaitingOf(p, kind)[0]]
    requires forall k | k != kind :: WaitingOf(q, k) == WaitingOf(p, k)
    ensures Ordered(q)
  {
    hide WaitingOf;
    var id := WaitingOf(p, kind)[0];
    assert Lined(p, kind, WaitingOf(p, kind));
    assert id in WaitingOf(p, kind) && p.log[id] == kind;
    assert id !in p.started;
    forall k ensures Lined(q, k, WaitingOf(q, k)) { TakeLined(p, q, kind, k); }
    forall w | 0 <= w < |q.log| ensures w in q.started || w in WaitingOf(q, q.log[w]) {
      assert w in p.started || w in WaitingOf(p, p.log[w]);
      TailOrHead(WaitingOf(p, kind), w);
    }
    hide Lined;
    forall s, w | s in q.started && 0 <= w < |q.log| && w in WaitingOf(q, q.log[w]) && q.log[s] == q.log[w]
      ensures s < w
    {
      if q.log[w] == kind { TailOrHead(WaitingOf(p, kind), w); }
      assert w in WaitingOf(p, p.log[w]);
      if s == id { FirstIsLeast(p, kind, WaitingOf(p, kind), w); }
    }
  }

  lemma TakeLined(p: Pool, q: Pool, kind: Kind, k: Kind)
    requires Lined(p, k, WaitingOf(p, k)) && q.log == p.log
    requires k != kind ==> WaitingOf(q, k) == WaitingOf(p, k)
    requires k == kind ==> WaitingOf(p, k) != [] && WaitingOf(q, k) == WaitingOf(p, k)[1..]
    ensures Lined(q, k, WaitingOf(q, k))
  {
    hide WaitingOf;
  }

  lemma FirstIsLeast(p: Pool, kind: Kind, tasks: seq<TaskId>, w: TaskId)
    requires Lined(p, kind, tasks) && tasks != [] && w in tasks[1..]
    ensures tasks[0] < w
  {
    var i :| 0 <= i < |tasks[1..]| && tasks[1..][i] == w;
  }

  lemma TailOrHead(s: seq<TaskId>, w: TaskId)
    requires s != []
    ensures w in s <==> w == s[0] || w in s[1..]
  {
  }

  lemma TakeLocked(p: Pool, q: Pool, t: Tid, id: TaskId)
    requires Ordered(p) && Locked(p) && At(p, t, Ready) && id < |p.log| && id !in p.started
    requires q.log == p.log && q.finished == p.finished && q.started == p.started + [id]
    requires t in q.workers && q.workers[t].Running? && q.workers[t].task == id && q.workers == p.workers[t := q.workers[t]]
    requires match p.log[id]
      case Generic => q.workers[t].queue == None && q.queues == p.queues
      case Tagged(tag) =>
        && tag in p.queues && p.queues[tag].lockThread == None
        && tag in q.queues && q.queues[tag].node == p.queues[tag].node && q.queues[tag].lockThread == Some(t)
        && q.queues == p.queues[tag := q.queues[tag]] && q.workers[t].queue == Some(Pointer(tag, q.queues[tag].node))
    ensures Locked(q)
  {
    forall u | u in q.workers && q.workers[u].Running? ensures RunsWell(q, u) {
      if u != t { assert RunsWell(p, u); }
    }
    forall tag | tag in q.queues ensures Owned(q, tag) {
      if q.queues[tag] == p.queues[tag] { assert Owned(p, tag); }
    }
    forall u, v, i | RunBy(q, u, i) && RunBy(q, v, i) ensures u == v {
      if u != t { assert RunsWell(p, u) && RunBy(p, u, i); }
      if v != t { assert RunsWell(p, v) && RunBy(p, v, i); }
    }
    forall i | i in q.started ensures i in q.finished || exists u :: RunBy(q, u, i) {
      if i == id {
        assert RunBy(q, t, i);
      } else if i !in p.finished {
        var u :| RunBy(p, u, i);
        assert RunBy(q, u, i);
      }
    }
  }

  lemma FinishFacts(p: Pool, t: Tid)
    requires t in p.workers && p.workers[t].Running? && RunsWell(p, t)
    ensures var q, w := FinishExecuteTask(p, t), p.workers[t];
      && q.workers == p.workers[t := Ready] && q.finished == p.finished + {w.task}
      && q.log == p.log && q.started == p.started && q.generic == p.generic && q.queues.Keys == p.queues.Keys
      && (forall tag | tag in q.queues :: q.queues[tag] == p.queues[tag].(lockThread :=
            if w.queue.Some? && w.queue.value.tag == tag then None else p.queues[tag].lockThread))
  {
  }

  lemma FinishLocked(p: Pool, t: Tid)
    requires Locked(p) && t in p.workers && p.workers[t].Running? && RunsWell(p, t)
    ensures Locked(FinishExecuteTask(p, t))
  {
    var q := FinishExecuteTask(p, t);
    FinishFacts(p, t);
    hide FinishExecuteTask;
    var w := p.workers[t];
    forall u | u in q.workers && q.workers[u].Running? ensures RunsWell(q, u) {
      assert RunsWell(p, u) && RunBy(p, u, p.workers[u].task) && RunBy(p, t, w.task);
    }
    forall tag | tag in q.queues ensures Owned(q, tag) { assert Owned(p, tag); }
    forall u, v, i | RunBy(q, u, i) && RunBy(q, v, i) ensures u == v { assert RunBy(p, u, i) && RunBy(p, v, i); }
    forall i | i in q.started ensures i in q.finished || exists u :: RunBy(q, u, i) {
      if i !in q.finished {
        var u :| RunBy(p, u, i);
        assert RunBy(q, u, i);
      }
    }
  }

  lemma FinishPending(p: Pool, t: Tid)
    requires t in p.workers && p.workers[t].Running? && RunsWell(p, t)
    ensures var q, id := FinishExecuteTask(p, t), p.workers[t].task;
      && Pending(q, true) == Pending(p, true) - {id} && Pending(q, false) == Pending(p, false) - {id}
      && id in Pending(p, p.log[id].Tagged?) && id !in Pending(p, !p.log[id].Tagged?)
  {
    var q := FinishExecuteTask(p, t);
    assert q.log == p.log && q.finished == p.finished + {p.workers[t].task};
    hide FinishExecuteTask;
  }

  lemma FinishCounters(p: Pool, t: Tid)
    requires t in p.workers && p.workers[t].Running? && RunsWell(p, t)
    ensures var q, tagged := FinishExecuteTask(p, t), p.log[p.workers[t].task].Tagged?;
      && q == p.(workers := p.workers[t := Ready], queues := q.queues, finished := q.finished,
                 queuedTaskCount := p.queuedTaskCount - (if tagged then 1 else 0),
                 genericTaskCount := p.genericTaskCount - (if tagged then 0 else 1))
  {
  }

  lemma FinishCounted(p: Pool, t: Tid)
    requires Counted(p) && t in p.workers && p.workers[t].Running? && RunsWell(p, t)
    ensures Counted(FinishExecuteTask(p, t))
  {
    hide Pending, FinishExecuteTask;
    FinishPending(p, t);
    FinishCounters(p, t);
    IdlersStep(p, FinishExecuteTask(p, t), t);
    assert FinishExecuteTask(p, t).workers.Keys == p.workers.Keys;
  }

  /** With one thread there is one worker. */
  lemma OnlyWorker(p: Pool, t: Tid, u: Tid)
    requires Counted(p) && p.maxThreads == 1 && t in p.workers && u in p.workers
    ensures t == u
  {
    hide Pending, Idlers;
    assert |p.workers.Keys| <= 1;
    if t != u { assert {t, u} <= p.workers.Keys; SubsetSize({t, u}, p.workers.Keys); }
  }

  lemma {:induction false} SubsetSize<T>(a: set<T>, b: set<T>)
    requires a <= b
    ensures |a| <= |b|
  {
    if a != {} {
      var x :| x in a;
      SubsetSize(a - {x}, b - {x});
    }
  }

  lemma FinishKeeps(p: Pool, t: Tid)
    requires Inv(p) && t in p.workers && p.workers[t].Running?
    ensures RunsWell(p, t) && Inv(FinishExecuteTask(p, t))
  {
    assert RunsWell(p, t);
    var q := FinishExecuteTask(p, t);
    FinishFacts(p, t);
    hide Ordered, Locked, Counted, Led, Single, RunsWell, FinishExecuteTask;
    forall kind ensures WaitingOf(q, kind) == WaitingOf(p, kind) {}
    OrderedFrame(p, q);
    FinishLocked(p, t);
    FinishCounted(p, t);
    FinishLed(p, t);
  }

  lemma FinishLed(p: Pool, t: Tid)
    requires Counted(p) && Led(p) && Single(p) && t in p.workers && p.workers[t].Running? && RunsWell(p, t)
    ensures Led(FinishExecuteTask(p, t)) && Single(FinishExecuteTask(p, t))
  {
    hide Pending, Idlers;
    var q := FinishExecuteTask(p, t);
    if p.maxThreads == 1 && !p.overlapped {
      forall u | u in q.workers && q.workers[u] == Leaving ensures false { OnlyWorker(p, t, u); }
    }
  }

  lemma TakeRest(p: Pool, q: Pool, t: Tid)
    requires Counted(p) && Led(p) && Single(p) && At(p, t, Ready)
    requires q == p.(workers := q.workers, started := q.started, queues := q.queues, generic := q.generic)
    requires t in q.workers && q.workers[t].Running? && q.workers == p.workers[t := q.workers[t]]
    ensures Counted(q) && Led(q) && Single(q)
  {
    IdlersStep(p, q, t);
    SameHistory(p, q);
    assert q.workers.Keys == p.workers.Keys;
  }

  lemma ReapGenericKeeps(p: Pool, t: Tid)
    requires Inv(p) && At(p, t, Ready) && p.generic != []
    ensures Inv(ReapGeneric(p, t))
  {
    var q := ReapGeneric(p, t);
    assert Lined(p, Generic, WaitingOf(p, Generic));
    assert p.generic[0] in WaitingOf(p, Generic);
    assert p.generic[0] !in p.started;
    hide Ordered, Locked, Counted, Led, Single;
    TakeOrdered(p, q, Generic);
    TakeLocked(p, q, t, p.generic[0]);
    TakeRest(p, q, t);
  }

  lemma QueueHead(p: Pool, t: Tid, tag: string)
    requires Ordered(p) && Locked(p) && At(p, t, Ready) && Yields(p, t, tag)
    ensures var q := p.queues[tag];
      q.lockThread == None && q.tasks != [] && q.tasks[0] < |p.log| && p.log[q.tasks[0]] == Tagged(tag) && q.tasks[0] !in p.started
  {
    assert Owned(p, tag);
    assert Lined(p, Tagged(tag), WaitingOf(p, Tagged(tag)));
    assert p.queues[tag].tasks[0] in WaitingOf(p, Tagged(tag));
  }

  lemma ReapQueuedKeeps(p: Pool, t: Tid, tag: string)
    requires Inv(p) && At(p, t, Ready) && Yields(p, t, tag)
    ensures Inv(ReapQueued(p, t, tag))
  {
    hide Ordered, Locked, Counted, Led, Single;
    var q := ReapQueued(p, t, tag);
    QueueHead(p, t, tag);
    TakeOrdered(p, q, Tagged(tag));
    TakeLocked(p, q, t, p.queues[tag].tasks[0]);
    TakeRest(p, q, t);
  }

  /** A lone worker that finds nothing to reap has nothing left to do. */
  lemma NothingLeft(p: Pool, t: Tid)
    requires Inv(p) && p.maxThreads == 1 && At(p, t, Ready) && p.generic == [] && forall tag :: !Yields(p, t, tag)
    ensures p.queuedTaskCount == 0 && p.genericTaskCount == 0
  {
    forall id: TaskId | id < |p.log| && id !in p.finished ensures false {
      if id in p.started {
        var u :| RunBy(p, u, id);
        OnlyWorker(p, t, u);
      } else {
        assert id in WaitingOf(p, p.log[id]);
        var tag := p.log[id].tag;
        assert !Yields(p, t, tag);
        assert Owned(p, tag);
        OnlyWorker(p, t, p.queues[tag].lockThread.value);
      }
    }
    assert Pending(p, true) == {} && Pending(p, false) == {};
  }

  lemma IdleKeeps(p: Pool, t: Tid)
    requires Inv(p) && At(p, t, Ready) && p.generic == [] && (OnlyGeneric(p, t) || forall tag :: !Yields(p, t, tag))
    ensures Inv(GoIdle(p, t))
  {
    var q := GoIdle(p, t);
    if p.maxThreads == 1 && !p.overlapped { NothingLeft(p, t); }
    hide Ordered, Locked, Pending, Idlers, Led, Single;
    OffDutyStep(p, q, t);
    CountsStep(p, q, t);
    IdleLed(p, t);
  }

  lemma IdleLed(p: Pool, t: Tid)
    requires Counted(p) && Led(p) && Single(p) && At(p, t, Ready)
    requires p.maxThreads == 1 && !p.overlapped ==> p.queuedTaskCount + p.genericTaskCount == 0
    ensures Led(GoIdle(p, t)) && Single(GoIdle(p, t))
  {
    hide Pending, Idlers;
    if p.maxThreads == 1 && !p.overlapped && !p.isStopping { OnlyWorker(p, t, p.genericThread.value); }
  }

  // ---------------------------------------------------------------- every run

  lemma NextKeepsInv(p: Pool, l: Label, q: Pool)
    requires Inv(p) && Next(p, l, q)
    ensures Inv(q)
  {
    hide Inv;
    match l
    case DoStart => StartKeeps(p);
    case DoStopBegin => StopBeginKeeps(p);
    case DoStopReturn => StopReturnKeeps(p);
    case DoSchedule(kind) => ScheduleKeeps(p, kind);
    case DoShrink(tag) => ShrinkKeeps(p, tag);
    case DoBecome(t) => BecomeKeeps(p, t);
    case DoReapGeneric(t) => ReapGenericKeeps(p, t);
    case DoReapQueued(t, tag) => ReapQueuedKeeps(p, t, tag);
    case DoIdle(t) => IdleKeeps(p, t);
    case DoWake(t, timeout) => WakeKeeps(p, t, timeout);
    case DoFinish(t) => FinishKeeps(p, t);
    case DoExit(t) => ExitKeeps(p, t);
  }

  ghost predicate Run(states: seq<Pool>, labels: seq<Label>) {
    && |states| == |labels| + 1 && states[0] == New(states[0].maxThreads, states[0].minThreads)
    && forall i | 0 <= i < |labels| :: Next(states[i], labels[i], states[i + 1])
  }

  lemma {:induction false} RunKeepsInv(states: seq<Pool>, labels: seq<Label>, n: nat)
    requires Run(states, labels) && n <= |labels|
    ensures Inv(states[n])
  {
    hide Inv, Next;
    if n == 0 {
      NewIsInv(states[0].maxThreads, states[0].minThreads);
    } else {
      RunKeepsInv(states, labels, n - 1);
      NextKeepsInv(states[n - 1], labels[n - 1], states[n]);
    }
  }

  /** At most one worker runs a task of a given tag. */
  lemma OneRunnerPerTag(states: seq<Pool>, labels: seq<Label>, n: nat, t: Tid, u: Tid)
    requires Run(states, labels) && n <= |labels|
    requires t in states[n].workers && states[n].workers[t].Running? && states[n].workers[t].queue.Some?
    requires u in states[n].workers && states[n].workers[u].Running? && states[n].workers[u].queue.Some?
    requires states[n].workers[t].queue.value.tag == states[n].workers[u].queue.value.tag
    ensures t == u
  {
    RunKeepsInv(states, labels, n);
    assert RunsWell(states[n], t) && RunsWell(states[n], u);
  }

  /** Tasks of one tag, and generic tasks, start in the order they were scheduled, each at most once. */
  lemma StartsInSchedulingOrder(states: seq<Pool>, labels: seq<Label>, n: nat, i: nat, j: nat)
    requires Run(states, labels) && n <= |labels| && i < j < |states[n].started|
    ensures states[n].started[i] < |states[n].log| && states[n].started[j] < |states[n].log|
    ensures states[n].started[i] != states[n].started[j]
    ensures states[n].log[states[n].started[i]] == states[n].log[states[n].started[j]] ==>
      states[n].started[i] < states[n].started[j]
  {
    RunKeepsInv(states, labels, n);
  }

  lemma StartedBefore(p: Pool, id: TaskId, later: TaskId)
    requires Ordered(p) && later in p.started && id < later < |p.log| && p.log[id] == p.log[later]
    ensures id in p.started
  {
  }

  /** No overtaking: when a task starts, every task of its kind scheduled before it has already started. */
  lemma NoOvertaking(states: seq<Pool>, labels: seq<Label>, n: nat, j: nat, id: TaskId)
    requires Run(states, labels) && n <= |labels| && j < |states[n].started|
    requires id < states[n].started[j] < |states[n].log| && states[n].log[id] == states[n].log[states[n].started[j]]
    ensures id in states[n].started[..j]
  {
    hide Next, Ordered, Locked, Counted, Led, Single;
    var p := states[n];
    RunKeepsInv(states, labels, n);
    StartedBefore(p, id, p.started[j]);
    var i :| 0 <= i < |p.started| && p.started[i] == id;
    StartOrder(p, j, i);
    assert p.started[..j][i] == id;
  }

  lemma StartOrder(p: Pool, j: nat, i: nat)
    requires Ordered(p) && j < |p.started| && i < |p.started| && p.started[i] < p.started[j] < |p.log|
    requires p.log[p.started[i]] == p.log[p.started[j]]
    ensures i < j
  {
  }

  /** The queue a running worker will unlock is never removed or replaced, and the worker holds its lock. */
  lemma QueueOfRunningWorkerSurvives(states: seq<Pool>, labels: seq<Label>, n: nat, t: Tid)
    requires Run(states, labels) && n <= |labels|
    requires t in states[n].workers && states[n].workers[t].Running? && states[n].workers[t].queue.Some?
    ensures var p, ptr := states[n], states[n].workers[t].queue.value;
      ptr.tag in p.queues && p.queues[ptr.tag].node == ptr.node && p.queues[ptr.tag].lockThread == Some(t)
  {
    RunKeepsInv(states, labels, n);
    assert RunsWell(states[n], t);
  }

  ghost function WaitingTasks(p: Pool, tagged: bool): set<TaskId> {
    set id: TaskId | 0 <= id < |p.log| && p.log[id].Tagged? == tagged && id in WaitingOf(p, p.log[id])
  }

  ghost function RunningTasks(p: Pool, tagged: bool): set<TaskId> {
    set id: TaskId | 0 <= id < |p.log| && p.log[id].Tagged? == tagged && IsRunning(p, id)
  }

  ghost predicate IsRunning(p: Pool, id: TaskId) { exists t :: RunBy(p, t, id) }

  /** The counters are exactly the waiting plus the running tasks of their sort. */
  lemma CountersAreWaitingPlusRunning(states: seq<Pool>, labels: seq<Label>, n: nat)
    requires Run(states, labels) && n <= |labels|
    ensures states[n].queuedTaskCount == |WaitingTasks(states[n], true)| + |RunningTasks(states[n], true)|
    ensures states[n].genericTaskCount == |WaitingTasks(states[n], false)| + |RunningTasks(states[n], false)|
  {
    RunKeepsInv(states, labels, n);
    PendingSplits(states[n], true);
    PendingSplits(states[n], false);
  }

  lemma PendingSplits(p: Pool, tagged: bool)
    requires Ordered(p) && Locked(p)
    ensures |Pending(p, tagged)| == |WaitingTasks(p, tagged)| + |RunningTasks(p, tagged)|
  {
    hide Ordered, Locked, WaitingOf, IsRunning;
    forall id: TaskId | id < |p.log|
      ensures id !in p.finished <==> id in WaitingOf(p, p.log[id]) || IsRunning(p, id)
      ensures !(id in WaitingOf(p, p.log[id]) && IsRunning(p, id))
    {
      PendingIsWaitingOrRunning(p, id);
    }
    assert Pending(p, tagged) == WaitingTasks(p, tagged) + RunningTasks(p, tagged);
    assert WaitingTasks(p, tagged) !! RunningTasks(p, tagged);
  }

  lemma PendingIsWaitingOrRunning(p: Pool, id: TaskId)
    requires Ordered(p) && Locked(p) && id < |p.log|
    ensures id !in p.finished <==> id in WaitingOf(p, p.log[id]) || IsRunning(p, id)
    ensures !(id in WaitingOf(p, p.log[id]) && IsRunning(p, id))
  {
    hide WaitingOf;
    if t :| RunBy(p, t, id) { assert RunsWell(p, t); }
  }

  /** Thread accounting, and the life of the generic worker before Stop. */
  lemma ThreadsAreAccounted(states: seq<Pool>, labels: seq<Label>, n: nat)
    requires Run(states, labels) && n <= |labels|
    ensures var p := states[n];
      && p.curThreads == |p.workers| && p.idleThreads == |Idlers(p)|
      && (p.curThreads > 0 ==> p.curThreads <= p.maxThreads)
      && (p.isStarted && !p.isStopping && !p.overlapped ==>
            && (p.minThreads >= 1 ==> p.curThreads >= 1)
            && (forall t | t in p.workers && p.workers[t] != Fresh ::
                  p.genericThread.Some? && p.genericThread.value in p.workers
                  && p.workers[p.genericThread.value] != Leaving))
  {
    RunKeepsInv(states, labels, n);
  }

  /** In every run the generic worker keeps its place at a step exactly if it does not exit there, and it exits only
      while Stop is under way, or once some Start came while a Stop was waiting. */
  lemma GenericWorkerStays(states: seq<Pool>, labels: seq<Label>, n: nat, g: Tid)
    requires Run(states, labels) && n < |labels| && states[n].genericThread == Some(g)
    ensures states[n + 1].genericThread == Some(g) <==> labels[n] != DoExit(g)
    ensures labels[n] == DoExit(g) ==> states[n].isStopping || states[n].overlapped
    ensures labels[n] != DoExit(g) ==> g in states[n + 1].workers
  {
    hide Ordered, Locked, Counted, Single, Next;
    RunKeepsInv(states, labels, n);
    RunKeepsInv(states, labels, n + 1);
    OnlyExitChangesGeneric(states[n], labels[n], states[n + 1], g);
  }

  lemma OnlyExitChangesGeneric(p: Pool, l: Label, q: Pool, g: Tid)
    requires Next(p, l, q) && p.genericThread == Some(g)
    ensures if l == DoExit(g) then q.genericThread == None && At(p, g, Leaving) else q.genericThread == Some(g)
  {
    match l
    case DoStart => SpawnOnly(Begun(p), p.minThreads);
    case DoSchedule(kind) => SpawnOnly(Queued(p, kind), p.curThreads + 1);
    case _ =>
  }

  lemma {:induction false} SpawnOnly(p: Pool, limit: int)
    ensures SpawnUpTo(p, limit).genericThread == p.genericThread
    decreases limit - p.curThreads
  {
    if p.curThreads < limit { SpawnOnly(Spawn(p), limit); }
  }

  /** In every reachable state, all accepted tasks have finished exactly if both counters are zero. */
  lemma AllFinishedIff(states: seq<Pool>, labels: seq<Label>, n: nat)
    requires Run(states, labels) && n <= |labels|
    ensures var p := states[n];
      (forall id: TaskId | id < |p.log| :: id in p.finished) <==> p.queuedTaskCount == 0 && p.genericTaskCount == 0
  {
    var p := states[n];
    RunKeepsInv(states, labels, n);
    hide Ordered, Locked, Led, Single, Run;
    if forall id: TaskId | id < |p.log| :: id in p.finished {
      assert Pending(p, true) == {} && Pending(p, false) == {};
    } else {
      var id: TaskId :| id < |p.log| && id !in p.finished;
      assert id in Pending(p, p.log[id].Tagged?);
    }
  }
}
