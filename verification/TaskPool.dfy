/** The task pool as a transition system: each step is one critical section under `tasksMutex_`. */
module TaskPools {
  import opened Options

  type Tid = nat
  type TaskId = nat

  /** A task either may run on any thread, or belongs to the serial queue of a tag. */
  datatype Kind = Generic | Tagged(tag: string)

  // ---------------------------------------------------------------- TaskQueue

  /** A lockable queue; `node` identifies the map node that pointers to the queue refer to. */
  datatype Queue = Queue(node: nat, lockThread: Option<Tid>, tasks: seq<TaskId>) {
    function PutTask(id: TaskId): Queue { this.(tasks := tasks + [id]) }

    function ReleaseLock(me: Tid): Queue { if lockThread == Some(me) then this.(lockThread := None) else this }

    function GetTaskAutoLock(me: Tid): (Queue, Option<TaskId>) {
      if lockThread != Some(me) && lockThread != None then (this, None)
      else if tasks == [] then (this.(lockThread := Some(me)).ReleaseLock(me), None)
      else (Queue(node, Some(me), tasks[1..]), Some(tasks[0]))
    }

    predicate IsEmptyAndUnlocked() { lockThread == None && tasks == [] }
  }

  /** What a running worker will pass to FinishExecuteTask. */
  datatype Pointer = Pointer(tag: string, node: nat)

  datatype Worker =
    | Fresh                                                  // spawned, before BecomeGenericWorker
    | Ready                                                  // about to reap
    | Waiting(timed: bool)                                   // in IdleExit
    | Running(task: TaskId, queue: Option<Pointer>)
    | Leaving                                                // before ExitGenericWorker

  /** The pool's fields; then the workers it has spawned and the history of its tasks. */
  datatype Pool = Pool(
    queues: map<string, Queue>,
    generic: seq<TaskId>,
    genericThread: Option<Tid>,
    genericTaskCount: int,
    queuedTaskCount: int,
    isStarted: bool,
    isStopping: bool,
    maxThreads: int,
    minThreads: int,
    curThreads: int,
    idleThreads: int,
    workers: map<Tid, Worker>,
    nextTid: Tid,
    nextNode: nat,
    log: seq<Kind>,           // accepted tasks; a task is its index
    started: seq<TaskId>,     // tasks in the order they were handed to workers
    finished: set<TaskId>,
    stopsWaiting: nat,        // calls of Stop that have not returned
    overlapped: bool)         // some Start came while a Stop was waiting

  const INT_MAX: int := 0x7FFF_FFFF

  function New(maxThreads: int, minThreads: int): Pool {
    Pool(map[], [], None, 0, 0, false, false, maxThreads, minThreads, 0, 0, map[], 0, 0, [], [], {}, 0, false)
  }

  // ---------------------------------------------------------------- client calls

  function Spawn(p: Pool): Pool {
    p.(curThreads := p.curThreads + 1, workers := p.workers[p.nextTid := Fresh], nextTid := p.nextTid + 1)
  }

  /** The loop of SpawnThreads. */
  function SpawnUpTo(p: Pool, limit: int): Pool
    decreases limit - p.curThreads
  {
    if p.curThreads < limit then SpawnUpTo(Spawn(p), limit) else p
  }

  function SpawnThreads(p: Pool, isStart: bool): Pool {
    if !p.isStarted || p.curThreads >= p.maxThreads then p
    else SpawnUpTo(p, if isStart then p.minThreads else p.curThreads + 1)
  }

  function TryToSpawnThreads(p: Pool): Pool {
    if p.curThreads >= p.maxThreads || p.curThreads >= p.queuedTaskCount + p.genericTaskCount then p
    else SpawnThreads(p, false)
  }

  predicate GoodLimits(p: Pool) { p.minThreads <= p.maxThreads && p.maxThreads > 0 && p.minThreads >= 0 }

  function Start(p: Pool): Pool {
    if !GoodLimits(p) then p
    else SpawnThreads(p.(isStarted := true, isStopping := false, overlapped := p.overlapped || p.stopsWaiting > 0), true)
  }

  function StopBegin(p: Pool): Pool {
    if p.isStarted then p.(isStopping := true, stopsWaiting := p.stopsWaiting + 1) else p
  }

  predicate CanStopReturn(p: Pool) { p.stopsWaiting > 0 && p.curThreads <= 0 }

  function StopReturn(p: Pool): Pool
    requires CanStopReturn(p)
  {
    p.(isStarted := false, stopsWaiting := p.stopsWaiting - 1)
  }

  predicate Accepts(p: Pool, count: int) { p.isStarted && !p.isStopping && count != INT_MAX }

  function Schedule(p: Pool, kind: Kind): Pool {
    var id := |p.log|;
    match kind
    case Generic =>
      if !Accepts(p, p.genericTaskCount) then p
      else TryToSpawnThreads(p.(generic := p.generic + [id], genericTaskCount := p.genericTaskCount + 1,
                                log := p.log + [kind]))
    case Tagged(tag) =>
      if !Accepts(p, p.queuedTaskCount) then p
      else
        var q := if tag in p.queues then p.queues[tag] else Queue(p.nextNode, None, []);
        TryToSpawnThreads(p.(queues := p.queues[tag := q.PutTask(id)],
                             nextNode := if tag in p.queues then p.nextNode else p.nextNode + 1,
                             queuedTaskCount := p.queuedTaskCount + 1, log := p.log + [kind]))
  }

  function ShrinkMemory(p: Pool, tag: string): Pool {
    if tag in p.queues && p.queues[tag].IsEmptyAndUnlocked() then p.(queues := p.queues - {tag}) else p
  }

  // ---------------------------------------------------------------- worker steps

  function Become(p: Pool, t: Tid): Pool {
    p.(genericThread := if p.genericThread == None then Some(t) else p.genericThread, workers := p.workers[t := Ready])
  }

  /** ReapTask may take a task of the queue `tag`: queues are visited in map order, so `tag` is any queue that
      would yield a task. */
  predicate Yields(p: Pool, t: Tid, tag: string) {
    tag in p.queues && p.queues[tag].GetTaskAutoLock(t).1 != None
  }

  predicate OnlyGeneric(p: Pool, t: Tid) { p.genericThread == Some(t) && p.curThreads > 1 }

  function ReapGeneric(p: Pool, t: Tid): Pool
    requires p.generic != []
  {
    p.(generic := p.generic[1..], workers := p.workers[t := Running(p.generic[0], None)],
       started := p.started + [p.generic[0]])
  }

  function ReapQueued(p: Pool, t: Tid, tag: string): Pool
    requires Yields(p, t, tag)
  {
    var (q, task) := p.queues[tag].GetTaskAutoLock(t);
    p.(queues := p.queues[tag := q], started := p.started + [task.value],
       workers := p.workers[t := Running(task.value, Some(Pointer(tag, q.node)))])
  }

  /** IdleExit up to the wait. */
  function GoIdle(p: Pool, t: Tid): Pool {
    if p.isStopping then p.(workers := p.workers[t := Leaving])
    else p.(idleThreads := p.idleThreads + 1,
            workers := p.workers[t := Waiting(p.genericThread != Some(t) && p.curThreads > p.minThreads)])
  }

  /** IdleExit after the wait. */
  function Wake(p: Pool, t: Tid, timeout: bool): Pool
    requires t in p.workers && p.workers[t].Waiting?
  {
    p.(idleThreads := p.idleThreads - 1,
       workers := p.workers[t := if p.workers[t].timed && timeout && p.genericTaskCount <= 0 then Leaving else Ready])
  }

  /** The worker runs a task, and the queue it points to is still in the map. */
  predicate CanFinish(p: Pool, t: Tid) {
    && t in p.workers && p.workers[t].Running?
    && (p.workers[t].queue.Some? ==> p.workers[t].queue.value.tag in p.queues)
  }

  function FinishExecuteTask(p: Pool, t: Tid): Pool
    requires CanFinish(p, t)
  {
    var w := p.workers[t];
    var p' := p.(workers := p.workers[t := Ready], finished := p.finished + {w.task});
    if w.queue.Some? then
      var tag := w.queue.value.tag;
      p'.(queues := p.queues[tag := p.queues[tag].ReleaseLock(t)], queuedTaskCount := p.queuedTaskCount - 1)
    else p'.(genericTaskCount := p.genericTaskCount - 1)
  }

  function ExitGenericWorker(p: Pool, t: Tid): Pool {
    p.(genericThread := if p.genericThread == Some(t) then None else p.genericThread,
       curThreads := p.curThreads - 1, workers := p.workers - {t})
  }

  datatype Label =
    | DoStart | DoStopBegin | DoStopReturn | DoSchedule(kind: Kind) | DoShrink(tag: string)
    | DoBecome(t: Tid) | DoReapGeneric(t: Tid) | DoReapQueued(t: Tid, tag: string) | DoIdle(t: Tid)
    | DoWake(t: Tid, timeout: bool) | DoFinish(t: Tid) | DoExit(t: Tid)

  predicate At(p: Pool, t: Tid, w: Worker) { t in p.workers && p.workers[t] == w }

  ghost predicate Next(p: Pool, l: Label, q: Pool) {
    match l
    case DoStart => q == Start(p)
    case DoStopBegin => q == StopBegin(p)
    case DoStopReturn => CanStopReturn(p) && q == StopReturn(p)
    case DoSchedule(kind) => q == Schedule(p, kind)
    case DoShrink(tag) => q == ShrinkMemory(p, tag)
    case DoBecome(t) => At(p, t, Fresh) && q == Become(p, t)
    case DoReapGeneric(t) => At(p, t, Ready) && p.generic != [] && q == ReapGeneric(p, t)
    case DoReapQueued(t, tag) =>
      At(p, t, Ready) && p.generic == [] && !OnlyGeneric(p, t) && Yields(p, t, tag) && q == ReapQueued(p, t, tag)
    case DoIdle(t) =>
      At(p, t, Ready) && p.generic == [] && (OnlyGeneric(p, t) || forall tag :: !Yields(p, t, tag)) && q == GoIdle(p, t)
    case DoWake(t, timeout) => t in p.workers && p.workers[t].Waiting? && q == Wake(p, t, timeout)
    case DoFinish(t) => CanFinish(p, t) && q == FinishExecuteTask(p, t)
    case DoExit(t) => At(p, t, Leaving) && q == ExitGenericWorker(p, t)
  }
}
