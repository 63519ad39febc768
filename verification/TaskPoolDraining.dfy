/** Exactly when Stop returns with every accepted task finished, for any number of threads and any calls. */
module TaskPoolDraining {
  import opened Options
  import opened TaskPools
  import opened TaskPoolSafety

  /** No worker is left, or every one that is left is on its way out. */
  ghost predicate AllLeaving(p: Pool) { forall t | t in p.workers :: p.workers[t] == Leaving }

  predicate Unfinished(p: Pool) { p.queuedTaskCount + p.genericTaskCount > 0 }

  /** Some queue has a task waiting. */
  ghost predicate TaggedWaiting(p: Pool) { exists tag :: tag in p.queues && p.queues[tag].tasks != [] }

  predicate Accepting(p: Pool, l: Label, q: Pool) { l.DoSchedule? && |q.log| > |p.log| }

  /** A step that strands a task: it is accepted although all workers are leaving and no thread is spawned for it, or
      the last worker to stay leaves while a queue has a task waiting. */
  ghost predicate Strands(p: Pool, l: Label, q: Pool) {
    AllLeaving(q) && if AllLeaving(p) then Accepting(p, l, q) else TaggedWaiting(p)
  }

  // ---------------------------------------------------------------- spawning

  lemma {:induction false} SpawnUpToFresh(p: Pool, limit: int)
    ensures var q := SpawnUpTo(p, limit);
      && q == p.(curThreads := q.curThreads, workers := q.workers, nextTid := q.nextTid)
      && q.nextTid >= p.nextTid
      && (if q.nextTid == p.nextTid then q == p else q.nextTid - 1 in q.workers && q.workers[q.nextTid - 1] == Fresh)
    decreases limit - p.curThreads
  {
    if p.curThreads < limit { SpawnUpToFresh(Spawn(p), limit); }
  }

  /** A client call that spawns leaves a fresh worker; one that does not leaves the workers as they are. */
  lemma ClientSpawns(p: Pool, l: Label, q: Pool)
    requires Next(p, l, q) && (l.DoStart? || l.DoSchedule?)
    ensures q.nextTid >= p.nextTid
    ensures if q.nextTid == p.nextTid then q.workers == p.workers else exists t :: t in q.workers && q.workers[t] == Fresh
    ensures q.log == p.log || Accepting(p, l, q)
    ensures l.DoStart? || q.log == p.log ==> q.queuedTaskCount == p.queuedTaskCount && q.genericTaskCount == p.genericTaskCount
    ensures l.DoSchedule? && q.log != p.log ==> Unfinished(q) || p.queuedTaskCount < 0 || p.genericTaskCount < 0
  {
    match l
    case DoStart => SpawnUpToFresh(Begun(p), p.minThreads);
    case DoSchedule(kind) => ScheduleSpawns(p, kind);
  }

  lemma ScheduleSpawns(p: Pool, kind: Kind)
    ensures var q := Schedule(p, kind);
      && q.nextTid >= p.nextTid
      && (if q.nextTid == p.nextTid then q.workers == p.workers else exists t :: t in q.workers && q.workers[t] == Fresh)
      && (if Accepts(p, if kind.Tagged? then p.queuedTaskCount else p.genericTaskCount)
          then && q.log == p.log + [kind] && q.queuedTaskCount == p.queuedTaskCount + (if kind.Tagged? then 1 else 0)
               && q.genericTaskCount == p.genericTaskCount + (if kind.Tagged? then 0 else 1)
          else q == p)
  {
    if Accepts(p, if kind.Tagged? then p.queuedTaskCount else p.genericTaskCount) {
      var p1 := Queued(p, kind);
      assert p1.workers == p.workers && p1.nextTid == p.nextTid && p1.log == p.log + [kind];
      assert Schedule(p, kind) == TryToSpawnThreads(p1);
      hide Queued, Schedule;
      SpawnUpToFresh(p1, p1.curThreads + 1);
    }
  }

  // ---------------------------------------------------------------- tasks when nobody runs

  /** With no worker running, what is unfinished is waiting. */
  lemma UnfinishedWaits(p: Pool)
    requires Inv(p) && forall t | t in p.workers :: !p.workers[t].Running?
    ensures Unfinished(p) <==> p.generic != [] || TaggedWaiting(p)
    ensures p.genericTaskCount <= 0 ==> p.generic == []
  {
    hide Ordered, Locked, Counted, Led, Single, TaggedWaiting;
    UnfinishedHasTask(p);
    if p.generic != [] { WaitingIsUnfinished(p, Generic); }
    if TaggedWaiting(p) { TaggedIsUnfinished(p); }
    if Unfinished(p) {
      var id: TaskId :| id < |p.log| && id !in p.finished;
      PendingIsWaitingOrRunning(p, id);
      assert !IsRunning(p, id);
      SomethingWaits(p, p.log[id], id);
    }
  }

  lemma TaggedIsUnfinished(p: Pool)
    requires Inv(p) && TaggedWaiting(p)
    ensures p.queuedTaskCount > 0
  {
    hide Inv;
    var tag :| tag in p.queues && p.queues[tag].tasks != [];
    WaitingIsUnfinished(p, Tagged(tag));
  }

  lemma SomethingWaits(p: Pool, kind: Kind, id: TaskId)
    requires id in WaitingOf(p, kind)
    ensures p.generic != [] || TaggedWaiting(p)
  {
  }

  lemma UnfinishedHasTask(p: Pool)
    requires Inv(p)
    ensures p.queuedTaskCount >= 0 && p.genericTaskCount >= 0
    ensures Unfinished(p) ==> exists id: TaskId :: id < |p.log| && id !in p.finished
  {
    hide Ordered, Locked, Led, Single;
    if p.queuedTaskCount > 0 {
      assert Pending(p, true) != {};
      var id :| id in Pending(p, true);
    } else if p.genericTaskCount > 0 {
      assert Pending(p, false) != {};
      var id :| id in Pending(p, false);
    }
  }

  lemma WaitingIsUnfinished(p: Pool, kind: Kind)
    requires Inv(p) && WaitingOf(p, kind) != []
    ensures if kind.Tagged? then p.queuedTaskCount > 0 else p.genericTaskCount > 0
  {
    hide Led, Single;
    var id := WaitingOf(p, kind)[0];
    assert Lined(p, kind, WaitingOf(p, kind));
    assert id in WaitingOf(p, p.log[id]);
    PendingIsWaitingOrRunning(p, id);
    assert id in Pending(p, kind.Tagged?);
  }

  // ---------------------------------------------------------------- one step

  /** The last worker to stay, `t`, leaves. */
  lemma LeaverStep(p: Pool, t: Tid, q: Pool)
    requires Inv(p) && t in p.workers && !p.workers[t].Running? && p.workers[t] != Leaving
    requires q.workers == p.workers[t := Leaving] && AllLeaving(q)
    requires q.queuedTaskCount == p.queuedTaskCount && q.genericTaskCount == p.genericTaskCount
    requires p.generic == [] || p.genericTaskCount <= 0
    ensures Unfinished(q) <==> TaggedWaiting(p)
  {
    hide Inv;
    forall u | u in p.workers ensures !p.workers[u].Running? { if u != t { assert q.workers[u] == Leaving; } }
    UnfinishedWaits(p);
  }

  /** What a step that ends with all workers leaving does to the unfinished tasks. */
  lemma StrandStep(p: Pool, l: Label, q: Pool)
    requires Inv(p) && Next(p, l, q) && AllLeaving(q)
    ensures q.nextTid == p.nextTid
    ensures Unfinished(q) <==> (AllLeaving(p) && Unfinished(p)) || Strands(p, l, q)
  {
    hide Inv;
    UnfinishedHasTask(p);
    match l {
      case DoStart => ClientSpawns(p, l, q);
      case DoSchedule(_) => ClientSpawns(p, l, q);
      case DoIdle(t) => LeavesAtIdle(p, t, q);
      case DoWake(t, timeout) => LeavesAtWake(p, t, timeout, q);
      case DoExit(t) => forall u | u in p.workers ensures p.workers[u] == Leaving { assert u != t ==> u in q.workers; }
      case _ => if WorkerStays(l) { Stays(p, l, q); }
    }
  }

  predicate WorkerStays(l: Label) { l.DoBecome? || l.DoReapGeneric? || l.DoReapQueued? || l.DoFinish? }

  lemma Stays(p: Pool, l: Label, q: Pool)
    requires Next(p, l, q) && WorkerStays(l)
    ensures !AllLeaving(q)
  {
    assert l.t in q.workers && q.workers[l.t] != Leaving;
  }

  lemma LeavesAtIdle(p: Pool, t: Tid, q: Pool)
    requires Inv(p) && Next(p, DoIdle(t), q) && AllLeaving(q)
    ensures q.nextTid == p.nextTid && !AllLeaving(p) && (Unfinished(q) <==> TaggedWaiting(p))
  {
    hide Inv;
    assert q.workers[t] == Leaving;
    LeaverStep(p, t, q);
  }

  lemma LeavesAtWake(p: Pool, t: Tid, timeout: bool, q: Pool)
    requires Inv(p) && Next(p, DoWake(t, timeout), q) && AllLeaving(q)
    ensures q.nextTid == p.nextTid && !AllLeaving(p) && (Unfinished(q) <==> TaggedWaiting(p))
  {
    hide Inv;
    assert q.workers[t] == Leaving;
    LeaverStep(p, t, q);
  }

  // ---------------------------------------------------------------- every run

  lemma TidsGrow(p: Pool, l: Label, q: Pool)
    requires Next(p, l, q)
    ensures p.nextTid <= q.nextTid
    ensures AllLeaving(p) && q.nextTid == p.nextTid ==> AllLeaving(q)
  {
    if l.DoStart? || l.DoSchedule? { ClientSpawns(p, l, q); }
  }

  lemma {:induction false} LeavingLasts(states: seq<Pool>, labels: seq<Label>, k: nat, n: nat)
    requires Run(states, labels) && k <= n <= |labels|
    ensures states[k].nextTid <= states[n].nextTid
    ensures AllLeaving(states[k]) && states[k].nextTid == states[n].nextTid ==> AllLeaving(states[n])
    decreases n - k
  {
    hide Next, AllLeaving;
    if k < n {
      LeavingLasts(states, labels, k, n - 1);
      assert Next(states[n - 1], labels[n - 1], states[n - 1 + 1]);
      TidsGrow(states[n - 1], labels[n - 1], states[n]);
    }
  }

  /** Step `k` stranded a task, and no thread was spawned from then until `n`. */
  ghost predicate Stranded(states: seq<Pool>, labels: seq<Label>, k: nat, n: nat)
    requires |states| == |labels| + 1 && n <= |labels|
  {
    k < n && states[k].nextTid == states[n].nextTid && Strands(states[k], labels[k], states[k + 1])
  }

  /** For any number of threads and any calls: when all workers are gone or leaving, some accepted task is unfinished
      exactly if some step stranded one and no thread was spawned since. */
  lemma {:induction false} UnfinishedIffStranded(states: seq<Pool>, labels: seq<Label>, n: nat)
    requires Run(states, labels) && n <= |labels| && AllLeaving(states[n])
    ensures Unfinished(states[n]) <==> exists k: nat :: Stranded(states, labels, k, n)
  {
    hide Next, AllLeaving, Unfinished, Inv, Strands;
    if n == 0 {
      NothingUnfinished(states[0]);
    } else {
      var m := n - 1;
      RunKeepsInv(states, labels, m);
      assert Next(states[m], labels[m], states[m + 1]);
      StrandStep(states[m], labels[m], states[n]);
      forall k: nat | k < m ensures Stranded(states, labels, k, n) <==> Stranded(states, labels, k, m) {}
      assert Stranded(states, labels, m, n) <==> Strands(states[m], labels[m], states[n]);
      if AllLeaving(states[m]) {
        UnfinishedIffStranded(states, labels, m);
        if k: nat :| Stranded(states, labels, k, m) { assert Stranded(states, labels, k, n); }
      } else {
        forall k: nat | k < m ensures !Stranded(states, labels, k, m) { NotStranded(states, labels, k, m); }
      }
    }
  }

  lemma NothingUnfinished(p: Pool)
    requires p == New(p.maxThreads, p.minThreads)
    ensures !Unfinished(p)
  {
  }

  lemma NotStranded(states: seq<Pool>, labels: seq<Label>, k: nat, m: nat)
    requires Run(states, labels) && k < m <= |labels| && !AllLeaving(states[m])
    ensures !Stranded(states, labels, k, m)
  {
    hide Next, AllLeaving;
    if Strands(states[k], labels[k], states[k + 1]) {
      LeavingLasts(states, labels, k, k + 1);
      LeavingLasts(states, labels, k + 1, m);
    }
  }

  lemma NobodyIsLeaving(p: Pool)
    requires Inv(p) && p.curThreads <= 0
    ensures p.workers == map[] && AllLeaving(p)
  {
    hide Ordered, Locked, Led, Single;
    assert |p.workers| == 0;
  }

  /** Stop returns with every accepted task finished exactly if no step stranded a task since the last spawn. */
  lemma StopDrainsIff(states: seq<Pool>, labels: seq<Label>, n: nat)
    requires Run(states, labels) && n < |labels| && labels[n] == DoStopReturn
    ensures (forall id: TaskId | id < |states[n].log| :: id in states[n].finished) <==>
      !exists k: nat :: Stranded(states, labels, k, n)
  {
    hide Inv, Stranded;
    RunKeepsInv(states, labels, n);
    assert Next(states[n], labels[n], states[n + 1]);
    hide Next;
    NobodyIsLeaving(states[n]);
    UnfinishedIffStranded(states, labels, n);
    AllFinishedIff(states, labels, n);
    UnfinishedHasTask(states[n]);
  }

  // ---------------------------------------------------------------- how the last worker leaves

  /** The last worker to stay leaves because Stop is under way, and leaves tasks behind only as the generic worker that
      others have not yet left alone; or because a timed wait timed out. */
  lemma HowTheLastLeaves(p: Pool, l: Label, q: Pool)
    requires Inv(p) && Next(p, l, q) && !AllLeaving(p) && AllLeaving(q)
    ensures (l.DoIdle? && p.isStopping && (TaggedWaiting(p) ==> OnlyGeneric(p, l.t)))
         || (l.DoWake? && l.timeout && At(p, l.t, Waiting(true)))
  {
    hide Inv;
    match l {
      case DoStart => ClientSpawns(p, l, q);
      case DoSchedule(_) => ClientSpawns(p, l, q);
      case DoIdle(t) => assert q.workers[t] == Leaving; if TaggedWaiting(p) { LeavesBehind(p, t, q); }
      case DoWake(t, timeout) => assert q.workers[t] == Leaving;
      case DoExit(t) => forall u | u in p.workers ensures p.workers[u] == Leaving { assert u != t ==> u in q.workers; }
      case _ => if WorkerStays(l) { Stays(p, l, q); }
    }
  }

  lemma LeavesBehind(p: Pool, t: Tid, q: Pool)
    requires Inv(p) && Next(p, DoIdle(t), q) && AllLeaving(q) && q.workers == p.workers[t := Leaving] && TaggedWaiting(p)
    ensures OnlyGeneric(p, t)
  {
    hide Ordered, Counted, Led, Single;
    forall u | u in p.workers ensures !p.workers[u].Running? { if u != t { assert q.workers[u] == Leaving; } }
    var tag :| tag in p.queues && p.queues[tag].tasks != [];
    assert Owned(p, tag);
    assert Yields(p, t, tag);
  }

  // ---------------------------------------------------------------- one thread

  /** With one thread, the only worker is the generic one and never waits for a limited time. */
  ghost predicate Lone(p: Pool) {
    p.maxThreads == 1 ==>
      forall t | t in p.workers :: p.workers[t] != Waiting(true) && (p.workers[t] != Fresh ==> p.genericThread == Some(t))
  }

  lemma NextKeepsLone(p: Pool, l: Label, q: Pool)
    requires Inv(p) && Lone(p) && Next(p, l, q)
    ensures Lone(q) && q.maxThreads == p.maxThreads
  {
    hide Inv;
    match l {
      case DoStart => SpawnUpToKeepsOld(Begun(p), p.minThreads);
      case DoSchedule(kind) => ScheduleKeepsOld(p, kind);
      case DoBecome(t) => if p.maxThreads == 1 { AloneBecomes(p, t); }
      case DoReapGeneric(t) => if p.maxThreads == 1 { Alone(p, t); }
      case DoReapQueued(t, _) => if p.maxThreads == 1 { Alone(p, t); }
      case DoIdle(t) => if p.maxThreads == 1 { Alone(p, t); }
      case DoWake(t, _) => if p.maxThreads == 1 { Alone(p, t); }
      case DoFinish(t) => if p.maxThreads == 1 { Alone(p, t); }
      case DoExit(t) => if p.maxThreads == 1 { Alone(p, t); }
      case _ =>
    }
  }

  lemma Alone(p: Pool, t: Tid)
    requires Inv(p) && p.maxThreads == 1 && t in p.workers
    ensures forall u | u in p.workers :: u == t
  {
    hide Ordered, Locked, Led, Single;
    forall u | u in p.workers ensures u == t { OnlyWorker(p, t, u); }
  }

  lemma AloneBecomes(p: Pool, t: Tid)
    requires Inv(p) && p.maxThreads == 1 && At(p, t, Fresh)
    ensures p.genericThread == None && forall u | u in p.workers :: u == t
  {
    Alone(p, t);
    hide Ordered, Locked, Counted, Single;
  }

  lemma {:induction false} SpawnUpToKeepsOld(p: Pool, limit: int)
    ensures var q := SpawnUpTo(p, limit);
      && q.genericThread == p.genericThread && q.maxThreads == p.maxThreads
      && forall t | t in q.workers :: q.workers[t] == Fresh || (t in p.workers && q.workers[t] == p.workers[t])
    decreases limit - p.curThreads
  {
    if p.curThreads < limit { SpawnUpToKeepsOld(Spawn(p), limit); }
  }

  lemma ScheduleKeepsOld(p: Pool, kind: Kind)
    ensures var q := Schedule(p, kind);
      && q.genericThread == p.genericThread && q.maxThreads == p.maxThreads
      && forall t | t in q.workers :: q.workers[t] == Fresh || (t in p.workers && q.workers[t] == p.workers[t])
  {
    var p1 := Queued(p, kind);
    assert p1.workers == p.workers && p1.genericThread == p.genericThread && p1.maxThreads == p.maxThreads;
    assert Schedule(p, kind) == p || Schedule(p, kind) == TryToSpawnThreads(p1);
    hide Queued, Schedule;
    SpawnUpToKeepsOld(p1, p1.curThreads + 1);
  }

  lemma {:induction false} RunKeepsLone(states: seq<Pool>, labels: seq<Label>, n: nat)
    requires Run(states, labels) && n <= |labels|
    ensures Lone(states[n]) && states[n].maxThreads == states[0].maxThreads
  {
    if n > 0 {
      hide Next, Inv, Lone;
      RunKeepsLone(states, labels, n - 1);
      RunKeepsInv(states, labels, n - 1);
      assert Next(states[n - 1], labels[n - 1], states[n - 1 + 1]);
      NextKeepsLone(states[n - 1], labels[n - 1], states[n]);
    }
  }

  /** A task was accepted at step `k` while the only worker was leaving, and no thread was spawned since. */
  ghost predicate AcceptedTooLate(states: seq<Pool>, labels: seq<Label>, k: nat, n: nat)
    requires |states| == |labels| + 1 && n <= |labels|
  {
    && k < n && Accepting(states[k], labels[k], states[k + 1])
    && (exists t :: At(states[k], t, Leaving)) && states[k].nextTid == states[n].nextTid
  }

  lemma StrandsAlone(p: Pool, l: Label, q: Pool)
    requires Inv(p) && Lone(p) && Next(p, l, q) && p.maxThreads == 1 && p.nextTid == q.nextTid
    ensures Strands(p, l, q) <==> Accepting(p, l, q) && exists t :: At(p, t, Leaving)
  {
    hide Inv;
    if Strands(p, l, q) {
      if !AllLeaving(p) { HowTheLastLeaves(p, l, q); OneThread(p); }
      else { AcceptingFindsWorker(p, l, q); var t :| t in p.workers; assert At(p, t, Leaving); }
    } else if Accepting(p, l, q) {
      if t :| At(p, t, Leaving) {
        Alone(p, t);
        TidsGrow(p, l, q);
      }
    }
  }

  lemma OneThread(p: Pool)
    requires Inv(p) && p.maxThreads == 1
    ensures p.curThreads <= 1
  {
    hide Ordered, Locked, Led, Single;
  }

  lemma AcceptingFindsWorker(p: Pool, l: Label, q: Pool)
    requires Inv(p) && Next(p, l, q) && Accepting(p, l, q) && p.nextTid == q.nextTid && p.maxThreads == 1
    ensures p.workers != map[]
  {
    hide Ordered, Locked, Led, Single, Idlers, Pending;
    if p.workers == map[] {
      var p1 := Queued(p, l.kind);
      assert p1.curThreads == 0 && p1.queuedTaskCount + p1.genericTaskCount > 0 && p1.isStarted && p1.maxThreads == 1;
      assert q == TryToSpawnThreads(p1) && p1.nextTid == p.nextTid;
      hide Queued;
      assert SpawnUpTo(p1, 1).nextTid > p1.nextTid by { SpawnsOne(p1); }
    }
  }

  lemma SpawnsOne(p: Pool)
    requires p.curThreads == 0
    ensures SpawnUpTo(p, 1).nextTid == p.nextTid + 1
  {
    assert SpawnUpTo(Spawn(p), 1) == Spawn(p);
  }

  /** With one thread, whatever calls of Start, Stop and Schedule there are: Stop returns with every accepted task
      finished exactly if no task was accepted while the only worker was leaving, without a spawn since. */
  lemma SingleThreadDrainsIff(states: seq<Pool>, labels: seq<Label>, n: nat)
    requires Run(states, labels) && n < |labels| && labels[n] == DoStopReturn && states[n].maxThreads == 1
    ensures (forall id: TaskId | id < |states[n].log| :: id in states[n].finished) <==>
      !exists k: nat :: AcceptedTooLate(states, labels, k, n)
  {
    hide Inv, Lone, Next;
    StopDrainsIff(states, labels, n);
    RunKeepsLone(states, labels, n);
    forall k: nat | k < n ensures AcceptedTooLate(states, labels, k, n) <==> Stranded(states, labels, k, n) {
      RunKeepsInv(states, labels, k);
      RunKeepsLone(states, labels, k);
      assert Next(states[k], labels[k], states[k + 1]);
      LeavingLasts(states, labels, k, k + 1);
      LeavingLasts(states, labels, k + 1, n);
      if states[k].nextTid == states[n].nextTid { StrandsAlone(states[k], labels[k], states[k + 1]); }
    }
    assert forall k: nat :: AcceptedTooLate(states, labels, k, n) <==> Stranded(states, labels, k, n);
  }

  lemma OverlapStep(p: Pool, l: Label, q: Pool)
    requires Next(p, l, q) && p.overlapped
    ensures q.overlapped
  {
    match l
    case DoStart => SpawnUpToFresh(Begun(p), p.minThreads);
    case DoSchedule(kind) => SpawnUpToFresh(Queued(p, kind), p.curThreads + 1);
    case _ =>
  }

  lemma {:induction false} OverlapLasts(states: seq<Pool>, labels: seq<Label>, k: nat, n: nat)
    requires Run(states, labels) && k <= n <= |labels| && states[k].overlapped
    ensures states[n].overlapped
    decreases n - k
  {
    if k < n {
      hide Next;
      OverlapLasts(states, labels, k, n - 1);
      assert Next(states[n - 1], labels[n - 1], states[n - 1 + 1]);
      OverlapStep(states[n - 1], labels[n - 1], states[n]);
    }
  }

  /** So with one thread Stop drains the pool, unless some Start came while a Stop was waiting. */
  lemma SingleThreadDrains(states: seq<Pool>, labels: seq<Label>, n: nat)
    requires Run(states, labels) && n < |labels| && labels[n] == DoStopReturn
    requires states[n].maxThreads == 1 && !states[n].overlapped
    ensures forall id: TaskId | id < |states[n].log| :: id in states[n].finished
  {
    hide Next, Lone, Inv;
    SingleThreadDrainsIff(states, labels, n);
    RunKeepsLone(states, labels, n);
    forall k: nat ensures !AcceptedTooLate(states, labels, k, n) {
      if k < n {
        RunKeepsInv(states, labels, k);
        RunKeepsLone(states, labels, k);
        assert Next(states[k], labels[k], states[k + 1]);
        if states[k].overlapped { OverlapLasts(states, labels, k, n); }
        AcceptsWhenOpen(states[k], labels[k], states[k + 1]);
        if !states[k].isStopping && !states[k].overlapped { LeavesWhenStopping(states[k]); }
      }
    }
  }

  lemma AcceptsWhenOpen(p: Pool, l: Label, q: Pool)
    requires Next(p, l, q)
    ensures Accepting(p, l, q) ==> p.isStarted && !p.isStopping
  {
  }

  lemma LeavesWhenStopping(p: Pool)
    requires Inv(p) && p.maxThreads == 1 && !p.overlapped && !p.isStopping
    ensures forall t :: !At(p, t, Leaving)
  {
    hide Ordered, Locked, Counted, Led;
  }

  // ---------------------------------------------------------------- a started pool without workers

  /** Step `k` left a started pool with no worker that stays: a Start that found all workers leaving and spawned none,
      or a timeout of the last worker. */
  ghost predicate Abandoned(states: seq<Pool>, labels: seq<Label>, k: nat, n: nat)
    requires |states| == |labels| + 1 && n <= |labels|
  {
    && k < n && states[k].nextTid == states[n].nextTid && AllLeaving(states[k + 1])
    && ((labels[k].DoStart? && AllLeaving(states[k])) || (labels[k].DoWake? && !AllLeaving(states[k])))
  }

  /** Between Start and Stop, for any number of threads: all workers are gone or leaving exactly if some such step came
      before, and no thread was spawned since. */
  lemma {:induction false} DeadPoolIff(states: seq<Pool>, labels: seq<Label>, n: nat)
    requires Run(states, labels) && n <= |labels| && states[n].isStarted && !states[n].isStopping
    ensures AllLeaving(states[n]) <==> exists k: nat :: Abandoned(states, labels, k, n)
  {
    hide Next, AllLeaving, Inv;
    if k: nat :| Abandoned(states, labels, k, n) {
      LeavingLasts(states, labels, k, k + 1);
      LeavingLasts(states, labels, k + 1, n);
    }
    if AllLeaving(states[n]) && n > 0 {
      var m := n - 1;
      RunKeepsInv(states, labels, m);
      assert Next(states[m], labels[m], states[m + 1]);
      StrandStep(states[m], labels[m], states[n]);
      StillOpen(states[m], labels[m], states[n]);
      if labels[m].DoStart? && AllLeaving(states[m]) {
        assert Abandoned(states, labels, m, n);
      } else if AllLeaving(states[m]) {
        DeadPoolIff(states, labels, m);
        var k: nat :| Abandoned(states, labels, k, m);
        assert Abandoned(states, labels, k, n);
      } else {
        HowTheLastLeaves(states[m], labels[m], states[n]);
        assert Abandoned(states, labels, m, n);
      }
    }
  }

  lemma StillOpen(p: Pool, l: Label, q: Pool)
    requires Next(p, l, q) && q.isStarted && !q.isStopping
    ensures l.DoStart? || (p.isStarted && !p.isStopping)
  {
    if l.DoSchedule? { SpawnUpToFresh(Queued(p, l.kind), p.curThreads + 1); }
  }
}
