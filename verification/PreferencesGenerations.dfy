/** Commits and write-back requests interleaved in any order, with any write faults: which generation is on disk. */
module PreferencesGenerations {
  import opened PreferencesDisk
  import opened PreferencesMemory

  datatype Status = Waiting | Active | Handled(outcome: Outcome)
  datatype Writer = Idle | Busy(id: nat, pc: WritePc)

  /** `status[i]` belongs to `h.requests[i]`. Requests run one at a time, in any order; `faulted` tells that the last
      write that was not skipped failed. */
  datatype Store = Store(
    h: History, status: seq<Status>, disk: Disk, diskGeneration: nat, writer: Writer, faulted: bool)

  datatype Event = Edit(e: PreferencesMemory.Edit) | Take(id: nat) | FileOp(pen: Pen)

  /** CheckRequestValidForStateGeneration. */
  predicate StillWanted(diskGeneration: nat, current: nat, r: Request) {
    diskGeneration < r.generation && (r.isSync || current == r.generation)
  }

  ghost predicate Init(s: Store) {
    && s.h == Loaded(Load(s.disk)) && s.status == [] && s.disk.bak == Absent
    && s.diskGeneration == 0 && s.writer == Idle && !s.faulted
  }

  predicate CanWrite(s: Store) {
    s.writer.Busy? && !s.writer.pc.Ended? && s.writer.id < |s.h.requests| && s.writer.id < |s.status|
  }

  /** The request being written. */
  function Current(s: Store): Request
    requires CanWrite(s)
  {
    s.h.requests[s.writer.id]
  }

  /** One file operation; the last one reports the outcome. */
  function AfterFileOp(s: Store, pen: Pen): Store
    requires CanWrite(s)
  {
    var r := Current(s);
    var (d, pc) := WriteStep(s.disk, s.writer.pc, r.snapshot, StillWanted(s.diskGeneration, s.h.mem.generation, r), pen);
    match pc
    case Ended(o) =>
      Store(s.h, s.status[s.writer.id := Handled(o)], d, if o == Written then r.generation else s.diskGeneration, Idle,
            if o == Skipped then s.faulted else o == Failed)
    case _ => s.(disk := d, writer := Busy(s.writer.id, pc))
  }

  ghost predicate Next(s: Store, e: Event, t: Store) {
    match e
    case Edit(e) =>
      Enabled(s.h, e)
      && t == s.(h := Perform(s.h, e), status := if e.CommitEdit? then s.status + [Waiting] else s.status)
    case Take(id) =>
      s.writer == Idle && id < |s.status| && s.status[id] == Waiting
      && t == s.(writer := Busy(id, LookForFile), status := s.status[id := Active])
    case FileOp(pen) => CanWrite(s) && t == AfterFileOp(s, pen)
  }

  // ---------------------------------------------------------------- what every step keeps

  /** Between writes: the file stands alone, or, after a fault, only its backup is left. */
  predicate AtRest(s: Store) {
    && (if s.faulted then s.disk.file == Absent else s.disk.bak == Absent)
    && (s.diskGeneration >= 1 ==> (if s.faulted then s.disk.bak else s.disk.file).Full?)
  }

  /** The write passed the generation check, or there was no file to check against. */
  predicate Newer(s: Store, r: Request) { s.diskGeneration >= 1 && !s.faulted ==> s.diskGeneration < r.generation }

  ghost predicate DiskOk(s: Store)
    requires |s.status| == |s.h.requests|
  {
    match s.writer
    case Idle => AtRest(s)
    case Busy(id, pc) =>
      && id < |s.status| && s.status[id] == Active && AtPc(s.disk, pc, s.h.requests[id].snapshot)
      && match pc
         case LookForFile => AtRest(s)
         case MoveAside => AtRest(s) && Newer(s, s.h.requests[id])
         case Ended(_) => false
         case _ => Newer(s, s.h.requests[id]) && (s.diskGeneration >= 1 ==> s.disk.bak.Full?)
  }

  /** The generation whose snapshot a load would read: the one on disk, unless a first file is complete already. */
  function Readable(s: Store): nat {
    if CanWrite(s) && s.writer.pc == DropBackup && s.disk.bak == Absent then Current(s).generation else s.diskGeneration
  }

  ghost predicate Inv(s: Store) {
    && Consistent(s.h) && |s.status| == |s.h.requests| && s.diskGeneration <= s.h.mem.generation
    && DiskOk(s)
    && Readable(s) < |s.h.snaps| && Load(s.disk) == s.h.snaps[Readable(s)]
    && (forall i | 0 <= i < |s.status| && s.status[i] == Active :: s.writer.Busy? && s.writer.id == i)
  }

  lemma EditKeepsInv(s: Store, e: PreferencesMemory.Edit, t: Store)
    requires Inv(s) && Next(s, Event.Edit(e), t)
    ensures Inv(t) && t.diskGeneration == s.diskGeneration && t.faulted == s.faulted
    ensures s.h.requests <= t.h.requests && s.h.snaps <= t.h.snaps && s.status <= t.status
  {
    hide AgreeOutside, Reported, HasBump;
    PerformKeeps(s.h, e);
  }

  lemma FileOpKeepsInv(s: Store, pen: Pen)
    requires Inv(s) && CanWrite(s)
    ensures Inv(AfterFileOp(s, pen))
  {
    hide AgreeOutside, Reported, HasBump;
    var r := Current(s);
    assert r in s.h.requests;
    WriteStepIsAtomic(s.disk, s.writer.pc, r.snapshot, StillWanted(s.diskGeneration, s.h.mem.generation, r), pen);
    hide Consistent;
    assert DiskOk(AfterFileOp(s, pen));
  }

  lemma NextKeepsInv(s: Store, e: Event, t: Store)
    requires Inv(s) && Next(s, e, t)
    ensures Inv(t)
  {
    match e
    case Edit(e) => EditKeepsInv(s, e, t);
    case FileOp(pen) => FileOpKeepsInv(s, pen);
    case Take(id) =>
  }

  /** One step: the generation on disk falls exactly when a write after a fault ends with an older request. */
  lemma FallsIff(s: Store, e: Event, t: Store)
    requires Inv(s) && Next(s, e, t)
    ensures t.diskGeneration < s.diskGeneration <==>
      e.FileOp? && s.writer.pc == DropBackup && s.faulted && Current(s).generation < s.diskGeneration
  {
    hide Consistent, Load;
  }

  // ---------------------------------------------------------------- every run

  ghost predicate Run(states: seq<Store>, events: seq<Event>) {
    && |states| == |events| + 1 && Init(states[0])
    && forall i | 0 <= i < |events| :: Next(states[i], events[i], states[i + 1])
  }

  lemma {:induction false} RunKeepsInv(states: seq<Store>, events: seq<Event>, n: nat)
    requires Run(states, events) && n <= |events|
    ensures Inv(states[n])
  {
    if n > 0 {
      RunKeepsInv(states, events, n - 1);
      NextKeepsInv(states[n - 1], events[n - 1], states[n]);
    }
  }

  /** Whatever fails: at every moment, even in the middle of a write, a load would read exactly the snapshot of the
      generation on disk, or of a first file that is complete and about to be reported. Between writes that snapshot
      is the file or, after a fault, the backup. */
  lemma FileHoldsItsGeneration(states: seq<Store>, events: seq<Event>, n: nat)
    requires Run(states, events) && n <= |events|
    ensures var s := states[n];
      && Readable(s) < |s.h.snaps| && Load(s.disk) == s.h.snaps[Readable(s)]
      && (s.diskGeneration >= 1 ==> Readable(s) == s.diskGeneration)
      && (s.writer == Idle && s.diskGeneration >= 1 ==>
            s.disk == if s.faulted then Disk(Absent, Full(s.h.snaps[s.diskGeneration]))
                      else Disk(Full(s.h.snaps[s.diskGeneration]), Absent))
  {
    hide Consistent;
    RunKeepsInv(states, events, n);
  }

  /** The generation on disk falls at a step exactly when that step ends a write after a fault, for a request older
      than the generation on disk: with no file, the generation check was not made. */
  lemma GenerationFallsIff(states: seq<Store>, events: seq<Event>, n: nat)
    requires Run(states, events) && n < |events|
    ensures states[n + 1].diskGeneration < states[n].diskGeneration <==>
      && events[n].FileOp? && CanWrite(states[n]) && states[n].writer.pc == DropBackup && states[n].faulted
      && Current(states[n]).generation < states[n].diskGeneration
  {
    RunKeepsInv(states, events, n);
    assert Next(states[n], events[n], states[n + 1]);
    FallsIff(states[n], events[n], states[n + 1]);
  }

  /** A synchronous request that ends without an error leaves its generation, or a later one, on disk: FlushSync
      tells the truth when it returns, whatever failed before. */
  lemma FlushSyncIsCoveredOnReturn(states: seq<Store>, events: seq<Event>, n: nat)
    requires Run(states, events) && n < |events| && events[n].FileOp? && CanWrite(states[n])
    requires states[n + 1].writer == Idle && Current(states[n]).isSync
    requires states[n + 1].status[states[n].writer.id] != Handled(Failed)
    ensures Current(states[n]).generation <= states[n + 1].diskGeneration < |states[n + 1].h.snaps|
    ensures Load(states[n + 1].disk) == states[n + 1].h.snaps[states[n + 1].diskGeneration]
  {
    RunKeepsInv(states, events, n);
    RunKeepsInv(states, events, n + 1);
    assert Next(states[n], events[n], states[n + 1]);
    hide Consistent, Load;
  }

  // ---------------------------------------------------------------- which requests are dropped

  /** The generation on disk covers the request, or a commit has come since and nobody waits for this one. */
  predicate Stale(s: Store, r: Request) {
    r.generation <= s.diskGeneration || (!r.isSync && r.generation < s.h.mem.generation)
  }

  /** In every run a request is skipped exactly at the look for the file, if there is one and the request is stale
      then; nothing else changes. If it is not skipped there, the write goes on: it moves the file aside, or starts
      writing where there is none. */
  lemma SkippedIff(states: seq<Store>, events: seq<Event>, n: nat)
    requires Run(states, events) && n < |events| && events[n].FileOp? && CanWrite(states[n])
    ensures var s, t, id, look := states[n], states[n + 1], states[n].writer.id, states[n].writer.pc == LookForFile;
      && |t.status| == |s.status|
      && (t.status[id] == Handled(Skipped) <==> look && s.disk.file != Absent && Stale(s, Current(s)))
      && (t.status[id] == Handled(Skipped) ==> t == s.(status := t.status, writer := Idle))
      && (look && t.status[id] != Handled(Skipped) ==>
            t == s.(writer := Busy(id, if s.disk.file == Absent then WriteFile else MoveAside)))
  {
    RunKeepsInv(states, events, n);
    assert Next(states[n], events[n], states[n + 1]);
    RequestsAreCommitted(states[n].h);
    hide Consistent, Load;
  }

  /** So with a file present, an asynchronous request that is not the newest at its check leaves the disk as it was:
      it has ended after that step, and until another request is taken nothing touches the disk. */
  lemma {:induction false} OutrunRequestLeavesDisk(states: seq<Store>, events: seq<Event>, i: nat, n: nat)
    requires Run(states, events) && i < n <= |events| && events[i].FileOp? && CanWrite(states[i])
    requires states[i].writer.pc == LookForFile && states[i].disk.file != Absent
    requires !Current(states[i]).isSync && Current(states[i]).generation < states[i].h.mem.generation
    requires forall k | i < k < n :: !events[k].Take?
    ensures states[n].writer == Idle && states[n].disk == states[i].disk
    ensures states[n].diskGeneration == states[i].diskGeneration
    decreases n
  {
    if n == i + 1 {
      SkippedIff(states, events, i);
    } else {
      OutrunRequestLeavesDisk(states, events, i, n - 1);
      hide Perform, Enabled;
      assert Next(states[n - 1], events[n - 1], states[n - 1 + 1]);
    }
  }

  // ---------------------------------------------------------------- while no fault is pending

  /** From step `i` to step `n` the last write that was not skipped had always succeeded. */
  ghost predicate Unfaulted(states: seq<Store>, i: nat, n: nat)
    requires i <= n <= |states|
  {
    forall k | i <= k < n :: !states[k].faulted
  }

  /** Then the generation on disk does not decrease. */
  lemma {:induction false} DiskGenerationIsMonotone(states: seq<Store>, events: seq<Event>, i: nat, n: nat)
    requires Run(states, events) && i <= n <= |events| && Unfaulted(states, i, n)
    ensures states[i].diskGeneration <= states[n].diskGeneration <= states[n].h.mem.generation
    decreases n - i
  {
    hide Next, Consistent, DiskOk, Init, Load;
    RunKeepsInv(states, events, n);
    if i < n {
      DiskGenerationIsMonotone(states, events, i, n - 1);
      GenerationFallsIff(states, events, n - 1);
    }
  }

  /** No file operation failed before step `n`. */
  ghost predicate FaultFree(events: seq<Event>, n: nat)
    requires n <= |events|
  {
    forall k | 0 <= k < n :: events[k] != FileOp(Error)
  }

  ghost predicate Settled(s: Store, i: nat)
    requires i < |s.status| == |s.h.requests|
  {
    s.status[i].Handled? ==>
      var r := s.h.requests[i];
      && (r.isSync || s.status[i].outcome == Written ==> r.generation <= s.diskGeneration)
      && (r.generation <= s.diskGeneration || r.generation < s.h.mem.generation)
  }

  /** Without faults every request that was handled is covered, or a newer one is still to come. */
  ghost predicate Covered(s: Store)
    requires |s.status| == |s.h.requests|
  {
    && !s.faulted && (s.writer.Busy? ==> s.writer.pc != Discard)
    && forall i | 0 <= i < |s.status| :: Settled(s, i)
  }

  lemma RequestsAreCommitted(h: History)
    requires Consistent(h)
    ensures forall i | 0 <= i < |h.requests| :: h.requests[i].generation <= h.mem.generation
  {
    hide AgreeOutside, Reported, HasBump;
  }

  lemma FileOpCovers(s: Store, pen: Pen)
    requires Inv(s) && Covered(s) && CanWrite(s) && pen != Error
    ensures Covered(AfterFileOp(s, pen))
  {
    RequestsAreCommitted(s.h);
    hide Consistent, Load, AtPc;
    var t := AfterFileOp(s, pen);
    forall i | 0 <= i < |t.status| ensures Settled(t, i) { assert Settled(s, i); }
  }

  lemma NextCovers(s: Store, e: Event, t: Store)
    requires Inv(s) && Covered(s) && Next(s, e, t) && Inv(t) && e != FileOp(Error)
    ensures Covered(t)
  {
    match e
    case Edit(edit) => {
      EditKeepsInv(s, edit, t);
      hide Consistent, Load;
      forall i | 0 <= i < |t.status| ensures Settled(t, i) {
        if i < |s.status| { assert Settled(s, i) && t.h.requests[i] == s.h.requests[i]; }
      }
    }
    case FileOp(pen) => FileOpCovers(s, pen);
    case Take(id) => forall i | 0 <= i < |t.status| ensures Settled(t, i) { assert Settled(s, i); }
  }

  lemma {:induction false} FaultFreeIsCovered(states: seq<Store>, events: seq<Event>, n: nat)
    requires Run(states, events) && n <= |events| && FaultFree(events, n)
    ensures Inv(states[n]) && Covered(states[n])
  {
    RunKeepsInv(states, events, n);
    if n > 0 {
      FaultFreeIsCovered(states, events, n - 1);
      assert Next(states[n - 1], events[n - 1], states[n - 1 + 1]);
      NextCovers(states[n - 1], events[n - 1], states[n]);
    }
  }

  /** FlushSync, without faults: once a synchronous request of generation g is handled, written or skipped, the
      generation on disk is and stays at least g, and a load reads its snapshot. */
  lemma FlushSyncIsDurable(states: seq<Store>, events: seq<Event>, i: nat, n: nat, id: nat)
    requires Run(states, events) && i <= n <= |events| && FaultFree(events, n) && id < |states[i].status|
    requires states[i].status[id].Handled? && id < |states[i].h.requests| && states[i].h.requests[id].isSync
    ensures states[i].h.requests[id].generation <= states[n].diskGeneration < |states[n].h.snaps|
    ensures states[n].diskGeneration >= 1 ==> Load(states[n].disk) == states[n].h.snaps[states[n].diskGeneration]
  {
    hide Next, Consistent, DiskOk, Init, Load;
    FaultFreeIsCovered(states, events, i);
    assert Settled(states[i], id);
    forall k | i <= k < n ensures !states[k].faulted { FaultFreeIsCovered(states, events, k); }
    DiskGenerationIsMonotone(states, events, i, n);
    RunKeepsInv(states, events, n);
    SnapsOf(states[n]);
    FileHoldsItsGeneration(states, events, n);
  }

  lemma SnapsOf(s: Store)
    requires Inv(s)
    ensures |s.h.snaps| == s.h.mem.generation + 1
  {
  }

  /** Without faults, once every request has run, the file is the newest committed generation. */
  lemma QuiescentFileIsNewest(states: seq<Store>, events: seq<Event>, n: nat)
    requires Run(states, events) && n <= |events| && FaultFree(events, n)
    requires forall i | 0 <= i < |states[n].status| :: states[n].status[i].Handled?
    requires states[n].h.mem.generation >= 1
    ensures states[n].diskGeneration == states[n].h.mem.generation
    ensures |states[n].h.snaps| == states[n].h.mem.generation + 1
    ensures states[n].disk == Disk(Full(states[n].h.snaps[states[n].h.mem.generation]), Absent)
  {
    var s := states[n];
    FaultFreeIsCovered(states, events, n);
    FileHoldsItsGeneration(states, events, n);
    assert HasBump(s.h.requests, s.h.mem.generation);
    var i :| 0 <= i < |s.h.requests| && s.h.requests[i].generation == s.h.mem.generation && s.h.requests[i].keysModified != [];
    assert Settled(s, i);
  }
}
