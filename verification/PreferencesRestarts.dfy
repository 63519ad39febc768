/** Crashes and generations together: what a load reads after the process stopped at any point of a run. */
module PreferencesRestarts {
  import opened PreferencesDisk
  import opened PreferencesMemory
  import opened PreferencesGenerations

  /** Attempts to load: each step is one file operation of the recovery, or the process stops and starts over; the last
      state is that of a completed load. */
  ghost predicate Recovery(path: seq<(Disk, LoadPc)>) {
    && path != [] && path[0].1 == LookForBackup && path[|path| - 1].1 == ReadFile
    && forall i | 0 < i < |path| :: Attempt(path[i - 1], path[i])
  }

  predicate Attempt(a: (Disk, LoadPc), b: (Disk, LoadPc)) {
    b == (a.0, LookForBackup) || (a.1 != ReadFile && b == LoadStep(a.0, a.1))
  }

  lemma {:induction false} RecoveryKeeps(path: seq<(Disk, LoadPc)>, i: nat)
    requires Recovery(path) && i < |path|
    ensures Load(path[i].0) == Load(path[0].0)
    ensures path[i].1 in {RemoveFile, RestoreBackup} ==> path[i].0.bak != Absent
    ensures path[i].1 == ReadFile ==> path[i].0.bak == Absent
  {
    if i > 0 {
      RecoveryKeeps(path, i - 1);
      assert Attempt(path[i - 1], path[i]);
      if path[i - 1].1 != ReadFile { LoadStepKeeps(path[i - 1].0, path[i - 1].1); }
    }
  }

  /** The state of a process that has just loaded. */
  function Restarted(d: Disk): Store { Store(Loaded(Contents(d.file)), [], d, 0, Idle, false) }

  /** Stop a run at any state, with any write faults before, and recover with any number of further stops: the load reads
      the snapshot of the readable generation, and the process is in an initial state again. */
  lemma RestartReadsReadable(states: seq<Store>, events: seq<Event>, n: nat, path: seq<(Disk, LoadPc)>)
    requires Run(states, events) && n <= |events| && Recovery(path) && path[0].0 == states[n].disk
    ensures Readable(states[n]) < |states[n].h.snaps|
    ensures Contents(path[|path| - 1].0.file) == states[n].h.snaps[Readable(states[n])]
    ensures Init(Restarted(path[|path| - 1].0))
  {
    hide Run, Readable;
    FileHoldsItsGeneration(states, events, n);
    RecoveryKeeps(path, |path| - 1);
  }

  /** Without write faults: once FlushSync has returned for generation g, a load completed after any crashes reads the
      snapshot of some generation k >= g. */
  lemma FlushSyncSurvivesCrashes(states: seq<Store>, events: seq<Event>, i: nat, n: nat, id: nat, path: seq<(Disk, LoadPc)>)
    requires Run(states, events) && i <= n <= |events| && FaultFree(events, n)
    requires id < |states[i].status| && states[i].status[id].Handled?
    requires id < |states[i].h.requests| && states[i].h.requests[id].isSync
    requires Recovery(path) && path[0].0 == states[n].disk
    ensures exists k: nat :: states[i].h.requests[id].generation <= k < |states[n].h.snaps|
              && Contents(path[|path| - 1].0.file) == states[n].h.snaps[k]
  {
    hide Recovery, FaultFree;
    FlushSyncIsDurable(states, events, i, n, id);
    RestartReadsReadable(states, events, n, path);
    ReadableIsNotOlder(states, events, n);
    assert states[i].h.requests[id].generation <= Readable(states[n]);
  }

  lemma ReadableIsNotOlder(states: seq<Store>, events: seq<Event>, n: nat)
    requires Run(states, events) && n <= |events|
    ensures states[n].diskGeneration <= Readable(states[n])
  {
    hide Run;
    FileHoldsItsGeneration(states, events, n);
  }
}
