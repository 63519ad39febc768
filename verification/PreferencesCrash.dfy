/** Writes, recoveries and crashes in any order: what a completed load can observe. */
module PreferencesCrash {
  import opened PreferencesDisk

  datatype Process =
    | Down
    | Loading(lpc: LoadPc)
    | Ready(mem: Prefs)                                 // after a completed load
    | Writing(mem: Prefs, m: Prefs, pc: WritePc, commits: nat)

  /** `committed` is the specification's view: the map of the last write that passed its commit point. */
  datatype State = State(disk: Disk, proc: Process, committed: Prefs)

  datatype Event =
    | Crash | Boot | LoadOp | LoadDone
    | BeginWrite(m: Prefs) | WriteOp(wanted: bool, pen: Pen) | EndWrite

  ghost predicate Init(s: State) { s.proc == Down && s.committed == Load(s.disk) }

  ghost predicate Next(s: State, e: Event, t: State) {
    match e
    case Crash => t == s.(proc := Down)
    case Boot => s.proc == Down && t == s.(proc := Loading(LookForBackup))
    case LoadOp =>
      s.proc.Loading? && s.proc.lpc != ReadFile
      && var (d, pc) := LoadStep(s.disk, s.proc.lpc); t == s.(disk := d, proc := Loading(pc))
    case LoadDone =>
      s.proc == Loading(ReadFile) && t == s.(proc := Ready(Contents(s.disk.file)))
    case BeginWrite(m) =>
      s.proc.Ready? && t == s.(proc := Writing(s.proc.mem, m, LookForFile, 0))
    case WriteOp(wanted, pen) =>
      s.proc.Writing? && !s.proc.pc.Ended?
      && var (d, pc) := WriteStep(s.disk, s.proc.pc, s.proc.m, wanted, pen);
         var commit := Commits(s.disk, s.proc.pc, pen);
         t == State(d, s.proc.(pc := pc, commits := s.proc.commits + if commit then 1 else 0),
                    if commit then s.proc.m else s.committed)
    case EndWrite =>
      s.proc.Writing? && s.proc.pc.Ended? && t == s.(proc := Ready(s.proc.mem))
  }

  ghost predicate Inv(s: State) {
    && s.committed == Load(s.disk)
    && (s.proc.Loading? && s.proc.lpc in {RemoveFile, RestoreBackup} ==> s.disk.bak != Absent)
    && (s.proc == Loading(ReadFile) ==> s.disk.bak == Absent)
    && (s.proc.Writing? ==>
          && AtPc(s.disk, s.proc.pc, s.proc.m)
          && s.proc.commits == match s.proc.pc
             case DropBackup => (if s.disk.bak == Absent then 1 else 0)
             case Ended(Written) => 1
             case _ => 0)
  }

  lemma NextKeepsInv(s: State, e: Event, t: State)
    requires Inv(s) && Next(s, e, t)
    ensures Inv(t)
  {
    match e
    case LoadOp => LoadStepKeeps(s.disk, s.proc.lpc);
    case WriteOp(wanted, pen) => WriteStepIsAtomic(s.disk, s.proc.pc, s.proc.m, wanted, pen);
    case _ =>
  }

  /** A run: consecutive states are related by the events. */
  ghost predicate Run(states: seq<State>, events: seq<Event>) {
    && |states| == |events| + 1 && Init(states[0])
    && forall i | 0 <= i < |events| :: Next(states[i], events[i], states[i + 1])
  }

  lemma {:induction false} RunKeepsInv(states: seq<State>, events: seq<Event>, n: nat)
    requires Run(states, events) && n <= |events|
    ensures Inv(states[n])
  {
    if n > 0 {
      RunKeepsInv(states, events, n - 1);
      NextKeepsInv(states[n - 1], events[n - 1], states[n]);
    }
  }

  /** However often the process stopped, a completed load reads exactly the last committed map. */
  lemma CompletedLoadReadsCommitted(states: seq<State>, events: seq<Event>, n: nat)
    requires Run(states, events) && n < |events| && events[n] == LoadDone
    ensures states[n + 1].proc == Ready(states[n].committed)
  {
    RunKeepsInv(states, events, n);
  }

  /** Between `i` and `n` the committed map either stayed, or is the whole map of a write active in between. */
  lemma {:induction false} CommittedIsOldOrWhole(states: seq<State>, events: seq<Event>, i: nat, n: nat)
    requires Run(states, events) && i <= n <= |events|
    ensures states[n].committed == states[i].committed
            || exists k | i <= k < n :: states[k].proc.Writing? && states[n].committed == states[k].proc.m
    decreases n - i
  {
    if i < n {
      CommittedIsOldOrWhole(states, events, i, n - 1);
      assert Next(states[n - 1], events[n - 1], states[n]);
    }
  }

  /** One commit point per write: none unless it reports success, exactly one if it does. */
  lemma OneCommitPerWrite(states: seq<State>, events: seq<Event>, n: nat)
    requires Run(states, events) && n <= |events| && states[n].proc.Writing?
    ensures states[n].proc.commits <= 1
    ensures states[n].proc.pc.Ended? ==> (states[n].proc.commits == 1 <==> states[n].proc.pc == Ended(Written))
    ensures states[n].proc.pc == Ended(Written) ==> states[n].committed == states[n].proc.m
  {
    RunKeepsInv(states, events, n);
  }

  lemma {:induction false} OnlyWriteIs(states: seq<State>, events: seq<Event>, i: nat, n: nat, m: Prefs)
    requires Run(states, events) && i < n <= |events| && events[i] == BeginWrite(m)
    requires forall k | i < k < n :: !events[k].BeginWrite?
    ensures states[n].proc.Writing? ==> states[n].proc.m == m
    decreases n - i
  {
    assert Next(states[n - 1], events[n - 1], states[n]);
    if i + 1 < n { OnlyWriteIs(states, events, i, n - 1, m); }
  }

  /** Crash atomicity: after a write of `m` has begun, stop the process between any two file operations of
      the write or of the following recoveries, any number of times: the load that completes reads the map
      committed before, or the whole of `m`. */
  lemma CrashAtomicity(states: seq<State>, events: seq<Event>, i: nat, n: nat, m: Prefs)
    requires Run(states, events) && i < n < |events| && events[i] == BeginWrite(m) && events[n] == LoadDone
    requires forall k | i < k < n :: !events[k].BeginWrite?
    ensures states[n + 1].proc in {Ready(states[i].committed), Ready(m)}
  {
    CompletedLoadReadsCommitted(states, events, n);
    CommittedIsOldOrWhole(states, events, i, n);
    assert Next(states[i], events[i], states[i + 1]);
    forall k | i < k < n && states[k].proc.Writing? ensures states[k].proc.m == m {
      OnlyWriteIs(states, events, i, k, m);
    }
  }
}
