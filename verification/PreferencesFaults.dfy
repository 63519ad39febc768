/** What a write fault can lead to: after one, any older request that still waits takes the disk back to its
    generation, and there is such a run. */
module PreferencesFaults {
  import opened PreferencesDisk
  import opened PreferencesMemory
  import opened PreferencesGenerations

  // ---------------------------------------------------------------- pieces of runs

  /** Consecutive states are related by the events. */
  ghost predicate Linked(states: seq<Store>, events: seq<Event>) {
    |states| == |events| + 1 && forall i | 0 <= i < |events| :: Next(states[i], events[i], states[i + 1])
  }

  ghost predicate Leads(s: Store, events: seq<Event>, t: Store) {
    exists states: seq<Store> :: Linked(states, events) && states[0] == s && states[|events|] == t
  }

  lemma LeadsOne(s: Store, e: Event, t: Store)
    requires Next(s, e, t)
    ensures Leads(s, [e], t)
  {
    assert Linked([s, t], [e]);
  }

  lemma LeadsOn(s: Store, a: seq<Event>, t: Store, b: seq<Event>, u: Store)
    requires Leads(s, a, t) && Leads(t, b, u)
    ensures Leads(s, a + b, u)
  {
    var x :| Linked(x, a) && x[0] == s && x[|a|] == t;
    var y :| Linked(y, b) && y[0] == t && y[|b|] == u;
    LinkedJoin(x, a, y, b);
  }

  lemma LinkedJoin(x: seq<Store>, a: seq<Event>, y: seq<Store>, b: seq<Event>)
    requires Linked(x, a) && Linked(y, b) && x[|a|] == y[0]
    ensures var states := x + y[1..];
      Linked(states, a + b) && states[0] == x[0] && states[|a|] == y[0] && states[|a + b|] == y[|b|]
  {
    hide Next;
    var states, events := x + y[1..], a + b;
    forall i | 0 <= i < |events| ensures Next(states[i], events[i], states[i + 1]) {
      if i < |a| { assert Next(x[i], a[i], x[i + 1]); } else { assert Next(y[i - |a|], b[i - |a|], y[i - |a| + 1]); }
    }
  }

  // ---------------------------------------------------------------- a request written without a file

  const WRITE_ALONE: seq<Event> := [FileOp(Complete)] + [FileOp(Complete)] + [FileOp(Complete)]

  ghost predicate Waits(s: Store, id: nat) {
    s.writer == Idle && id < |s.status| && s.status[id] == Waiting && id < |s.h.requests|
  }

  /** `s` once the request `id` was written. */
  function Wrote(s: Store, id: nat): Store
    requires id < |s.status| && id < |s.h.requests|
  {
    var r := s.h.requests[id];
    Store(s.h, s.status[id := Handled(Written)], Disk(Full(r.snapshot), Absent), r.generation, Idle, false)
  }

  /** A waiting request is written when there is no file, whatever its generation. */
  lemma WithoutFileAnyRequestIsWritten(s: Store, id: nat)
    requires Waits(s, id) && s.disk.file == Absent
    ensures Leads(s, [Take(id)] + WRITE_ALONE, Wrote(s, id))
  {
    var r := s.h.requests[id];
    var s1 := s.(writer := Busy(id, LookForFile), status := s.status[id := Active]);
    var s2 := s1.(writer := Busy(id, WriteFile));
    var s3 := s2.(disk := s.disk.(file := Full(r.snapshot)), writer := Busy(id, DropBackup));
    LeadsOne(s, Take(id), s1);
    LeadsOne(s1, FileOp(Complete), s2);
    LeadsOne(s2, FileOp(Complete), s3);
    assert s1.status[id := Handled(Written)] == s.status[id := Handled(Written)];
    LeadsOne(s3, FileOp(Complete), Wrote(s, id));
    hide Next, Leads;
    LeadsOn(s1, [FileOp(Complete)], s2, [FileOp(Complete)], s3);
    LeadsOn(s1, [FileOp(Complete)] + [FileOp(Complete)], s3, [FileOp(Complete)], Wrote(s, id));
    LeadsOn(s, [Take(id)], s1, WRITE_ALONE, Wrote(s, id));
  }

  /** In every run: once a write has failed, each waiting request that is older than the generation on disk can take
      it back to its own generation. */
  lemma AfterFaultStaleRequestFalls(states: seq<Store>, events: seq<Event>, n: nat, id: nat)
    requires Run(states, events) && n <= |events| && states[n].faulted && Waits(states[n], id)
    requires states[n].h.requests[id].generation < states[n].diskGeneration
    ensures Leads(states[n], [Take(id)] + WRITE_ALONE, Wrote(states[n], id))
    ensures Wrote(states[n], id).diskGeneration < states[n].diskGeneration
    ensures Load(Wrote(states[n], id).disk) == states[n].h.requests[id].snapshot
  {
    RunKeepsInv(states, events, n);
    WithoutFileAnyRequestIsWritten(states[n], id);
  }

  // ---------------------------------------------------------------- a failing write

  const WRITE_FAILS: seq<Event> := [FileOp(Error)] + [FileOp(Error)] + [FileOp(Error)] + [FileOp(Error)]

  /** `s` once the write of request `id` failed: the old file is the backup. */
  function Lost(s: Store, id: nat): Store
    requires id < |s.status|
  {
    s.(status := s.status[id := Handled(Failed)], disk := Disk(Absent, s.disk.file), faulted := true)
  }

  lemma WantedWriteMayFail(s: Store, id: nat)
    requires Waits(s, id) && s.disk.file != Absent && s.disk.bak == Absent
    requires StillWanted(s.diskGeneration, s.h.mem.generation, s.h.requests[id])
    ensures Leads(s, [Take(id)] + WRITE_FAILS, Lost(s, id))
  {
    var s1 := s.(writer := Busy(id, LookForFile), status := s.status[id := Active]);
    var s2 := s1.(writer := Busy(id, MoveAside));
    var s3 := s1.(writer := Busy(id, WriteFile), disk := Disk(Absent, s.disk.file));
    var s4 := s3.(writer := Busy(id, Discard));
    LeadsOne(s, Take(id), s1);
    LeadsOne(s1, FileOp(Error), s2);
    LeadsOne(s2, FileOp(Error), s3);
    LeadsOne(s3, FileOp(Error), s4);
    assert s1.status[id := Handled(Failed)] == s.status[id := Handled(Failed)];
    LeadsOne(s4, FileOp(Error), Lost(s, id));
    hide Next, Leads;
    LeadsOn(s1, [FileOp(Error)], s2, [FileOp(Error)], s3);
    LeadsOn(s1, [FileOp(Error)] + [FileOp(Error)], s3, [FileOp(Error)], s4);
    LeadsOn(s1, [FileOp(Error)] + [FileOp(Error)] + [FileOp(Error)], s4, [FileOp(Error)], Lost(s, id));
    LeadsOn(s, [Take(id)], s1, WRITE_FAILS, Lost(s, id));
  }

  // ---------------------------------------------------------------- a run in which the generation falls

  /** An edit and its asynchronous commit. */
  function Flush(v: int): seq<Event> { [Edit(PutEdit("k", IntValue(v)))] + [Edit(CommitEdit(false))] }

  function Flushed(s: Store, v: int): Store {
    var prefs := s.h.mem.prefs["k" := IntValue(v)];
    var g := s.h.mem.generation + 1;
    s.(h := History(Memory(prefs, [], g), s.h.requests + [Request(prefs, ["k"], g, false)], s.h.snaps + [prefs],
                    s.h.log + ["k"]),
       status := s.status + [Waiting])
  }

  lemma FlushLeads(s: Store, v: int)
    requires s.h.mem.modifiedKeys == [] && ("k" in s.h.mem.prefs ==> s.h.mem.prefs["k"] != IntValue(v))
    ensures Leads(s, Flush(v), Flushed(s, v))
  {
    var put, commit := PutEdit("k", IntValue(v)), CommitEdit(false);
    var s1 := s.(h := Perform(s.h, put));
    LeadsOne(s, Edit(put), s1);
    assert s1.h.mem.modifiedKeys == ["k"] && s1.h.log + [] == s1.h.log;
    LeadsOne(s1, Edit(commit), Flushed(s, v));
    LeadsOn(s, [Edit(put)], s1, [Edit(commit)], Flushed(s, v));
  }

  const NEW_STORE: Store := Store(Loaded(map[]), [], Disk(Absent, Absent), 0, Idle, false)

  /** Three flushes: generations 1, 2 and 3, all waiting. */
  function ThreeFlushed(): Store { Flushed(Flushed(Flushed(NEW_STORE, 1), 2), 3) }

  lemma ThreeFlushesLead()
    ensures Leads(NEW_STORE, Flush(1) + Flush(2) + Flush(3), ThreeFlushed())
  {
    hide Leads, Flush;
    var s1 := Flushed(NEW_STORE, 1);
    var s2 := Flushed(s1, 2);
    FlushLeads(NEW_STORE, 1);
    FlushLeads(s1, 2);
    FlushLeads(s2, 3);
    LeadsOn(NEW_STORE, Flush(1), s1, Flush(2), s2);
    LeadsOn(NEW_STORE, Flush(1) + Flush(2), s2, Flush(3), ThreeFlushed());
  }

  lemma ThreeFlushedFacts()
    ensures var s := ThreeFlushed();
      && s.writer == Idle && s.disk == Disk(Absent, Absent) && s.diskGeneration == 0 && s.h.mem.generation == 3
      && s.status == [Waiting, Waiting, Waiting] && |s.h.requests| == 3 && |s.h.snaps| == 4
      && (forall i | 0 <= i < 3 :: s.h.requests[i].generation == i + 1 && s.h.requests[i].snapshot == s.h.snaps[i + 1])
      && s.h.snaps[1] == map["k" := IntValue(1)] && s.h.snaps[2] == map["k" := IntValue(2)]
  {
    var s2 := Flushed(Flushed(NEW_STORE, 1), 2);
    assert |s2.h.requests| == 2 && |s2.h.snaps| == 3 && s2.h.mem.generation == 2;
  }

  /** The newer snapshot was on disk, then the older one is. */
  ghost predicate Falls(states: seq<Store>, events: seq<Event>, i: nat, n: nat) {
    && Run(states, events) && i < n <= |events|
    && states[i].diskGeneration == 2 && Load(states[i].disk) == map["k" := IntValue(2)]
    && states[n].diskGeneration == 1 && Load(states[n].disk) == map["k" := IntValue(1)]
  }

  /** Three flushes; the second is written, the third fails, then the first is written. */
  lemma GenerationCanFall()
    ensures exists states: seq<Store>, events: seq<Event>, i: nat, n: nat :: Falls(states, events, i, n)
  {
    hide Next, Leads, ThreeFlushed, Flush, WRITE_ALONE, WRITE_FAILS;
    var s3 := ThreeFlushed();
    ThreeFlushesLead();
    ThreeFlushedFacts();
    var s4 := Wrote(s3, 1);
    var s5 := Lost(s4, 2);
    var s6 := Wrote(s5, 0);
    WithoutFileAnyRequestIsWritten(s3, 1);
    WantedWriteMayFail(s4, 2);
    WithoutFileAnyRequestIsWritten(s5, 0);
    var up := Flush(1) + Flush(2) + Flush(3) + ([Take(1)] + WRITE_ALONE);
    var down := [Take(2)] + WRITE_FAILS + ([Take(0)] + WRITE_ALONE);
    LeadsOn(NEW_STORE, Flush(1) + Flush(2) + Flush(3), s3, [Take(1)] + WRITE_ALONE, s4);
    LeadsOn(s4, [Take(2)] + WRITE_FAILS, s5, [Take(0)] + WRITE_ALONE, s6);
    EmptyStoreIsInit(NEW_STORE);
    RunThrough(NEW_STORE, up, s4, down, s6);
    hide Run;
    var states :| Run(states, up + down) && |states| == |up + down| + 1 && states[|up|] == s4 && states[|up + down|] == s6;
    assert Falls(states, up + down, |up|, |up + down|);
  }

  lemma EmptyStoreIsInit(s: Store)
    requires s == Store(Loaded(map[]), [], Disk(Absent, Absent), 0, Idle, false)
    ensures Init(s)
  {
  }

  lemma RunThrough(s: Store, a: seq<Event>, t: Store, b: seq<Event>, u: Store)
    requires Init(s) && Leads(s, a, t) && Leads(t, b, u)
    ensures exists states: seq<Store> ::
      Run(states, a + b) && |states| == |a + b| + 1 && states[|a|] == t && states[|a + b|] == u
  {
    hide Next, Init;
    var x :| Linked(x, a) && x[0] == s && x[|a|] == t;
    var y :| Linked(y, b) && y[0] == t && y[|b|] == u;
    LinkedJoin(x, a, y, b);
    assert Run(x + y[1..], a + b);
  }
}
