/** The in-memory preferences: edits, and the commits that stamp snapshots with generations. */
module PreferencesMemory {
  import opened PreferencesDisk

  type Key = string

  /** A commit: the whole map, the keys edited since the previous commit, and the generation. */
  datatype Request = Request(snapshot: Prefs, keysModified: seq<Key>, generation: nat, isSync: bool)

  datatype Memory = Memory(prefs: Prefs, modifiedKeys: seq<Key>, generation: nat)

  function Put(m: Memory, k: Key, v: Value): Memory {
    if k in m.prefs && m.prefs[k] == v then m
    else m.(prefs := m.prefs[k := v], modifiedKeys := m.modifiedKeys + [k])
  }

  function Delete(m: Memory, k: Key): Memory {
    if k in m.prefs then m.(prefs := m.prefs - {k}, modifiedKeys := m.modifiedKeys + [k]) else m
  }

  /** Clear records every key, in some order `keys`. */
  function Clear(m: Memory, keys: seq<Key>): Memory {
    m.(prefs := map[], modifiedKeys := m.modifiedKeys + keys)
  }

  function Commit(m: Memory, isSync: bool): (Memory, Request) {
    var g := m.generation + if m.modifiedKeys != [] then 1 else 0;
    (Memory(m.prefs, [], g), Request(m.prefs, m.modifiedKeys, g, isSync))
  }

  /** The fields of PreferencesImpl that `mutex_` protects, updated in place. */
  class PreferencesImpl {
    var prefs: Prefs
    var modifiedKeys: seq<Key>
    var currentMemoryStateGeneration: nat

    constructor (loaded: Prefs)
      ensures State() == Memory(loaded, [], 0)
    {
      prefs, modifiedKeys, currentMemoryStateGeneration := loaded, [], 0;
    }

    function State(): Memory
      reads this
    {
      Memory(prefs, modifiedKeys, currentMemoryStateGeneration)
    }

    method PutPreferencesValue(key: Key, value: Value)
      modifies this
      ensures State() == Put(old(State()), key, value)
    {
      if key in prefs && prefs[key] == value { return; }
      prefs := prefs[key := value];
      modifiedKeys := modifiedKeys + [key];
    }

    method DeleteKey(key: Key)
      modifies this
      ensures State() == Delete(old(State()), key)
    {
      if key in prefs {
        prefs := prefs - {key};
        modifiedKeys := modifiedKeys + [key];
      }
    }

    method ClearAll() returns (ghost keys: seq<Key>)
      modifies this
      ensures (forall k :: k in keys <==> k in old(prefs)) && |keys| == |old(prefs)|
      ensures State() == Clear(old(State()), keys)
    {
      keys := [];
      var rest := prefs.Keys;
      while rest != {}
        invariant rest <= prefs.Keys && prefs == old(prefs)
        invariant forall k :: k in keys <==> k in prefs.Keys - rest
        invariant |keys| + |rest| == |prefs.Keys|
        invariant modifiedKeys == old(modifiedKeys) + keys
        invariant currentMemoryStateGeneration == old(currentMemoryStateGeneration)
        decreases rest
      {
        var k :| k in rest;
        modifiedKeys := modifiedKeys + [k];
        keys := keys + [k];
        rest := rest - {k};
      }
      prefs := map[];
    }

    method CommitToMemory(isSync: bool) returns (request: Request)
      modifies this
      ensures (State(), request) == Commit(old(State()), isSync)
    {
      var keysModified := [];
      if modifiedKeys != [] {
        currentMemoryStateGeneration := currentMemoryStateGeneration + 1;
        keysModified := modifiedKeys;
        modifiedKeys := [];
      }
      request := Request(prefs, keysModified, currentMemoryStateGeneration, isSync);
    }
  }

  // ---------------------------------------------------------------- every edit and commit history

  datatype Edit = PutEdit(k: Key, v: Value) | DeleteEdit(k: Key) | ClearEdit(keys: seq<Key>) | CommitEdit(isSync: bool)

  /** A history: the memory, all requests so far, the map of each generation, and every recorded modification. */
  datatype History = History(mem: Memory, requests: seq<Request>, snaps: seq<Prefs>, log: seq<Key>)

  ghost predicate Enabled(h: History, e: Edit) {
    e.ClearEdit? ==> forall k :: k in h.mem.prefs <==> k in e.keys
  }

  /** The keys whose entry the edit really changes. */
  function Changed(prefs: Prefs, e: Edit): seq<Key> {
    match e
    case PutEdit(k, v) => if k in prefs && prefs[k] == v then [] else [k]
    case DeleteEdit(k) => if k in prefs then [k] else []
    case ClearEdit(keys) => keys
    case CommitEdit(_) => []
  }

  function Perform(h: History, e: Edit): History {
    var log := h.log + Changed(h.mem.prefs, e);
    match e
    case PutEdit(k, v) => h.(mem := Put(h.mem, k, v), log := log)
    case DeleteEdit(k) => h.(mem := Delete(h.mem, k), log := log)
    case ClearEdit(keys) => h.(mem := Clear(h.mem, keys), log := log)
    case CommitEdit(isSync) =>
      var (mem, request) := Commit(h.mem, isSync);
      History(mem, h.requests + [request],
              if mem.generation > h.mem.generation then h.snaps + [mem.prefs] else h.snaps, log)
  }

  function Loaded(prefs: Prefs): History { History(Memory(prefs, [], 0), [], [prefs], []) }

  function Replay(h: History, edits: seq<Edit>): History
    decreases |edits|
  {
    if edits == [] then h else Perform(Replay(h, edits[..|edits| - 1]), edits[|edits| - 1])
  }

  ghost predicate Legal(h: History, edits: seq<Edit>)
    decreases |edits|
  {
    edits == [] || (Legal(h, edits[..|edits| - 1]) && Enabled(Replay(h, edits[..|edits| - 1]), edits[|edits| - 1]))
  }

  /** `a` and `b` can differ only on `keys`. */
  ghost predicate AgreeOutside(a: Prefs, b: Prefs, keys: seq<Key>) {
    forall k | k !in keys :: (k in a <==> k in b) && (k in a && k in b ==> a[k] == b[k])
  }

  function Reported(requests: seq<Request>): seq<Key> {
    if requests == [] then [] else Reported(requests[..|requests| - 1]) + requests[|requests| - 1].keysModified
  }

  /** Some request opened generation `g`. */
  ghost predicate HasBump(requests: seq<Request>, g: nat) {
    exists i :: 0 <= i < |requests| && requests[i].generation == g && requests[i].keysModified != []
  }

  ghost predicate Consistent(h: History) {
    && |h.snaps| == h.mem.generation + 1
    && AgreeOutside(h.snaps[h.mem.generation], h.mem.prefs, h.mem.modifiedKeys)
    && (forall r | r in h.requests :: r.generation <= h.mem.generation && r.snapshot == h.snaps[r.generation])
    && (forall r | r in h.requests && r.keysModified != [] ::
          r.generation >= 1 && AgreeOutside(h.snaps[r.generation - 1], r.snapshot, r.keysModified))
    && Reported(h.requests) + h.mem.modifiedKeys == h.log
    && (forall g | 1 <= g <= h.mem.generation :: HasBump(h.requests, g))
  }

  lemma CommitKeeps(h: History, isSync: bool)
    requires Consistent(h)
    ensures Consistent(Perform(h, CommitEdit(isSync)))
  {
    hide HasBump;
    var t := Perform(h, CommitEdit(isSync));
    assert t.requests[..|h.requests|] == h.requests;
    if h.mem.modifiedKeys == [] { NothingChanged(h.snaps[h.mem.generation], h.mem.prefs); }
    hide AgreeOutside;
    forall r | r in t.requests
      ensures r.generation <= t.mem.generation && r.snapshot == t.snaps[r.generation]
      ensures r.keysModified != [] ==>
        r.generation >= 1 && AgreeOutside(t.snaps[r.generation - 1], r.snapshot, r.keysModified)
    {
      if r in h.requests { assert r.snapshot == h.snaps[r.generation]; }
    }
    AgreesWithItself(t.mem.prefs, t.mem.modifiedKeys);
    CommitBumps(h, isSync);
  }

  lemma NothingChanged(a: Prefs, b: Prefs)
    requires AgreeOutside(a, b, [])
    ensures a == b
  {
  }

  lemma AgreesWithItself(a: Prefs, keys: seq<Key>)
    ensures AgreeOutside(a, a, keys)
  {
  }

  /** Every generation stays opened, and a new one is opened by the new request. */
  lemma CommitBumps(h: History, isSync: bool)
    requires forall g | 1 <= g <= h.mem.generation :: HasBump(h.requests, g)
    ensures var t := Perform(h, CommitEdit(isSync)); forall g | 1 <= g <= t.mem.generation :: HasBump(t.requests, g)
  {
    var t, n := Perform(h, CommitEdit(isSync)), |h.requests|;
    forall g | 1 <= g <= t.mem.generation ensures HasBump(t.requests, g) {
      if g <= h.mem.generation {
        assert HasBump(h.requests, g);
        var i :| 0 <= i < n && h.requests[i].generation == g && h.requests[i].keysModified != [];
        assert t.requests[i] == h.requests[i];
      } else {
        assert t.requests[n].generation == g;
      }
    }
  }

  lemma PerformKeeps(h: History, e: Edit)
    requires Consistent(h) && Enabled(h, e)
    ensures Consistent(Perform(h, e))
  {
    if e.CommitEdit? {
      CommitKeeps(h, e.isSync);
    } else {
      assert Perform(h, e).mem.modifiedKeys == h.mem.modifiedKeys + Changed(h.mem.prefs, e);
    }
  }

  lemma {:induction false} ReplayKeeps(prefs: Prefs, edits: seq<Edit>)
    requires Legal(Loaded(prefs), edits)
    ensures Consistent(Replay(Loaded(prefs), edits))
    decreases |edits|
  {
    if edits != [] {
      ReplayKeeps(prefs, edits[..|edits| - 1]);
      PerformKeeps(Replay(Loaded(prefs), edits[..|edits| - 1]), edits[|edits| - 1]);
    }
  }

  /** Two requests of one generation carry the same map. */
  lemma SameGenerationSameMap(prefs: Prefs, edits: seq<Edit>, r: Request, q: Request)
    requires Legal(Loaded(prefs), edits)
    requires r in Replay(Loaded(prefs), edits).requests && q in Replay(Loaded(prefs), edits).requests
    requires r.generation == q.generation
    ensures r.snapshot == q.snapshot
  {
    hide Replay, Legal, AgreeOutside, HasBump;
    ReplayKeeps(prefs, edits);
  }

  /** Maps of successive generations differ only on the keys reported by the request that opened the later one. */
  lemma SuccessiveMapsDifferOnReported(prefs: Prefs, edits: seq<Edit>, r: Request, q: Request)
    requires Legal(Loaded(prefs), edits)
    requires r in Replay(Loaded(prefs), edits).requests && q in Replay(Loaded(prefs), edits).requests
    requires q.generation == r.generation + 1 && q.keysModified != []
    ensures AgreeOutside(r.snapshot, q.snapshot, q.keysModified)
  {
    hide Replay, Legal, AgreeOutside, HasBump;
    ReplayKeeps(prefs, edits);
  }

  /** Every generation was opened by a request, and all requests together with the keys still pending report
      every modification exactly once, in order. */
  lemma ModificationsReportedOnce(prefs: Prefs, edits: seq<Edit>)
    requires Legal(Loaded(prefs), edits)
    ensures var h := Replay(Loaded(prefs), edits);
      && Reported(h.requests) + h.mem.modifiedKeys == h.log
      && forall g | 1 <= g <= h.mem.generation :: HasBump(h.requests, g)
  {
    ReplayKeeps(prefs, edits);
  }
}
