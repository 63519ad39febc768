/** What the map holds after any history of edits and commits, told from the edits alone. */
module PreferencesEdits {
  import opened PreferencesDisk
  import opened PreferencesMemory

  /** The edit decides what becomes of the key. */
  predicate Concerns(e: Edit, k: Key) {
    match e
    case PutEdit(key, _) => key == k
    case DeleteEdit(key) => key == k
    case ClearEdit(_) => true
    case CommitEdit(_) => false
  }

  /** Edit `i` is the last one that concerns the key. */
  ghost predicate LastOn(edits: seq<Edit>, k: Key, i: nat) {
    i < |edits| && Concerns(edits[i], k) && forall j | i < j < |edits| :: !Concerns(edits[j], k)
  }

  /** By the edits, the key has the value: the last one that concerns it put it there, or none does and it was loaded. */
  ghost predicate Stands(prefs: Prefs, edits: seq<Edit>, k: Key, v: Value) {
    || (exists i: nat :: LastOn(edits, k, i) && edits[i] == PutEdit(k, v))
    || ((forall i | 0 <= i < |edits| :: !Concerns(edits[i], k)) && k in prefs && prefs[k] == v)
  }

  ghost predicate Holds(prefs: Prefs, k: Key, v: Value) { k in prefs && prefs[k] == v }

  /** One more edit: it decides, or it leaves the key alone. */
  lemma StandsStep(prefs: Prefs, edits: seq<Edit>, e: Edit, k: Key, v: Value)
    ensures Stands(prefs, edits + [e], k, v) <==> if Concerns(e, k) then e == PutEdit(k, v) else Stands(prefs, edits, k, v)
  {
    var more, n := edits + [e], |edits|;
    assert more[n] == e && forall i | 0 <= i < n :: more[i] == edits[i];
    if Concerns(e, k) {
      assert LastOn(more, k, n);
    } else {
      assert forall i: nat :: LastOn(more, k, i) <==> LastOn(edits, k, i);
    }
  }

  lemma PerformDecides(h: History, e: Edit, k: Key, v: Value)
    requires Enabled(h, e)
    ensures Holds(Perform(h, e).mem.prefs, k, v) <==> if Concerns(e, k) then e == PutEdit(k, v) else Holds(h.mem.prefs, k, v)
  {
  }

  /** After any edits a key has a value exactly if the edits say so. */
  lemma {:induction false} EntryIff(prefs: Prefs, edits: seq<Edit>, k: Key, v: Value)
    requires Legal(Loaded(prefs), edits)
    ensures Holds(Replay(Loaded(prefs), edits).mem.prefs, k, v) <==> Stands(prefs, edits, k, v)
    decreases |edits|
  {
    if edits != [] {
      hide Stands, Perform, Enabled;
      var before, e := edits[..|edits| - 1], edits[|edits| - 1];
      EntryIff(prefs, before, k, v);
      PerformDecides(Replay(Loaded(prefs), before), e, k, v);
      StandsStep(prefs, before, e, k, v);
      assert edits == before + [e];
    }
  }

  /** How many commits there are. */
  function Commits(edits: seq<Edit>): nat {
    if edits == [] then 0 else Commits(edits[..|edits| - 1]) + if edits[|edits| - 1].CommitEdit? then 1 else 0
  }

  /** Every commit makes one request, and later edits leave it as it is. */
  lemma {:induction false} RequestsGrow(h: History, edits: seq<Edit>, n: nat)
    requires n <= |edits|
    ensures |Replay(h, edits).requests| == |h.requests| + Commits(edits)
    ensures Replay(h, edits[..n]).requests <= Replay(h, edits).requests
  {
    if n == |edits| { assert edits[..n] == edits; }
    if edits != [] {
      var before := edits[..|edits| - 1];
      RequestsGrow(h, before, if n < |edits| then n else |before|);
      if n < |edits| { assert before[..n] == edits[..n]; }
    }
  }

  /** The request of a commit, also after any later edits: it is synchronous if that commit was, and its snapshot holds
      exactly what the edits up to the commit say. */
  lemma SnapshotIff(prefs: Prefs, edits: seq<Edit>, n: nat, k: Key, v: Value)
    requires Legal(Loaded(prefs), edits) && n < |edits| && edits[n].CommitEdit?
    ensures var requests, i := Replay(Loaded(prefs), edits).requests, Commits(edits[..n]);
      && i < |requests| && requests[i].isSync == edits[n].isSync
      && (Holds(requests[i].snapshot, k, v) <==> Stands(prefs, edits[..n], k, v))
  {
    hide Stands, Holds, Legal;
    var h, before, upto := Loaded(prefs), edits[..n], edits[..n + 1];
    assert upto[..|upto| - 1] == before && upto[|upto| - 1] == edits[n];
    LegalPrefix(h, edits, n);
    EntryIff(prefs, before, k, v);
    RequestsGrow(h, before, 0);
    RequestsGrow(h, edits, n + 1);
    assert Replay(h, upto).requests[Commits(before)].snapshot == Replay(h, before).mem.prefs;
  }

  lemma {:induction false} LegalPrefix(h: History, edits: seq<Edit>, n: nat)
    requires Legal(h, edits) && n <= |edits|
    ensures Legal(h, edits[..n])
    decreases |edits|
  {
    if n < |edits| {
      LegalPrefix(h, edits[..|edits| - 1], n);
      assert edits[..|edits| - 1][..n] == edits[..n];
    } else {
      assert edits[..n] == edits;
    }
  }
}
