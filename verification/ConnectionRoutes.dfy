/** Which connection a statement runs on, when a session need not wait, and what a reopen replaces. */
module ConnectionRoutes {
  import opened Options
  import opened ConnectionPools

  lemma {:induction false} CountIsConstant(states: seq<System>, labels: seq<Label>, n: nat)
    requires Run(states, labels) && n <= |labels|
    ensures states[n].pool.readConnectionCount == states[0].pool.readConnectionCount
  {
    if n > 0 {
      CountIsConstant(states, labels, n - 1);
      assert Next(states[n - 1], labels[n - 1], states[n - 1 + 1]);
      StepKeepsCount(states[n - 1], labels[n - 1], states[n]);
    }
  }

  lemma StepKeepsCount(y: System, l: Label, z: System)
    requires Next(y, l, z)
    ensures z.pool.readConnectionCount == y.pool.readConnectionCount
  {
  }

  /** In every run, a session without a connection waits exactly if all connections of the kind it asks for are held. */
  lemma WaitsIff(states: seq<System>, labels: seq<Label>, n: nat, s: Sid, isReadOnly: bool)
    requires Run(states, labels) && n <= |labels| && s in states[n].sessions && states[n].sessions[s].connection.None?
    ensures var y := states[n];
      CanTake(y, s, isReadOnly) <==>
        if isReadOnly && y.pool.readConnectionCount > 0 then |Readers(y)| < y.pool.readConnectionCount
        else !exists t :: t in y.sessions && y.sessions[t].connection == Some(Write)
  {
    RunKeepsInv(states, labels, n);
    var y := states[n];
    if t :| t in y.sessions && y.sessions[t].connection == Some(Write) { assert IsWrite(y.sessions[t]); }
  }

  /** The read connection given back last is the next one taken: acquiring undoes the release. */
  lemma AcquireUndoesRelease(p: Pool, id: ConnId)
    requires p.readConnectionCount != 0 && p.idle >= 0
    ensures var q := Release(p, Read(id)); Available(q, true) && q.readConnections != [] && Acquire(q, true) == (p, Read(id))
  {
    assert (p.readConnections + [id])[..|p.readConnections|] == p.readConnections;
  }

  /** A reopen closes every connection that nobody holds and puts as many new ones in their place as the pool has read
      connections; held ones are not touched. */
  lemma ReOpenReplaces(states: seq<System>, labels: seq<Label>, n: nat, c: ConnId)
    requires Run(states, labels) && n < |labels| && labels[n] == DoReOpen
    ensures var p, q := states[n].pool, states[n + 1].pool;
      && states[n + 1].sessions == states[n].sessions && q.idle == p.idle && |q.readConnections| == p.readConnectionCount
      && (c in q.closed <==> c in p.closed || c in p.readConnections)
      && (c in q.readConnections ==> c !in p.readConnections && c !in p.closed && !exists s :: Holds(states[n], s, c))
  {
    RunKeepsInv(states, labels, n);
    assert Next(states[n], labels[n], states[n + 1]);
  }

  // ---------------------------------------------------------------- the connection of a statement

  /** What the connection is at each stage of a call that began without one; `detour` tells whether a pragma was
      executed, and `count` how many read connections the pool has. */
  predicate Routed(x: Session, count: nat, detour: bool) {
    match x.stage
    case Rest => true
    case Preparing(_) => !detour
    case Executing(ro, _) => x.connection.Some? && (x.connection.value.Read? <==> ro && count > 0 && !detour)
    case WantPragma(_, _) => x.connection.None? && detour
    case _ => x.connection.None? && !detour
  }

  lemma RoutedStep(y: System, l: Label, z: System, s: Sid, detour: bool)
    requires Next(y, l, z) && Inv(y) && s in y.sessions && y.sessions[s].stage != Rest && y.sessions[s].stage.entry == 0
    requires Routed(y.sessions[s], y.pool.readConnectionCount, detour)
    ensures s in z.sessions && (z.sessions[s].stage != Rest ==> z.sessions[s].stage.entry == 0)
    ensures Routed(z.sessions[s], z.pool.readConnectionCount, detour || l == LeaveForPragma(s))
  {
    hide Inv;
    InvCounts(y, s);
    StepKeepsCount(y, l, z);
    ReaderMeansCount(y, s);
    if l.DoReOpen? || l.s != s { Untouched(y, l, z, s); } else { OwnRoutedStep(y, l, z, detour); }
  }

  predicate Reading(x: Session) { x.connection.Some? && x.connection.value.Read? }

  lemma ReaderMeansCount(y: System, s: Sid)
    requires Inv(y) && s in y.sessions
    ensures Reading(y.sessions[s]) ==> y.pool.readConnectionCount > 0
  {
    assert Reading(y.sessions[s]) ==> s in Readers(y);
  }

  lemma OwnRoutedStep(y: System, l: Label, z: System, detour: bool)
    requires Next(y, l, z) && !l.DoReOpen? && l.s in y.sessions && InOrder(y.sessions[l.s])
    requires y.sessions[l.s].stage != Rest && y.sessions[l.s].stage.entry == 0
    requires Routed(y.sessions[l.s], y.pool.readConnectionCount, detour)
    requires Reading(y.sessions[l.s]) ==> y.pool.readConnectionCount > 0
    ensures l.s in z.sessions && (z.sessions[l.s].stage != Rest ==> z.sessions[l.s].stage.entry == 0)
    ensures Routed(z.sessions[l.s], z.pool.readConnectionCount, detour || l == LeaveForPragma(l.s))
  {
    hide Release, ReOpen;
  }

  /** The session went through the detour of ExecuteGetString for a pragma between call `n` and step `m`. */
  ghost predicate Detour(labels: seq<Label>, n: nat, m: nat, s: Sid)
    requires m <= |labels|
  {
    exists k :: n < k < m && labels[k] == LeaveForPragma(s)
  }

  lemma {:induction false} CallIsRouted(states: seq<System>, labels: seq<Label>, n: nat, m: nat, s: Sid)
    requires Run(states, labels) && InCall(states, labels, n, m, s) && s in states[n].sessions && states[n].sessions[s].useCount == 0
    ensures s in states[m].sessions && (states[m].sessions[s].stage != Rest ==> states[m].sessions[s].stage.entry == 0)
    ensures Routed(states[m].sessions[s], states[m].pool.readConnectionCount, Detour(labels, n, m, s))
  {
    hide Inv, Take, Give, AfterPrepare, AfterSecond;
    if m == n + 1 {
      RunKeepsInv(states, labels, n);
      InvCounts(states[n], s);
      assert Next(states[n], labels[n], states[n + 1]);
    } else {
      hide Next, Routed;
      CallIsRouted(states, labels, n, m - 1, s);
      RunKeepsInv(states, labels, m - 1);
      assert Next(states[m - 1], labels[m - 1], states[m - 1 + 1]);
      RoutedStep(states[m - 1], labels[m - 1], states[m], s, Detour(labels, n, m - 1, s));
      assert Detour(labels, n, m, s) <==> Detour(labels, n, m - 1, s) || labels[m - 1] == LeaveForPragma(s);
    }
  }

  /** An Execute call of a session that holds no connection runs its statement on a read connection exactly if it only
      reads, the pool has read connections, and the call makes no detour for a pragma. */
  lemma ReadsGoToReadConnectionsIff(states: seq<System>, labels: seq<Label>, n: nat, m: nat, s: Sid)
    requires Run(states, labels) && InCall(states, labels, n, m, s) && m < |labels| && labels[m] == DoExecute(s)
    requires s in states[n].sessions && states[n].sessions[s].useCount == 0
    ensures s in states[m].sessions && states[m].sessions[s].stage.Executing?
    ensures var before, after := states[m].attempts, states[m + 1].attempts;
      && |after| == |before| + 1
      && (after[|before|].connection.Read? <==>
            after[|before|].isReadOnly && states[0].pool.readConnectionCount > 0 && !Detour(labels, n, m, s))
  {
    hide Inv, Give, Detour;
    CallIsRouted(states, labels, n, m, s);
    CountIsConstant(states, labels, m);
    assert Next(states[m], labels[m], states[m + 1]);
  }

  /** A session that holds a connection keeps it through its Execute calls. */
  lemma HeldConnectionIsUsed(y: System, l: Label, z: System, s: Sid)
    requires Next(y, l, z) && Inv(y) && s in y.sessions && y.sessions[s].stage != Rest && y.sessions[s].stage.entry > 0
    ensures s in z.sessions && z.sessions[s].connection == y.sessions[s].connection
  {
    hide Inv;
    InvCounts(y, s);
    if l.DoReOpen? || l.s != s { Untouched(y, l, z, s); } else { OwnHeldStep(y, l, z); }
  }

  lemma OwnHeldStep(y: System, l: Label, z: System)
    requires Next(y, l, z) && !l.DoReOpen? && l.s in y.sessions && InOrder(y.sessions[l.s])
    requires y.sessions[l.s].stage != Rest && y.sessions[l.s].stage.entry > 0
    ensures l.s in z.sessions && z.sessions[l.s].connection == y.sessions[l.s].connection
  {
    hide Release, ReOpen, Acquire;
  }

  /** A prepared statement is refused exactly if it writes and the session holds a read connection; otherwise it is
      executed, at once or after acquiring a connection of the right kind. */
  lemma RefusedIff(states: seq<System>, labels: seq<Label>, n: nat, s: Sid)
    requires Run(states, labels) && n < |labels| && (labels[n] == AcquireSecond(s) || (labels[n].DoPrepare? && labels[n].s == s))
    ensures s in states[n].sessions && s in states[n + 1].sessions
    ensures var l, x, x' := labels[n], states[n].sessions[s], states[n + 1].sessions[s];
      if l.AcquireSecond? then
        && x.stage.WantSecond?
        && x'.stage == if !x.stage.isReadOnly && Reading(x) then Rest else Executing(x.stage.isReadOnly, x.stage.entry)
      else
        && x.stage.Preparing? && x.connection.Some?
        && match l.outcome
           case PrepareFailed => x'.stage == Rest
           case Prepared(ro) => x'.stage == if ro == Reading(x) then Executing(ro, x.stage.entry) else WantSecond(ro, x.stage.entry)
  {
    RunKeepsInv(states, labels, n);
    assert Next(states[n], labels[n], states[n + 1]);
    InvCounts(states[n], s);
    hide Inv, Release, ReOpen;
  }
}
