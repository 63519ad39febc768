/** The connection pool and the sessions that share it, as a transition system: a step is one critical section of
    the pool, or one session moving on in an Execute call. */
module ConnectionPools {
  import opened Options

  type ConnId = nat
  type Sid = nat

  datatype Connection = Write | Read(id: ConnId)

  /** The pool's fields; then the identity of the next connection, and the connections closed so far. */
  datatype Pool = Pool(
    writeUsed: bool, readConnections: seq<ConnId>, readConnectionCount: nat, idle: int,
    next: ConnId, closed: set<ConnId>)

  /** Where a session is in BeginExecuteSql and the Execute call around it; `entry` is the use count on entry. */
  datatype Stage =
    | Rest
    | WantFirst(assumeReadOnly: bool, entry: nat)     // before its first AcquireConnection
    | Preparing(entry: nat)                           // holds a connection, about to prepare
    | WantSecond(isReadOnly: bool, entry: nat)        // released the wrong kind, before acquiring the right one
    | WantPragma(isReadOnly: bool, entry: nat)        // ExecuteGetString of a pragma, before acquiring to write
    | Executing(isReadOnly: bool, entry: nat)

  datatype Session = Session(connection: Option<Connection>, useCount: nat, stage: Stage)

  /** A statement handed to a connection: whether it only reads, and where. */
  datatype Attempt = Attempt(isReadOnly: bool, connection: Connection)

  datatype System = System(pool: Pool, sessions: map<Sid, Session>, attempts: seq<Attempt>)

  // ---------------------------------------------------------------- the pool

  function Fresh(from: ConnId, n: nat): (r: seq<ConnId>)
    ensures |r| == n && forall i | 0 <= i < n :: r[i] == from + i
  {
    seq(n, i requires 0 <= i < n => from + i)
  }

  function NewPool(readConnectionCount: nat): Pool {
    Pool(false, Fresh(0, readConnectionCount), readConnectionCount, readConnectionCount, readConnectionCount, {})
  }

  predicate Reads(p: Pool, isReadOnly: bool) { isReadOnly && p.readConnectionCount != 0 }

  /** The wait in AcquireConnection is over. */
  predicate Available(p: Pool, isReadOnly: bool) { if Reads(p, isReadOnly) then p.idle > 0 else !p.writeUsed }

  function Acquire(p: Pool, isReadOnly: bool): (Pool, Connection)
    requires Available(p, isReadOnly) && (p.idle > 0 ==> p.readConnections != [])
  {
    if Reads(p, isReadOnly) then
      var last := |p.readConnections| - 1;
      (p.(readConnections := p.readConnections[..last], idle := p.idle - 1), Read(p.readConnections[last]))
    else (p.(writeUsed := true), Write)
  }

  function Release(p: Pool, c: Connection): Pool {
    match c
    case Write => p.(writeUsed := false)
    case Read(id) => p.(readConnections := p.readConnections + [id], idle := p.idle + 1)
  }

  /** InnerReOpenReadConnections, when every open succeeds: all connections in the vector are closed, and
      `readConnectionCount` new ones take their place. */
  function ReOpen(p: Pool): Pool {
    p.(closed := p.closed + (set c | c in p.readConnections),
       readConnections := Fresh(p.next, p.readConnectionCount), next := p.next + p.readConnectionCount)
  }

  // ---------------------------------------------------------------- a session and the pool

  predicate CanTake(y: System, s: Sid, isReadOnly: bool) {
    && s in y.sessions
    && (y.sessions[s].connection.None? ==>
          Available(y.pool, isReadOnly) && (y.pool.idle > 0 ==> y.pool.readConnections != []))
  }

  /** StoreSession::AcquireConnection, then the next stage. */
  function Take(y: System, s: Sid, isReadOnly: bool, stage: Stage): System
    requires CanTake(y, s, isReadOnly)
  {
    var x := y.sessions[s];
    if x.connection.Some? then y.(sessions := y.sessions[s := x.(useCount := x.useCount + 1, stage := stage)])
    else
      var (pool, c) := Acquire(y.pool, isReadOnly);
      y.(pool := pool, sessions := y.sessions[s := Session(Some(c), x.useCount + 1, stage)])
  }

  /** StoreSession::ReleaseConnection, then the next stage. */
  function Give(y: System, s: Sid, stage: Stage): System
    requires s in y.sessions
  {
    var x := y.sessions[s];
    if x.connection.None? || x.useCount == 0 then y.(sessions := y.sessions[s := x.(stage := stage)])
    else if x.useCount == 1 then
      y.(pool := Release(y.pool, x.connection.value), sessions := y.sessions[s := Session(None, 0, stage)])
    else y.(sessions := y.sessions[s := x.(useCount := x.useCount - 1, stage := stage)])
  }

  // ---------------------------------------------------------------- steps

  datatype Outcome = PrepareFailed | Prepared(isReadOnly: bool)

  datatype Label =
    | OpenSession(s: Sid)
    | DoReOpen
    | Hold(s: Sid, isReadOnly: bool)            // BeginStepQuery, BeginTransaction: acquire across calls
    | Unhold(s: Sid)                            // EndStepQuery, EndTransaction
    | Enter(s: Sid, assumeReadOnly: bool)       // an Execute call
    | AcquireFirst(s: Sid)
    | DoPrepare(s: Sid, outcome: Outcome)
    | AcquireSecond(s: Sid)
    | LeaveForPragma(s: Sid)
    | AcquirePragma(s: Sid)
    | DoExecute(s: Sid)

  predicate At(y: System, s: Sid) { s in y.sessions }

  function IsWrite(x: Session): bool { x.connection == Some(Write) }

  /** Every Execute sibling hands its statement to the session's connection. */
  function Attempted(y: System, s: Sid): seq<Attempt>
    requires s in y.sessions && y.sessions[s].stage.Executing? && y.sessions[s].connection.Some?
  {
    var x := y.sessions[s];
    y.attempts + [Attempt(x.stage.isReadOnly, x.connection.value)]
  }

  /** The connection's own check, made before it runs a statement. */
  predicate Accepted(a: Attempt) { a.isReadOnly || a.connection == Write }

  /** On a connection of the wrong kind, let it go and ask for the right kind. */
  function AfterPrepare(y: System, s: Sid, outcome: Outcome): System
    requires s in y.sessions && y.sessions[s].stage.Preparing?
  {
    var x := y.sessions[s];
    match outcome
    case PrepareFailed => Give(y, s, Rest)
    case Prepared(ro) =>
      if ro == IsWrite(x) then Give(y, s, WantSecond(ro, x.stage.entry))
      else y.(sessions := y.sessions[s := x.(stage := Executing(ro, x.stage.entry))])
  }

  /** A session that is still on a read connection cannot write. */
  function AfterSecond(y: System, s: Sid): System
    requires s in y.sessions && y.sessions[s].stage.WantSecond? && CanTake(y, s, y.sessions[s].stage.isReadOnly)
  {
    var ro, entry := y.sessions[s].stage.isReadOnly, y.sessions[s].stage.entry;
    var y' := Take(y, s, ro, Executing(ro, entry));
    if !ro && !IsWrite(y'.sessions[s]) then Give(y', s, Rest) else y'
  }

  ghost predicate Next(y: System, l: Label, z: System) {
    match l
    case OpenSession(s) => s !in y.sessions && z == y.(sessions := y.sessions[s := Session(None, 0, Rest)])
    case DoReOpen => z == y.(pool := ReOpen(y.pool))
    case Hold(s, ro) => At(y, s) && y.sessions[s].stage == Rest && CanTake(y, s, ro) && z == Take(y, s, ro, Rest)
    case Unhold(s) => At(y, s) && y.sessions[s].stage == Rest && z == Give(y, s, Rest)
    case Enter(s, ro) =>
      At(y, s) && y.sessions[s].stage == Rest
      && z == y.(sessions := y.sessions[s := y.sessions[s].(stage := WantFirst(ro, y.sessions[s].useCount))])
    case AcquireFirst(s) =>
      At(y, s) && y.sessions[s].stage.WantFirst? && CanTake(y, s, y.sessions[s].stage.assumeReadOnly)
      && z == Take(y, s, y.sessions[s].stage.assumeReadOnly, Preparing(y.sessions[s].stage.entry))
    case DoPrepare(s, outcome) =>
      At(y, s) && y.sessions[s].stage.Preparing? && z == AfterPrepare(y, s, outcome)
    case AcquireSecond(s) =>
      At(y, s) && y.sessions[s].stage.WantSecond? && CanTake(y, s, y.sessions[s].stage.isReadOnly)
      && z == AfterSecond(y, s)
    case LeaveForPragma(s) =>
      At(y, s) && y.sessions[s].stage.Executing?
      && z == Give(y, s, WantPragma(y.sessions[s].stage.isReadOnly, y.sessions[s].stage.entry))
    case AcquirePragma(s) =>
      At(y, s) && y.sessions[s].stage.WantPragma? && CanTake(y, s, false)
      && z == Take(y, s, false, Executing(y.sessions[s].stage.isReadOnly, y.sessions[s].stage.entry))
    case DoExecute(s) =>
      At(y, s) && y.sessions[s].stage.Executing? && y.sessions[s].connection.Some?
      && z == Give(y, s, Rest).(attempts := Attempted(y, s))
  }

  // ---------------------------------------------------------------- what every step keeps

  ghost predicate Holds(y: System, s: Sid, id: ConnId) { s in y.sessions && y.sessions[s].connection == Some(Read(id)) }

  /** The sessions that hold a read connection. */
  ghost function Readers(y: System): set<Sid> {
    set s | s in y.sessions && y.sessions[s].connection.Some? && y.sessions[s].connection.value.Read?
  }

  ghost predicate Distinct(y: System) {
    var p := y.pool;
    && (forall i, j | 0 <= i < j < |p.readConnections| :: p.readConnections[i] != p.readConnections[j])
    && (forall c | c in p.readConnections :: c < p.next && c !in p.closed)
    && (forall c | c in p.closed :: c < p.next)
    && (forall s: Sid, id: ConnId | Holds(y, s, id) :: id < p.next && id !in p.closed && id !in p.readConnections)
    && (forall s: Sid, t: Sid, id: ConnId | Holds(y, s, id) && Holds(y, t, id) :: s == t)
  }

  ghost predicate Balanced(y: System) {
    var p := y.pool;
    && 0 <= p.idle <= |p.readConnections| && p.idle + |Readers(y)| == p.readConnectionCount
    && (forall s | s in y.sessions && IsWrite(y.sessions[s]) :: p.writeUsed)
    && (forall s, t | s in y.sessions && t in y.sessions && IsWrite(y.sessions[s]) && IsWrite(y.sessions[t]) :: s == t)
    && (p.writeUsed ==> exists s :: s in y.sessions && IsWrite(y.sessions[s]))
  }

  /** How many more uses a stage holds than the call found on entry. */
  function Extra(stage: Stage): nat { if stage.Preparing? || stage.Executing? then 1 else 0 }

  /** A session holds a connection while its use count is positive, and each stage of an Execute call stands at a
      fixed distance from the count found on entry; a write is never about to run on a read connection. */
  predicate InOrder(x: Session) {
    && (x.connection.Some? <==> x.useCount > 0)
    && (x.stage != Rest ==> x.useCount == x.stage.entry + Extra(x.stage))
    && (x.stage.Executing? ==> x.stage.isReadOnly || IsWrite(x))
    && (x.stage.WantPragma? && !x.stage.isReadOnly && x.connection.Some? ==> IsWrite(x))
  }

  ghost predicate Counted(y: System, s: Sid)
    requires s in y.sessions
  {
    InOrder(y.sessions[s])
  }

  ghost predicate Inv(y: System) {
    && Distinct(y) && Balanced(y) && (forall s | s in y.sessions :: Counted(y, s))
    && (forall a | a in y.attempts :: Accepted(a))
  }

  function NewSystem(readConnectionCount: nat): System { System(NewPool(readConnectionCount), map[], []) }

  lemma NewIsInv(n: nat)
    ensures Inv(NewSystem(n))
  {
    assert Readers(NewSystem(n)) == {};
  }

  /** A session moves on without touching its connection. */
  lemma StageKeeps(y: System, s: Sid, x: Session)
    requires Inv(y) && s in y.sessions && x.connection == y.sessions[s].connection
    requires InOrder(x)
    ensures Inv(y.(sessions := y.sessions[s := x]))
  {
    var z := y.(sessions := y.sessions[s := x]);
    assert Readers(z) == Readers(y);
    assert forall t: Sid, id: ConnId :: Holds(z, t, id) <==> Holds(y, t, id);
    if z.pool.writeUsed {
      var t :| t in y.sessions && IsWrite(y.sessions[t]);
      assert t in z.sessions && IsWrite(z.sessions[t]);
    }
  }

  /** After taking the last connection of the vector. */
  lemma TakeReadsDistinct(y: System, s: Sid, stage: Stage)
    requires Distinct(y) && CanTake(y, s, true) && y.sessions[s].connection.None? && y.pool.readConnectionCount != 0
    ensures Distinct(Take(y, s, true, stage))
  {
    var z, last := Take(y, s, true, stage), |y.pool.readConnections| - 1;
    var taken := y.pool.readConnections[last];
    assert forall c | c in z.pool.readConnections :: c in y.pool.readConnections && c != taken;
    assert forall t: Sid, id: ConnId :: Holds(z, t, id) <==> if t == s then id == taken else Holds(y, t, id);
    hide Holds;
    assert taken in y.pool.readConnections;
  }

  lemma TakeReadsBalanced(y: System, s: Sid, stage: Stage)
    requires Balanced(y) && CanTake(y, s, true) && y.sessions[s].connection.None? && y.pool.readConnectionCount != 0
    ensures Balanced(Take(y, s, true, stage))
  {
    var z := Take(y, s, true, stage);
    assert Readers(z) == Readers(y) + {s};
    if z.pool.writeUsed {
      var t :| t in y.sessions && IsWrite(y.sessions[t]);
      assert t in z.sessions && IsWrite(z.sessions[t]);
    }
  }

  lemma TakeWrites(y: System, s: Sid, isReadOnly: bool, stage: Stage)
    requires Distinct(y) && Balanced(y) && CanTake(y, s, isReadOnly) && y.sessions[s].connection.None?
    requires !Reads(y.pool, isReadOnly)
    ensures Distinct(Take(y, s, isReadOnly, stage)) && Balanced(Take(y, s, isReadOnly, stage))
  {
    var z := Take(y, s, isReadOnly, stage);
    assert Readers(z) == Readers(y);
    assert forall t: Sid, id: ConnId :: Holds(z, t, id) <==> Holds(y, t, id);
    assert s in z.sessions && IsWrite(z.sessions[s]);
  }

  lemma TakeKeeps(y: System, s: Sid, isReadOnly: bool, stage: Stage)
    requires Inv(y) && CanTake(y, s, isReadOnly)
    requires InOrder(Take(y, s, isReadOnly, stage).sessions[s])
    ensures Inv(Take(y, s, isReadOnly, stage))
  {
    var x := y.sessions[s];
    if x.connection.Some? {
      StageKeeps(y, s, x.(useCount := x.useCount + 1, stage := stage));
    } else {
      hide Distinct, Balanced;
      if Reads(y.pool, isReadOnly) { TakeReadsDistinct(y, s, stage); TakeReadsBalanced(y, s, stage); } else { TakeWrites(y, s, isReadOnly, stage); }
      var z := Take(y, s, isReadOnly, stage);
      forall t | t in z.sessions ensures Counted(z, t) { assert t != s ==> Counted(y, t); }
    }
  }

  lemma GiveBackDistinct(y: System, s: Sid, stage: Stage)
    requires Distinct(y) && s in y.sessions && y.sessions[s].useCount == 1 && y.sessions[s].connection.Some?
    ensures Distinct(Give(y, s, stage))
  {
    var z, c := Give(y, s, stage), y.sessions[s].connection.value;
    assert forall t: Sid, id: ConnId :: Holds(z, t, id) <==> t != s && Holds(y, t, id);
    if c.Read? {
      assert Holds(y, s, c.id);
      assert forall d :: d in z.pool.readConnections <==> d == c.id || d in y.pool.readConnections;
    }
    hide Holds;
  }

  lemma GiveBackBalanced(y: System, s: Sid, stage: Stage)
    requires Balanced(y) && s in y.sessions && y.sessions[s].useCount == 1 && y.sessions[s].connection.Some?
    ensures Balanced(Give(y, s, stage))
  {
    var z, c := Give(y, s, stage), y.sessions[s].connection.value;
    if c.Read? {
      assert s in Readers(y) && Readers(z) == Readers(y) - {s};
      if z.pool.writeUsed {
        var t :| t in y.sessions && IsWrite(y.sessions[t]);
        assert t in z.sessions && IsWrite(z.sessions[t]);
      }
    } else {
      assert Readers(z) == Readers(y);
    }
  }

  lemma GiveKeeps(y: System, s: Sid, stage: Stage)
    requires Inv(y) && s in y.sessions
    requires InOrder(Give(y, s, stage).sessions[s])
    ensures Inv(Give(y, s, stage))
  {
    var x := y.sessions[s];
    assert Counted(y, s);
    if x.useCount == 0 {
      StageKeeps(y, s, x.(stage := stage));
    } else if x.useCount > 1 {
      StageKeeps(y, s, x.(useCount := x.useCount - 1, stage := stage));
    } else {
      hide Distinct, Balanced;
      GiveBackDistinct(y, s, stage);
      GiveBackBalanced(y, s, stage);
      var z := Give(y, s, stage);
      forall t | t in z.sessions ensures Counted(z, t) { assert t != s ==> Counted(y, t); }
    }
  }

  lemma ReOpenKeeps(y: System)
    requires Inv(y)
    ensures Inv(y.(pool := ReOpen(y.pool)))
  {
    var z := y.(pool := ReOpen(y.pool));
    assert Readers(z) == Readers(y);
    assert forall t: Sid, id: ConnId :: Holds(z, t, id) <==> Holds(y, t, id);
    assert forall s | s in z.sessions :: Counted(y, s) ==> Counted(z, s);
  }

  lemma OpenKeeps(y: System, s: Sid)
    requires Inv(y) && s !in y.sessions
    ensures Inv(y.(sessions := y.sessions[s := Session(None, 0, Rest)]))
  {
    var z := y.(sessions := y.sessions[s := Session(None, 0, Rest)]);
    assert Readers(z) == Readers(y);
    assert forall t: Sid, id: ConnId :: Holds(z, t, id) <==> Holds(y, t, id);
    forall t | t in z.sessions ensures Counted(z, t) { assert t != s ==> Counted(y, t); }
    if z.pool.writeUsed {
      var t :| t in y.sessions && IsWrite(y.sessions[t]);
      assert t in z.sessions && IsWrite(z.sessions[t]);
    }
  }

  lemma AcquireSecondKeeps(y: System, s: Sid)
    requires Inv(y) && s in y.sessions && y.sessions[s].stage.WantSecond? && CanTake(y, s, y.sessions[s].stage.isReadOnly)
    ensures Inv(AfterSecond(y, s))
  {
    hide Distinct, Balanced, Inv;
    InvCounts(y, s);
    var x := y.sessions[s];
    var ro, entry := x.stage.isReadOnly, x.stage.entry;
    // Until the kind of connection is known, the session is as before preparing.
    var taken := Take(y, s, ro, Preparing(entry));
    TakeKeeps(y, s, ro, Preparing(entry));
    if !ro && !IsWrite(taken.sessions[s]) {
      GiveKeeps(taken, s, Rest);
      assert AfterSecond(y, s) == Give(taken, s, Rest);
    } else {
      TakeKeeps(y, s, ro, Executing(ro, entry));
    }
  }

  lemma NextKeepsInv(y: System, l: Label, z: System)
    requires Inv(y) && Next(y, l, z)
    ensures Inv(z)
  {
    hide Distinct, Balanced, Inv;
    if l.OpenSession? { OpenKeeps(y, l.s); return; }
    if l.DoReOpen? { ReOpenKeeps(y); return; }
    var x := y.sessions[l.s];
    InvCounts(y, l.s);
    match l {
      case Hold(s, ro) => TakeKeeps(y, s, ro, Rest);
      case Unhold(s) => GiveKeeps(y, s, Rest);
      case Enter(s, ro) => StageKeeps(y, s, x.(stage := WantFirst(ro, x.useCount)));
      case AcquireFirst(s) => TakeKeeps(y, s, x.stage.assumeReadOnly, Preparing(x.stage.entry));
      case DoPrepare(s, outcome) => PrepareKeeps(y, s, outcome);
      case AcquireSecond(s) => AcquireSecondKeeps(y, s);
      case LeaveForPragma(s) => GiveKeeps(y, s, WantPragma(x.stage.isReadOnly, x.stage.entry));
      case AcquirePragma(s) => TakeKeeps(y, s, false, Executing(x.stage.isReadOnly, x.stage.entry));
      case DoExecute(s) => GiveKeeps(y, s, Rest); AttemptsKeep(Give(y, s, Rest), y, s);
    }
  }

  lemma PrepareKeeps(y: System, s: Sid, outcome: Outcome)
    requires Inv(y) && s in y.sessions && y.sessions[s].stage.Preparing?
    ensures Inv(AfterPrepare(y, s, outcome))
  {
    hide Distinct, Balanced, Inv;
    InvCounts(y, s);
    var x := y.sessions[s];
    match outcome
    case PrepareFailed => GiveKeeps(y, s, Rest);
    case Prepared(ro) =>
      if ro == IsWrite(x) { GiveKeeps(y, s, WantSecond(ro, x.stage.entry)); }
      else { StageKeeps(y, s, x.(stage := Executing(ro, x.stage.entry))); }
  }

  lemma InvCounts(y: System, s: Sid)
    requires Inv(y) && s in y.sessions
    ensures InOrder(y.sessions[s])
  {
    assert Counted(y, s);
  }

  lemma AttemptsKeep(z: System, y: System, s: Sid)
    requires Inv(z) && Inv(y) && s in y.sessions && y.sessions[s].stage.Executing? && y.sessions[s].connection.Some?
    ensures Inv(z.(attempts := Attempted(y, s)))
  {
    var w := z.(attempts := Attempted(y, s));
    assert Counted(y, s);
    assert Readers(w) == Readers(z);
    assert forall t: Sid, id: ConnId :: Holds(w, t, id) <==> Holds(z, t, id);
    assert forall t | t in w.sessions :: Counted(z, t) ==> Counted(w, t);
  }

  // ---------------------------------------------------------------- whole runs

  ghost predicate Run(states: seq<System>, labels: seq<Label>) {
    && |states| == |labels| + 1 && states[0] == NewSystem(states[0].pool.readConnectionCount)
    && forall i | 0 <= i < |labels| :: Next(states[i], labels[i], states[i + 1])
  }

  lemma {:induction false} RunKeepsInv(states: seq<System>, labels: seq<Label>, n: nat)
    requires Run(states, labels) && n <= |labels|
    ensures Inv(states[n])
  {
    hide Next, Inv;
    if n == 0 {
      NewIsInv(states[0].pool.readConnectionCount);
    } else {
      RunKeepsInv(states, labels, n - 1);
      assert Next(states[n - 1], labels[n - 1], states[n - 1 + 1]);
      NextKeepsInv(states[n - 1], labels[n - 1], states[n]);
    }
  }

  /** Idle and held read connections add up, and the vector always has the idle ones to give. */
  lemma ReadConnectionsAddUp(states: seq<System>, labels: seq<Label>, n: nat)
    requires Run(states, labels) && n <= |labels|
    ensures var p := states[n].pool;
      p.idle + |Readers(states[n])| == p.readConnectionCount && 0 <= p.idle <= |p.readConnections|
  {
    RunKeepsInv(states, labels, n);
  }

  /** No connection is held twice, is held and idle at once, or is closed while held. */
  lemma HeldConnectionsAreExclusive(states: seq<System>, labels: seq<Label>, n: nat, s: Sid, t: Sid)
    requires Run(states, labels) && n <= |labels| && s in states[n].sessions && t in states[n].sessions
    requires states[n].sessions[s].connection.Some?
    ensures s != t ==> states[n].sessions[s].connection != states[n].sessions[t].connection
    ensures match states[n].sessions[s].connection.value
      case Write => states[n].pool.writeUsed
      case Read(id) => id !in states[n].pool.closed && id !in states[n].pool.readConnections
  {
    RunKeepsInv(states, labels, n);
    var y := states[n];
    match y.sessions[s].connection.value
    case Write =>
    case Read(id) => {
      assert Holds(y, s, id);
      if y.sessions[t].connection == Some(Read(id)) { assert Holds(y, t, id); }
    }
  }

  /** No Execute call, nor the pragma detour, lets a write reach a read connection: the connection's own check never
      refuses. */
  lemma WritesGoToTheWriteConnection(states: seq<System>, labels: seq<Label>, n: nat, a: Attempt)
    requires Run(states, labels) && n <= |labels| && a in states[n].attempts
    ensures Accepted(a)
  {
    RunKeepsInv(states, labels, n);
  }

  /** From call `n` until the session is at rest again, only this session's own steps move its stage. */
  ghost predicate InCall(states: seq<System>, labels: seq<Label>, n: nat, m: nat, s: Sid) {
    && n < m <= |labels| < |states| && labels[n].Enter? && labels[n].s == s
    && forall k | n < k < m :: s in states[k].sessions && states[k].sessions[s].stage != Rest
  }

  lemma StepOfCall(y: System, l: Label, z: System, s: Sid)
    requires Next(y, l, z) && Inv(y) && s in y.sessions && y.sessions[s].stage != Rest
    ensures s in z.sessions
    ensures var x, x' := y.sessions[s], z.sessions[s];
      if x'.stage == Rest then x'.useCount == x.stage.entry else x'.stage.entry == x.stage.entry
  {
    hide Inv;
    InvCounts(y, s);
    if l.DoReOpen? || l.s != s { Untouched(y, l, z, s); } else { OwnStep(y, l, z); }
  }

  lemma Untouched(y: System, l: Label, z: System, s: Sid)
    requires Next(y, l, z) && s in y.sessions && (l.DoReOpen? || l.s != s)
    ensures s in z.sessions && z.sessions[s] == y.sessions[s]
  {
    hide Release, ReOpen, Acquire;
  }

  lemma OwnStep(y: System, l: Label, z: System)
    requires Next(y, l, z) && !l.DoReOpen? && l.s in y.sessions && y.sessions[l.s].stage != Rest && InOrder(y.sessions[l.s])
    ensures l.s in z.sessions
    ensures var x, x' := y.sessions[l.s], z.sessions[l.s];
      if x'.stage == Rest then x'.useCount == x.stage.entry else x'.stage.entry == x.stage.entry
  {
    hide Release, ReOpen, Acquire;
  }

  lemma {:induction false} EntryIsKept(states: seq<System>, labels: seq<Label>, n: nat, m: nat, s: Sid)
    requires Run(states, labels) && InCall(states, labels, n, m, s)
    ensures s in states[n].sessions && s in states[m].sessions
    ensures var x, was := states[m].sessions[s], states[n].sessions[s].useCount;
      if x.stage == Rest then x.useCount == was else x.stage.entry == was
  {
    hide Inv, Take, Give, AfterPrepare, AfterSecond;
    assert Next(states[n], labels[n], states[n + 1]);
    if m > n + 1 {
      EntryIsKept(states, labels, n, m - 1, s);
      RunKeepsInv(states, labels, m - 1);
      hide Next;
      assert Next(states[m - 1], labels[m - 1], states[m - 1 + 1]);
      StepOfCall(states[m - 1], labels[m - 1], states[m], s);
    }
  }

  /** Every Execute call, however it ends and whatever other sessions do meanwhile, restores the use count. */
  lemma ExecuteRestoresUseCount(states: seq<System>, labels: seq<Label>, n: nat, m: nat, s: Sid)
    requires Run(states, labels) && InCall(states, labels, n, m, s)
    requires s in states[m].sessions && states[m].sessions[s].stage == Rest
    ensures s in states[n].sessions && states[m].sessions[s].useCount == states[n].sessions[s].useCount
  {
    hide Run, InCall;
    EntryIsKept(states, labels, n, m, s);
  }
}
