/** The transaction stack is the pool's, so every session of the pool works on the same one: when does an end reach
    the connection its BEGIN was issued on? */
module SharedTransactions {
  import opened Options
  import opened ConnectionPools
  import opened Transactions

  /** A statement of a transaction, the session that issued it, and that session's connection, if it had any. */
  datatype Issued = Issued(sql: Sql, s: Sid, connection: Option<Connection>)

  /** The pool and its sessions, the stack, and what was issued; then whether an end has dereferenced a missing
      connection, the session that made the outermost begin, how often each session holds a connection for other
      purposes, the sessions whose nests others ended (once for each), and the sessions that ended them. */
  datatype Store = Store(
    y: System, stack: seq<Transaction>, issued: seq<Issued>, crashed: bool,
    owner: Option<Sid>, holds: map<Sid, nat>, lost: multiset<Sid>, enders: set<Sid>)

  function NewStore(readConnectionCount: nat): Store {
    Store(NewSystem(readConnectionCount), [], [], false, None, map[], multiset{}, {})
  }

  datatype Move =
    | Join(s: Sid)                           // a new session
    | Work(l: Label)                         // a step of an Execute call, or a reopen
    | Hold(s: Sid, isReadOnly: bool)         // BeginStepQuery and the like
    | Unhold(s: Sid)
    | BeginBy(s: Sid, ok: bool)
    | MarkBy(s: Sid)
    | EndBy(s: Sid)

  function Said(t: Store, sql: Sql, s: Sid): Store
    requires s in t.y.sessions
  {
    t.(issued := t.issued + [Issued(sql, s, t.y.sessions[s].connection)])
  }

  /** The outermost BeginTransaction, once its wait is over. */
  function BeginOutermost(t: Store, s: Sid, ok: bool): Store
    requires CanTake(t.y, s, false)
  {
    var taken := t.(y := Take(t.y, s, false, Rest));
    if !IsWrite(taken.y.sessions[s]) then t.(y := Give(taken.y, s, Rest))
    else
      var begun := Said(taken, BeginExclusive, s);
      if !ok then begun.(y := Give(begun.y, s, Rest))
      else begun.(stack := [Transaction(true, false)], owner := Some(s))
  }

  function MarkTop(stack: seq<Transaction>): seq<Transaction> {
    if stack == [] then [] else stack[..|stack| - 1] + [stack[|stack| - 1].(marked := true)]
  }

  /** The nest is off the stack; if another session than its owner ended it, that is noted. */
  function Closed(t: Store, s: Sid): Store {
    var u := t.(stack := [], owner := None);
    if t.owner.None? || t.owner.value == s then u
    else u.(lost := t.lost + multiset{t.owner.value}, enders := t.enders + {s})
  }

  /** EndTransactionWithObserver of a nest by any session. */
  function EndNest(t: Store, s: Sid): Store
    requires s in t.y.sessions && |t.stack| == 1
  {
    if t.y.sessions[s].connection.None? then Closed(t, s).(crashed := true)
    else
      var sql := if t.stack[0].allBefore && t.stack[0].marked then Commit else Rollback;
      Closed(Said(t, sql, s), s).(y := Give(t.y, s, Rest))
  }

  /** EndTransactionWithObserver below the top of a nest. */
  function PopInner(stack: seq<Transaction>): seq<Transaction>
    requires |stack| > 1
  {
    var top, rest := stack[|stack| - 1], stack[..|stack| - 1];
    if top.allBefore && top.marked then rest
    else rest[..|rest| - 1] + [rest[|rest| - 1].(allBefore := false)]
  }

  predicate IsWork(l: Label) { !l.OpenSession? && !l.Hold? && !l.Unhold? }

  /** The session is not in an Execute call. */
  predicate AtRest(t: Store, s: Sid) { s in t.y.sessions && t.y.sessions[s].stage == Rest }

  ghost predicate Next(t: Store, m: Move, u: Store) {
    && !t.crashed
    && match m
       case Join(s) =>
         s !in t.y.sessions && s !in t.holds
         && u == t.(y := t.y.(sessions := t.y.sessions[s := Session(None, 0, Rest)]), holds := t.holds[s := 0])
       case Work(l) => IsWork(l) && u == t.(y := u.y) && ConnectionPools.Next(t.y, l, u.y)
       case Hold(s, ro) =>
         AtRest(t, s) && s in t.holds && CanTake(t.y, s, ro)
         && u == t.(y := Take(t.y, s, ro, Rest), holds := t.holds[s := t.holds[s] + 1])
       case Unhold(s) =>
         AtRest(t, s) && s in t.holds && t.holds[s] > 0
         && u == t.(y := Give(t.y, s, Rest), holds := t.holds[s := t.holds[s] - 1])
       case BeginBy(s, ok) =>
         AtRest(t, s)
         && if t.stack != [] then u == t.(stack := t.stack + [Transaction(true, false)])
            else CanTake(t.y, s, false) && u == BeginOutermost(t, s, ok)
       case MarkBy(s) => AtRest(t, s) && u == t.(stack := MarkTop(t.stack))
       case EndBy(s) =>
         AtRest(t, s)
         && if t.stack == [] then u == t
            else if |t.stack| == 1 then u == EndNest(t, s)
            else u == t.(stack := PopInner(t.stack))
  }

  /** This step ends the outermost transaction. */
  predicate EndsNest(t: Store, m: Move) { m.EndBy? && |t.stack| == 1 }

  // ---------------------------------------------------------------- what every step keeps

  /** The uses a session has, apart from those of an Execute call under way. */
  function Uses(x: Session): nat { if x.stage == Rest then x.useCount else x.stage.entry }

  function Own(t: Store, s: Sid): nat { if t.owner == Some(s) then 1 else 0 }

  /** One use for every hold, one for the nest the session began, and one for each of its nests that others ended. */
  ghost predicate Accounted(t: Store, s: Sid) {
    && s in t.y.sessions && s in t.holds
    && (s !in t.enders ==> Uses(t.y.sessions[s]) == t.holds[s] + Own(t, s) + t.lost[s])
  }

  ghost predicate OnWrite(t: Store, s: Sid) { s in t.y.sessions && IsWrite(t.y.sessions[s]) }

  /** The session that began the open nest, and any session whose nest another ended, is on the write connection. */
  ghost predicate Good(t: Store) {
    && Inv(t.y) && t.y.sessions.Keys == t.holds.Keys
    && (forall s | s in t.y.sessions :: Accounted(t, s))
    && (t.owner.Some? <==> t.stack != [])
    && (t.owner.Some? ==> OnWrite(t, t.owner.value) && t.owner.value !in t.enders)
    && (forall s | s in t.lost :: OnWrite(t, s) && s !in t.enders)
    && t.enders <= t.holds.Keys && (t.enders == {} <==> t.lost == multiset{})
  }

  lemma GiveLast(y: System, s: Sid, t: Sid)
    requires s in y.sessions && t in y.sessions && InOrder(y.sessions[s]) && y.sessions[s].stage == Rest
    ensures var z := Give(y, s, Rest);
      && z.sessions.Keys == y.sessions.Keys && (t != s ==> z.sessions[t] == y.sessions[t])
      && z.sessions[s].stage == Rest
      && z.sessions[s].useCount == (if y.sessions[s].useCount > 0 then y.sessions[s].useCount - 1 else 0)
      && (y.sessions[s].useCount > 1 ==> z.sessions[s].connection == y.sessions[s].connection)
      && InOrder(z.sessions[s])
  {
  }

  lemma TakeNext(y: System, s: Sid, ro: bool, t: Sid)
    requires CanTake(y, s, ro) && t in y.sessions && InOrder(y.sessions[s])
    ensures var z := Take(y, s, ro, Rest);
      && z.sessions.Keys == y.sessions.Keys && (t != s ==> z.sessions[t] == y.sessions[t])
      && z.sessions[s].stage == Rest && z.sessions[s].useCount == y.sessions[s].useCount + 1
      && (y.sessions[s].connection.Some? ==> z.sessions[s].connection == y.sessions[s].connection)
      && InOrder(z.sessions[s])
  {
  }

  lemma GiveSystem(y: System, s: Sid)
    requires Inv(y) && s in y.sessions && y.sessions[s].stage == Rest
    ensures Inv(Give(y, s, Rest)) && Give(y, s, Rest).sessions.Keys == y.sessions.Keys
    ensures forall t | t in y.sessions && t != s :: Give(y, s, Rest).sessions[t] == y.sessions[t]
  {
    hide Inv, Give;
    InvCounts(y, s);
    GiveLast(y, s, s);
    GiveKeeps(y, s, Rest);
    forall t | t in y.sessions && t != s ensures Give(y, s, Rest).sessions[t] == y.sessions[t] { GiveLast(y, s, t); }
  }

  lemma TakeSystem(y: System, s: Sid, ro: bool)
    requires Inv(y) && CanTake(y, s, ro) && y.sessions[s].stage == Rest
    ensures Inv(Take(y, s, ro, Rest)) && Take(y, s, ro, Rest).sessions.Keys == y.sessions.Keys
    ensures forall t | t in y.sessions && t != s :: Take(y, s, ro, Rest).sessions[t] == y.sessions[t]
  {
    hide Inv, Take;
    InvCounts(y, s);
    TakeNext(y, s, ro, s);
    TakeKeeps(y, s, ro, Rest);
    forall t | t in y.sessions && t != s ensures Take(y, s, ro, Rest).sessions[t] == y.sessions[t] { TakeNext(y, s, ro, t); }
  }

  /** Whoever is on the write connection is the only one there. */
  lemma OneOnWrite(t: Store, s: Sid, x: Sid)
    requires Inv(t.y) && OnWrite(t, s) && OnWrite(t, x)
    ensures s == x
  {
  }

  /** The new system keeps the connection of every session whose nest is open or lost, and the books balance. */
  lemma GoodAfter(t: Store, u: Store)
    requires Good(t) && Inv(u.y) && u.y.sessions.Keys == u.holds.Keys == t.holds.Keys
    requires u.stack == t.stack && u.owner == t.owner && u.lost == t.lost && u.enders == t.enders
    requires forall s | s in t.y.sessions && (t.owner == Some(s) || s in t.lost) :: u.y.sessions[s].connection == t.y.sessions[s].connection
    requires forall s | s in t.y.sessions && s !in t.enders ::
      Uses(u.y.sessions[s]) + t.holds[s] == Uses(t.y.sessions[s]) + u.holds[s]
    ensures Good(u)
  {
    hide Inv, Uses;
    forall s | s in u.y.sessions ensures Accounted(u, s) { assert Accounted(t, s); }
    forall s | s in t.lost ensures OnWrite(u, s) { assert OnWrite(t, s); }
  }

  lemma HoldKeeps(t: Store, s: Sid, ro: bool)
    requires Good(t) && AtRest(t, s) && CanTake(t.y, s, ro)
    ensures Good(t.(y := Take(t.y, s, ro, Rest), holds := t.holds[s := t.holds[s] + 1]))
  {
    hide Inv, Take, InOrder;
    InvCounts(t.y, s);
    TakeSystem(t.y, s, ro);
    TakeNext(t.y, s, ro, s);
    assert s in t.lost ==> OnWrite(t, s);
    GoodAfter(t, t.(y := Take(t.y, s, ro, Rest), holds := t.holds[s := t.holds[s] + 1]));
  }

  lemma UnholdKeeps(t: Store, s: Sid)
    requires Good(t) && AtRest(t, s) && t.holds[s] > 0
    ensures Good(t.(y := Give(t.y, s, Rest), holds := t.holds[s := t.holds[s] - 1]))
  {
    hide Inv, Give, InOrder;
    assert Accounted(t, s);
    InvCounts(t.y, s);
    GiveSystem(t.y, s);
    GiveLast(t.y, s, s);
    assert s in t.lost ==> OnWrite(t, s);
    GoodAfter(t, t.(y := Give(t.y, s, Rest), holds := t.holds[s := t.holds[s] - 1]));
  }

  /** A session that has a use outside its Execute calls keeps its connection during them. */
  lemma WorkOfSession(y: System, l: Label, z: System, s: Sid)
    requires Inv(y) && IsWork(l) && ConnectionPools.Next(y, l, z) && s in y.sessions
    ensures s in z.sessions && Uses(z.sessions[s]) == Uses(y.sessions[s])
    ensures Uses(y.sessions[s]) > 0 ==> z.sessions[s].connection == y.sessions[s].connection
  {
    hide Inv;
    InvCounts(y, s);
    if l.DoReOpen? || l.s != s { Untouched(y, l, z, s); } else { WorkOfOwn(y, l, z); }
  }

  lemma WorkOfOwn(y: System, l: Label, z: System)
    requires IsWork(l) && !l.DoReOpen? && ConnectionPools.Next(y, l, z) && l.s in y.sessions && InOrder(y.sessions[l.s])
    ensures l.s in z.sessions && Uses(z.sessions[l.s]) == Uses(y.sessions[l.s])
    ensures Uses(y.sessions[l.s]) > 0 ==> z.sessions[l.s].connection == y.sessions[l.s].connection
  {
    hide Release, ReOpen, Acquire;
  }

  lemma NoNewSession(y: System, l: Label, z: System)
    requires IsWork(l) && ConnectionPools.Next(y, l, z)
    ensures z.sessions.Keys == y.sessions.Keys
  {
    hide Release, ReOpen, Acquire;
  }

  lemma WorkKeeps(t: Store, l: Label, z: System)
    requires Good(t) && IsWork(l) && ConnectionPools.Next(t.y, l, z)
    ensures Good(t.(y := z))
  {
    hide Inv, ConnectionPools.Next, IsWork, Uses;
    ConnectionPools.NextKeepsInv(t.y, l, z);
    NoNewSession(t.y, l, z);
    forall s | s in t.y.sessions
      ensures Uses(z.sessions[s]) == Uses(t.y.sessions[s])
      ensures t.owner == Some(s) || s in t.lost ==> z.sessions[s].connection == t.y.sessions[s].connection
    {
      assert Accounted(t, s);
      WorkOfSession(t.y, l, z, s);
    }
    GoodAfter(t, t.(y := z));
  }

  lemma TakeGive(y: System, s: Sid)
    requires Inv(y) && CanTake(y, s, false) && y.sessions[s].stage == Rest
    ensures var z := Give(Take(y, s, false, Rest), s, Rest);
      && Inv(z) && z.sessions.Keys == y.sessions.Keys
      && (forall t | t in y.sessions && t != s :: z.sessions[t] == y.sessions[t])
      && z.sessions[s].stage == Rest && z.sessions[s].useCount == y.sessions[s].useCount
      && (y.sessions[s].connection.Some? ==> z.sessions[s].connection == y.sessions[s].connection)
  {
    hide Inv, Take, Give, InOrder;
    InvCounts(y, s);
    TakeSystem(y, s, false);
    TakeNext(y, s, false, s);
    InvCounts(Take(y, s, false, Rest), s);
    GiveSystem(Take(y, s, false, Rest), s);
    GiveLast(Take(y, s, false, Rest), s, s);
  }

  /** The begin of a nest: its session is on the write connection, so no other session has lost a nest. */
  lemma BegunKeeps(t: Store, s: Sid, u: Store)
    requires Good(t) && t.owner == None && AtRest(t, s) && CanTake(t.y, s, false)
    requires u == t.(y := Take(t.y, s, false, Rest), stack := u.stack, issued := u.issued, owner := Some(s)) && u.stack != []
    requires OnWrite(u, s)
    ensures Good(u)
  {
    hide Inv, Take, InOrder, CanTake, IsWrite;
    InvCounts(t.y, s);
    TakeSystem(t.y, s, false);
    TakeNext(t.y, s, false, s);
    forall x | x in u.y.sessions ensures Accounted(u, x) { assert Accounted(t, x); }
    forall x | x in t.lost ensures OnWrite(u, x) && x == s {
      assert OnWrite(t, x);
      OneOnWrite(u, s, x);
    }
    assert t.lost != multiset{} ==> s in t.lost;
  }

  lemma BeginKeeps(t: Store, s: Sid, ok: bool)
    requires Good(t) && t.stack == [] && AtRest(t, s) && CanTake(t.y, s, false)
    ensures Good(BeginOutermost(t, s, ok))
  {
    hide Inv, Take, Give, InOrder, CanTake, Good;
    var u := BeginOutermost(t, s, ok);
    RestsOnInv(t);
    TakeSystem(t.y, s, false);
    if u.owner.Some? {
      BegunKeeps(t, s, u);
    } else {
      TakeGive(t.y, s);
      UndoneKeeps(t, s, u);
    }
  }

  lemma RestsOnInv(t: Store)
    requires Good(t)
    ensures Inv(t.y) && (t.owner.None? <==> t.stack == []) && (t.owner.Some? ==> OnWrite(t, t.owner.value))
  {
  }

  lemma UndoneKeeps(t: Store, s: Sid, u: Store)
    requires Good(t) && t.stack == [] && u == t.(y := u.y, issued := u.issued) && Inv(u.y)
    requires s in t.y.sessions && u.y.sessions.Keys == t.y.sessions.Keys
    requires forall x | x in t.y.sessions && x != s :: u.y.sessions[x] == t.y.sessions[x]
    requires t.y.sessions[s].connection.Some? ==> u.y.sessions[s].connection == t.y.sessions[s].connection
    requires Uses(t.y.sessions[s]) == Uses(u.y.sessions[s])
    ensures Good(u)
  {
    hide Inv;
    assert s in t.lost ==> OnWrite(t, s);
    GoodAfter(t, u);
  }

  lemma EndKeeps(t: Store, s: Sid)
    requires Good(t) && AtRest(t, s) && |t.stack| == 1
    ensures Good(EndNest(t, s))
  {
    hide Inv, Give, Good;
    var u := EndNest(t, s);
    RestsOnInv(t);
    InvCounts(t.y, s);
    GiveSystem(t.y, s);
    GiveLast(t.y, s, s);
    if t.owner == Some(s) { OwnEndKeeps(t, s, u); } else { ForeignEndKeeps(t, s, u); }
  }

  lemma OwnEndKeeps(t: Store, s: Sid, u: Store)
    requires Good(t) && AtRest(t, s) && t.owner == Some(s) && Inv(u.y)
    requires u == t.(y := u.y, issued := u.issued, crashed := u.crashed, stack := [], owner := None)
    requires u.y.sessions.Keys == t.y.sessions.Keys && Uses(u.y.sessions[s]) + 1 == Uses(t.y.sessions[s])
    requires forall x | x in t.y.sessions && x != s :: u.y.sessions[x] == t.y.sessions[x]
    requires Uses(u.y.sessions[s]) > 0 ==> u.y.sessions[s].connection == t.y.sessions[s].connection
    ensures Good(u)
  {
    hide Inv, Uses;
    forall x | x in u.y.sessions ensures Accounted(u, x) { assert Accounted(t, x); }
    assert Accounted(t, s);
    forall x | x in t.lost ensures OnWrite(u, x) { assert OnWrite(t, x); }
  }

  /** The owner keeps the use it made for the nest. */
  lemma ForeignEndKeeps(t: Store, s: Sid, u: Store)
    requires Good(t) && s in t.y.sessions && t.owner.Some? && t.owner.value != s && Inv(u.y)
    requires u == Closed(t, s).(y := u.y, issued := u.issued, crashed := u.crashed)
    requires u.y.sessions.Keys == t.y.sessions.Keys
    requires forall x | x in t.y.sessions && x != s :: u.y.sessions[x] == t.y.sessions[x]
    ensures Good(u)
  {
    hide Inv, Uses, IsWrite;
    var o := t.owner.value;
    forall x | x in u.y.sessions ensures Accounted(u, x) { assert Accounted(t, x); }
    forall x | x in u.lost ensures x == o && OnWrite(u, x) {
      assert OnWrite(t, x);
      OneOnWrite(t, o, x);
    }
    assert o in u.lost;
  }

  lemma JoinKeeps(t: Store, s: Sid)
    requires Good(t) && s !in t.y.sessions
    ensures Good(t.(y := t.y.(sessions := t.y.sessions[s := Session(None, 0, Rest)]), holds := t.holds[s := 0]))
  {
    hide Inv;
    OpenKeeps(t.y, s);
    var u := t.(y := t.y.(sessions := t.y.sessions[s := Session(None, 0, Rest)]), holds := t.holds[s := 0]);
    forall x | x in u.y.sessions ensures Accounted(u, x) { assert x != s ==> Accounted(t, x); }
    forall x | x in t.lost ensures OnWrite(u, x) { assert OnWrite(t, x); }
    assert s in t.lost ==> OnWrite(t, s);
  }

  /** Every step keeps this, whichever session begins, marks and ends. */
  lemma NextKeepsGood(t: Store, m: Move, u: Store)
    requires Good(t) && Next(t, m, u)
    ensures Good(u)
  {
    hide Good;
    match m
    case Join(s) => JoinKeeps(t, s);
    case Work(l) => WorkKeeps(t, l, u.y);
    case Hold(s, ro) => HoldKeeps(t, s, ro);
    case Unhold(s) => UnholdKeeps(t, s);
    case BeginBy(s, ok) => if t.stack == [] { BeginKeeps(t, s, ok); } else { StackOnly(t, u); }
    case MarkBy(s) => StackOnly(t, u);
    case EndBy(s) => if |t.stack| == 1 { EndKeeps(t, s); } else { StackOnly(t, u); }
  }

  lemma StackOnly(t: Store, u: Store)
    requires Good(t) && u == t.(stack := u.stack) && (u.stack != [] <==> t.stack != [])
    ensures Good(u)
  {
    hide Inv, Uses;
    forall x | x in u.y.sessions ensures Accounted(u, x) { assert Accounted(t, x); }
    forall x | x in t.lost ensures OnWrite(u, x) { assert OnWrite(t, x); }
  }

  // ---------------------------------------------------------------- every run

  ghost predicate Run(states: seq<Store>, moves: seq<Move>) {
    && |states| == |moves| + 1 && states[0] == NewStore(states[0].y.pool.readConnectionCount)
    && forall i | 0 <= i < |moves| :: Next(states[i], moves[i], states[i + 1])
  }

  lemma {:induction false} RunKeepsGood(states: seq<Store>, moves: seq<Move>, n: nat)
    requires Run(states, moves) && n <= |moves|
    ensures Good(states[n])
  {
    if n == 0 {
      NewIsInv(states[0].y.pool.readConnectionCount);
    } else {
      hide Next, Good;
      RunKeepsGood(states, moves, n - 1);
      assert Next(states[n - 1], moves[n - 1], states[n - 1 + 1]);
      NextKeepsGood(states[n - 1], moves[n - 1], states[n]);
    }
  }

  /** In every run the end of a nest issues its COMMIT or ROLLBACK on the write connection, where the BEGIN went,
      exactly if it is made by the session that began the nest. Another session issues it on a read connection if it
      uses one; if it uses none, the end dereferences a null connection. A session that has ended no other session's
      nest before uses none exactly if it holds none for other purposes. */
  lemma EndReachesItsConnectionIff(states: seq<Store>, moves: seq<Move>, n: nat)
    requires Run(states, moves) && n < |moves| && EndsNest(states[n], moves[n])
    ensures var t, u, s := states[n], states[n + 1], moves[n].s;
      && s in t.holds
      && (u.crashed <==> u.issued == t.issued)
      && (!u.crashed ==>
            && |u.issued| == |t.issued| + 1 && u.issued[|t.issued|].sql != BeginExclusive
            && (u.issued[|t.issued|].connection == Some(Write) <==> t.owner == Some(s)))
      && (t.owner == Some(s) ==> !u.crashed)
      && (s !in t.enders ==> (u.crashed <==> t.owner != Some(s) && t.holds[s] == 0))
  {
    var t, s := states[n], moves[n].s;
    RunKeepsGood(states, moves, n);
    assert Next(t, moves[n], states[n + 1]);
    hide Give, Inv;
    assert Accounted(t, s);
    InvCounts(t.y, s);
    assert s in t.lost ==> OnWrite(t, s);
    if OnWrite(t, s) { OneOnWrite(t, s, t.owner.value); }
  }

  /** A session whose nest another one ended is on the write connection for good, with a use for each such nest: from
      then on only that session can begin a nest. */
  lemma LostConnectionIsNeverReturned(states: seq<Store>, moves: seq<Move>, i: nat, n: nat, o: Sid)
    requires Run(states, moves) && i <= n <= |moves| && o in states[i].lost
    ensures o in states[n].lost && OnWrite(states[n], o) && states[n].y.pool.writeUsed
    ensures o in states[n].holds && Uses(states[n].y.sessions[o]) > states[n].holds[o]
    ensures n < |moves| && states[n].stack == [] && states[n + 1].stack != [] ==> moves[n] == BeginBy(o, true)
  {
    RunKeepsGood(states, moves, n);
    LostStays(states, moves, i, n, o);
    assert OnWrite(states[n], o) && Accounted(states[n], o);
    if n < |moves| && states[n].stack == [] && states[n + 1].stack != [] {
      hide Inv, Give, Take, CanTake, Accounted, Good;
      assert Next(states[n], moves[n], states[n + 1]);
      BegunByWriter(states[n], moves[n], states[n + 1], o);
    }
  }

  lemma BegunByWriter(t: Store, m: Move, u: Store, o: Sid)
    requires Good(t) && Next(t, m, u) && t.stack == [] && u.stack != [] && o in t.lost
    ensures m == BeginBy(o, true)
  {
    NextKeepsGood(t, m, u);
    hide Inv, Give, Take, CanTake, Accounted;
    assert OnWrite(u, o);
    OneOnWrite(u, o, u.owner.value);
  }

  /** A nest is lost exactly by an end of another session. */
  lemma StepLoses(t: Store, m: Move, u: Store)
    requires Next(t, m, u)
    ensures u.lost == (if EndsNest(t, m) && t.owner.Some? && t.owner.value != m.s then t.lost + multiset{t.owner.value} else t.lost)
  {
    hide Take, Give, CanTake, ConnectionPools.Next;
  }

  lemma {:induction false} LostStays(states: seq<Store>, moves: seq<Move>, i: nat, n: nat, o: Sid)
    requires Run(states, moves) && i <= n <= |moves| && o in states[i].lost
    ensures o in states[n].lost
  {
    if i < n {
      hide Next;
      LostStays(states, moves, i, n - 1, o);
      assert Next(states[n - 1], moves[n - 1], states[n - 1 + 1]);
      StepLoses(states[n - 1], moves[n - 1], states[n]);
    }
  }

  /** Before step `n`, every nest was ended by the session that began it. */
  ghost predicate Orderly(states: seq<Store>, moves: seq<Move>, n: nat)
    requires n <= |moves| < |states|
  {
    forall i | 0 <= i < n && EndsNest(states[i], moves[i]) :: states[i].owner == Some(moves[i].s)
  }

  lemma {:induction false} OrderlyIff(states: seq<Store>, moves: seq<Move>, n: nat)
    requires Run(states, moves) && n <= |moves|
    ensures Orderly(states, moves, n) <==> states[n].lost == multiset{}
  {
    hide Next, Good, EndsNest;
    if n > 0 {
      hide Orderly;
      var t, m, u := states[n - 1], moves[n - 1], states[n];
      OrderlyIff(states, moves, n - 1);
      RunKeepsGood(states, moves, n - 1);
      assert Next(states[n - 1], moves[n - 1], states[n - 1 + 1]);
      hide Run;
      StepIsOrderlyIff(t, m, u);
      OrderlyStep(states, moves, n - 1);
    }
  }

  lemma StepIsOrderlyIff(t: Store, m: Move, u: Store)
    requires Good(t) && Next(t, m, u)
    ensures u.lost == multiset{} <==> t.lost == multiset{} && (EndsNest(t, m) ==> t.owner == Some(m.s))
  {
    hide Next, Good;
    RestsOnInv(t);
    StepLoses(t, m, u);
  }

  lemma OrderlyStep(states: seq<Store>, moves: seq<Move>, n: nat)
    requires n < |moves| < |states|
    ensures Orderly(states, moves, n + 1) <==>
      (Orderly(states, moves, n) && (EndsNest(states[n], moves[n]) ==> states[n].owner == Some(moves[n].s)))
  {
  }

  /** With no nest open, every session uses its connection exactly as often as it holds one for other purposes, if and
      only if every nest so far was ended by the session that began it. */
  lemma UseCountsAreRestoredIff(states: seq<Store>, moves: seq<Move>, n: nat)
    requires Run(states, moves) && n <= |moves| && states[n].stack == []
    ensures states[n].y.sessions.Keys == states[n].holds.Keys
    ensures (forall s | s in states[n].holds :: Uses(states[n].y.sessions[s]) == states[n].holds[s])
       <==> Orderly(states, moves, n)
  {
    hide Orderly, Inv, Uses;
    var t := states[n];
    RunKeepsGood(states, moves, n);
    OrderlyIff(states, moves, n);
    forall s | s in t.holds ensures s !in t.enders ==> Uses(t.y.sessions[s]) == t.holds[s] + t.lost[s] { assert Accounted(t, s); }
    if t.lost != multiset{} {
      var o :| o in t.lost;
      assert OnWrite(t, o);
    }
  }

  // ---------------------------------------------------------------- runs with an end by another session

  /** Some run leads to this state. */
  ghost predicate Reachable(t: Store) {
    exists states: seq<Store>, moves: seq<Move> :: Run(states, moves) && states[|moves|] == t
  }

  lemma NewIsReachable(n: nat)
    ensures Reachable(NewStore(n))
  {
    assert Run([NewStore(n)], []);
  }

  lemma MoveTo(t: Store, m: Move, u: Store)
    requires Reachable(t) && Next(t, m, u)
    ensures Reachable(u)
  {
    hide Next;
    var states, moves :| Run(states, moves) && states[|moves|] == t;
    var states', moves' := states + [u], moves + [m];
    forall i | 0 <= i < |moves'| ensures Next(states'[i], moves'[i], states'[i + 1]) {
      if i < |moves| { assert Next(states[i], moves[i], states[i + 1]); }
    }
    assert Run(states', moves') && states'[|moves'|] == u;
  }

  /** Of two sessions, the first has begun a nest; there is one read connection. */
  const BEGUN: Store :=
    NewStore(1).(y := NewSystem(1).(pool := NewPool(1).(writeUsed := true),
                                    sessions := map[0 := Session(Some(Write), 1, Rest), 1 := Session(None, 0, Rest)]),
                 stack := [Transaction(true, false)], issued := [Issued(BeginExclusive, 0, Some(Write))],
                 owner := Some(0), holds := map[0 := 0, 1 := 0])

  lemma BegunIsReachable()
    ensures Reachable(BEGUN)
  {
    hide Reachable;
    var t0 := NewStore(1);
    var t1 := t0.(y := t0.y.(sessions := map[0 := Session(None, 0, Rest)]), holds := map[0 := 0]);
    var t2 := t1.(y := t1.y.(sessions := t1.y.sessions[1 := Session(None, 0, Rest)]), holds := t1.holds[1 := 0]);
    NewIsReachable(1);
    MoveTo(t0, Join(0), t1);
    MoveTo(t1, Join(1), t2);
    MoveTo(t2, BeginBy(0, true), BEGUN);
  }

  /** The second session has no connection: ending the nest dereferences a null pointer, after the stack was popped. */
  lemma ForeignEndCrashes()
    ensures exists t, u :: Reachable(t) && Next(t, EndBy(1), u) && u.crashed && u.stack == []
  {
    BegunIsReachable();
    assert Next(BEGUN, EndBy(1), EndNest(BEGUN, 1));
  }

  /** The second session reads step by step: its end rolls back on the read connection, gives that connection back
      under the reading result set, and leaves the first one on the write connection with no nest open. */
  lemma ForeignEndStrandsConnection()
    ensures exists u: Store ::
      && Reachable(u) && !u.crashed && u.stack == [] && u.holds == map[0 := 0, 1 := 1]
      && u.issued == [Issued(BeginExclusive, 0, Some(Write)), Issued(Rollback, 1, Some(Read(0)))]
      && u.y.sessions == map[0 := Session(Some(Write), 1, Rest), 1 := Session(None, 0, Rest)]
      && !CanTake(u.y, 1, false)
  {
    hide Reachable;
    BegunIsReachable();
    var t := BEGUN.(y := Take(BEGUN.y, 1, true, Rest), holds := map[0 := 0, 1 := 1]);
    assert t.y.sessions == map[0 := Session(Some(Write), 1, Rest), 1 := Session(Some(Read(0)), 1, Rest)];
    MoveTo(BEGUN, Move.Hold(1, true), t);
    MoveTo(t, EndBy(1), EndNest(t, 1));
  }
}
