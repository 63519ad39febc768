/** Nested transactions of one session: the stack, the statements issued, and the connection held meanwhile. */
module Transactions {
  import opened Options
  import opened ConnectionPools

  datatype Transaction = Transaction(allBefore: bool, marked: bool)

  datatype Sql = BeginExclusive | Commit | Rollback

  /** The transaction stack, the session's connection and use count, the pool, and the statements issued so far. */
  datatype State = State(
    stack: seq<Transaction>, connection: Option<Connection>, useCount: nat, pool: Pool, issued: seq<Sql>)

  /** AcquireConnection(false) need not wait. */
  predicate Ready(t: State) { t.connection.None? ==> !t.pool.writeUsed }

  function Acquired(t: State): State
    requires Ready(t)
  {
    if t.connection.Some? then t.(useCount := t.useCount + 1)
    else t.(pool := t.pool.(writeUsed := true), connection := Some(Write), useCount := t.useCount + 1)
  }

  function Released(t: State): State {
    if t.connection.None? || t.useCount == 0 then t
    else if t.useCount == 1 then t.(pool := Release(t.pool, t.connection.value), connection := None, useCount := 0)
    else t.(useCount := t.useCount - 1)
  }

  function Issue(t: State, sql: Sql): State { t.(issued := t.issued + [sql]) }

  function Pushed(t: State): State { t.(stack := t.stack + [Transaction(true, false)]) }

  /** BeginTransaction; `ok` is the result of BEGIN EXCLUSIVE. */
  function Begin(t: State, ok: bool): State
    requires t.stack == [] ==> Ready(t)
  {
    if t.stack != [] then Pushed(t)
    else
      var a := Acquired(t);
      if a.connection != Some(Write) then Released(a)
      else if !ok then Released(Issue(a, BeginExclusive))
      else Pushed(Issue(a, BeginExclusive))
  }

  function WithTop(t: State, x: Transaction): State
    requires t.stack != []
  {
    t.(stack := t.stack[..|t.stack| - 1] + [x])
  }

  function Mark(t: State): State {
    if t.stack == [] then t else WithTop(t, t.stack[|t.stack| - 1].(marked := true))
  }

  /** EndTransactionWithObserver. */
  function End(t: State): State {
    if t.stack == [] then t
    else
      var top := t.stack[|t.stack| - 1];
      var succeeded := top.allBefore && top.marked;
      var rest := t.(stack := t.stack[..|t.stack| - 1]);
      if rest.stack != [] then
        if succeeded then rest else WithTop(rest, rest.stack[|rest.stack| - 1].(allBefore := false))
      else Released(Issue(rest, if succeeded then Commit else Rollback))
  }

  // ---------------------------------------------------------------- well-nested runs

  /** What happens inside a transaction: marks and whole inner transactions, in any order. */
  datatype Body = Done | Marked(rest: Body) | Nested(inner: Body, rest: Body)

  predicate HasMark(b: Body) {
    match b
    case Done => false
    case Marked(_) => true
    case Nested(_, rest) => HasMark(rest)
  }

  /** Every transaction strictly inside was marked before it ended. */
  predicate InnerMarked(b: Body)
    decreases b, 0
  {
    match b
    case Done => true
    case Marked(rest) => InnerMarked(rest)
    case Nested(inner, rest) => AllMarked(inner) && InnerMarked(rest)
  }

  /** The transaction with this body, and every transaction inside it, was marked before it ended. */
  predicate AllMarked(b: Body)
    decreases b, 1
  {
    HasMark(b) && InnerMarked(b)
  }

  /** One transaction, from its begin to its end. */
  function RunTransaction(t: State, b: Body): State
    requires t.stack == [] ==> Ready(t)
    decreases b, 1
  {
    End(RunBody(Begin(t, true), b))
  }

  function RunBody(t: State, b: Body): State
    decreases b, 0
  {
    match b
    case Done => t
    case Marked(rest) => RunBody(Mark(t), rest)
    case Nested(inner, rest) => if t.stack == [] then t else RunBody(RunTransaction(t, inner), rest)
  }

  /** Inside a transaction, a body changes nothing but the flags of the top: it is marked if the body marks it, and
      spoilt if some inner transaction was not marked throughout. */
  lemma {:induction false} BodyOnlyFlags(t: State, b: Body)
    requires t.stack != []
    ensures var top := t.stack[|t.stack| - 1];
      RunBody(t, b) == WithTop(t, Transaction(top.allBefore && InnerMarked(b), top.marked || HasMark(b)))
    decreases b, 0
  {
    var last := |t.stack| - 1;
    var top := t.stack[last];
    match b
    case Done => assert t.stack[..last] + [top] == t.stack;
    case Marked(rest) => BodyOnlyFlags(Mark(t), rest);
    case Nested(inner, rest) => {
      InnerOnlySpoils(t, inner);
      BodyOnlyFlags(RunTransaction(t, inner), rest);
    }
  }

  lemma {:induction false} InnerOnlySpoils(t: State, b: Body)
    requires t.stack != []
    ensures RunTransaction(t, b) ==
      WithTop(t, t.stack[|t.stack| - 1].(allBefore := t.stack[|t.stack| - 1].allBefore && AllMarked(b)))
    decreases b, 1
  {
    var last := |t.stack| - 1;
    BodyOnlyFlags(Pushed(t), b);
    assert Pushed(t).stack[..last + 1] == t.stack;
    assert t.stack[..last] + [t.stack[last]] == t.stack;
  }

  /** The session holds the write connection, or holds nothing while the write connection is free. */
  predicate CanWrite(t: State) {
    if t.connection.None? then t.useCount == 0 && !t.pool.writeUsed else t.connection == Some(Write) && t.useCount > 0
  }

  /** A whole nest issues one BEGIN and one end, COMMIT exactly if every transaction in it was marked before it
      ended; stack, connection, use count and pool are as they were. */
  lemma NestCommitsIffAllMarked(t: State, b: Body)
    requires t.stack == [] && CanWrite(t)
    ensures RunTransaction(t, b) == t.(issued := t.issued + [BeginExclusive, if AllMarked(b) then Commit else Rollback])
  {
    hide RunBody, Begin, End;
    OutermostEnds(t, Transaction(InnerMarked(b), HasMark(b)));
    BodyOnlyFlags(Begin(t, true), b);
  }

  lemma LastEnds(t: State, x: Transaction)
    requires |t.stack| == 1
    ensures End(WithTop(t, x)) == Released(Issue(t.(stack := []), if x.allBefore && x.marked then Commit else Rollback))
  {
    assert WithTop(t, x).stack == [x];
  }

  lemma OutermostEnds(t: State, x: Transaction)
    requires t.stack == [] && CanWrite(t)
    ensures Begin(t, true).stack == [Transaction(true, false)]
    ensures End(WithTop(Begin(t, true), x))
         == t.(issued := t.issued + [BeginExclusive, if x.allBefore && x.marked then Commit else Rollback])
  {
    var begun := Begin(t, true);
    assert begun == Pushed(Issue(Acquired(t), BeginExclusive));
    var last := if x.allBefore && x.marked then Commit else Rollback;
    var rest := begun.(stack := []);
    assert End(WithTop(begun, x)) == Released(Issue(rest, last)) by { LastEnds(begun, x); }
    hide End, Begin;
    assert rest.issued + [last] == t.issued + [BeginExclusive, last];
  }

  /** On a session that holds a read connection no transaction begins, and the use count is restored. */
  lemma NoTransactionOnReadConnection(t: State, ok: bool)
    requires t.stack == [] && t.connection.Some? && t.connection.value.Read? && t.useCount > 0
    ensures Begin(t, ok) == t
  {
  }

  // ---------------------------------------------------------------- any run of calls

  datatype Call = DoBegin(ok: bool) | DoMark | DoEnd

  function Step(t: State, c: Call): State
    requires t.stack == [] ==> Ready(t)
  {
    match c
    case DoBegin(ok) => Begin(t, ok)
    case DoMark => Mark(t)
    case DoEnd => End(t)
  }

  /** What has been issued is a sequence of closed transactions, the last one perhaps still open; BEGIN may fail,
      so that another BEGIN follows it. */
  predicate Alternating(issued: seq<Sql>, open: bool) {
    if issued == [] then !open
    else
      var before, last := issued[..|issued| - 1], issued[|issued| - 1];
      match last
      case BeginExclusive => Alternating(before, false)
      case _ => !open && Alternating(before, true)
  }

  /** While a transaction is open the session keeps one more use of the write connection than before it. */
  predicate Keeping(t: State, base: State)
    requires CanWrite(base)
  {
    && Alternating(t.issued, t.stack != [])
    && (t.stack == [] ==> t.connection == base.connection && t.useCount == base.useCount && t.pool == base.pool)
    && (t.stack != [] ==> t.connection == Some(Write) && t.useCount == base.useCount + 1 && t.pool == Acquired(base).pool)
  }

  /** Every call, in any order, keeps the connection use in step with the stack. */
  lemma StepKeeps(t: State, c: Call, base: State)
    requires CanWrite(base) && Keeping(t, base)
    ensures (t.stack == [] ==> Ready(t)) && Keeping(Step(t, c), base)
  {
    AlternatingGrows(t.issued);
    hide Alternating;
  }

  lemma AlternatingGrows(issued: seq<Sql>)
    ensures Alternating(issued, false) ==> forall open :: Alternating(issued + [BeginExclusive], open)
    ensures Alternating(issued, true) ==> Alternating(issued + [Commit], false) && Alternating(issued + [Rollback], false)
  {
    assert forall sql :: (issued + [sql])[..|issued|] == issued;
  }

  /** The calls in turn; one that would wait for the write connection has no effect. */
  function Steps(t: State, calls: seq<Call>): State {
    if calls == [] then t
    else
      var before := Steps(t, calls[..|calls| - 1]);
      if before.stack == [] && !Ready(before) then before else Step(before, calls[|calls| - 1])
  }

  /** After any calls of any outcome, BEGIN and its end alternate, a transaction is open exactly while the stack is
      not empty, and the connection is kept exactly that long. */
  lemma {:induction false} AnyCallsKeep(t: State, calls: seq<Call>)
    requires t.stack == [] && t.issued == [] && CanWrite(t)
    ensures Keeping(Steps(t, calls), t)
  {
    hide Step, Keeping;
    if calls == [] {
      assert Keeping(t, t) by { StartsKeeping(t); }
    } else {
      AnyCallsKeep(t, calls[..|calls| - 1]);
      StepKeeps(Steps(t, calls[..|calls| - 1]), calls[|calls| - 1], t);
    }
  }

  lemma StartsKeeping(t: State)
    requires t.stack == [] && t.issued == [] && CanWrite(t)
    ensures Keeping(t, t)
  {
  }

  // ---------------------------------------------------------------- the session object

  class StoreSession {
    var transactionStack: seq<Transaction>
    var connection: Option<Connection>
    var connectionUseCount: nat
    var pool: Pool
    ghost var issued: seq<Sql>

    ghost function View(): State
      reads this
    {
      State(transactionStack, connection, connectionUseCount, pool, issued)
    }

    constructor (pool: Pool)
      ensures View() == State([], None, 0, pool, [])
    {
      transactionStack, connection, connectionUseCount, this.pool, issued := [], None, 0, pool, [];
    }

    method AcquireToWrite()
      requires Ready(View())
      modifies this
      ensures View() == Acquired(old(View()))
    {
      if connection == None {
        pool := pool.(writeUsed := true);
        connection := Some(Write);
      }
      connectionUseCount := connectionUseCount + 1;
    }

    method ReleaseConnection()
      modifies this
      ensures View() == Released(old(View()))
    {
      if connection == None || connectionUseCount <= 0 { return; }
      connectionUseCount := connectionUseCount - 1;
      if connectionUseCount == 0 {
        pool := Release(pool, connection.value);
        connection := None;
      }
    }

    method BeginTransaction(beginOk: bool) returns (ok: bool)
      requires transactionStack == [] ==> Ready(View())
      modifies this
      ensures View() == Begin(old(View()), beginOk)
      ensures ok <==> |transactionStack| == |old(transactionStack)| + 1
    {
      if transactionStack == [] {
        AcquireToWrite();
        if connection != Some(Write) {
          ReleaseConnection();
          return false;
        }
        issued := issued + [BeginExclusive];
        if !beginOk {
          ReleaseConnection();
          return false;
        }
      }
      transactionStack := transactionStack + [Transaction(true, false)];
      ok := true;
    }

    method MarkAsCommit() returns (ok: bool)
      modifies this
      ensures View() == Mark(old(View())) && (ok <==> old(transactionStack) != [])
    {
      if transactionStack == [] { return false; }
      var last := |transactionStack| - 1;
      transactionStack := transactionStack[..last] + [transactionStack[last].(marked := true)];
      ok := true;
    }

    method EndTransactionWithObserver() returns (ok: bool)
      modifies this
      ensures View() == End(old(View())) && (ok <==> old(transactionStack) != [])
    {
      if transactionStack == [] { return false; }
      var last := |transactionStack| - 1;
      var transaction := transactionStack[last];
      var isSucceed := transaction.allBefore && transaction.marked;
      transactionStack := transactionStack[..last];
      if transactionStack != [] {
        if !isSucceed {
          transactionStack := transactionStack[..last - 1] + [transactionStack[last - 1].(allBefore := false)];
        }
      } else {
        issued := issued + [if isSucceed then Commit else Rollback];
        ReleaseConnection();
      }
      ok := true;
    }
  }
}
