/** When a nest of the shared stack commits, told from the begins, marks and ends of all sessions. */
module SharedCommits {
  import opened Options
  import ConnectionPools
  import opened Transactions
  import opened SharedTransactions

  /** Step `k` pushes a transaction. */
  predicate Pushes(states: seq<Store>, k: nat) { k + 1 < |states| && |states[k + 1].stack| > |states[k].stack| }

  /** The transaction pushed at step `k` is on the stack from then to state `n`. */
  ghost predicate Lasts(states: seq<Store>, k: nat, n: nat) {
    Pushes(states, k) && k < n < |states| && forall i | k < i <= n :: |states[i].stack| > |states[k].stack|
  }

  /** It was pushed since the outermost begin of the nest that is open in state `n`. */
  ghost predicate InNest(states: seq<Store>, k: nat, n: nat) {
    Pushes(states, k) && k < n < |states| && forall i | k < i <= n :: states[i].stack != []
  }

  /** Step `j` is a mark of any session while the transaction pushed at step `k` is on top. */
  ghost predicate Marks(states: seq<Store>, moves: seq<Move>, k: nat, j: nat) {
    j < |moves| && moves[j].MarkBy? && Lasts(states, k, j) && |states[j].stack| == |states[k].stack| + 1
  }

  ghost predicate MarkedBefore(states: seq<Store>, moves: seq<Move>, k: nat, n: nat) {
    exists j: nat :: j < n && Marks(states, moves, k, j)
  }

  /** A begin inside a nest only pushes. An outermost begin pushes exactly if the database accepts its BEGIN, which is
      issued on the write connection unless the session uses a read connection. */
  lemma BeginsIff(states: seq<Store>, moves: seq<Move>, n: nat)
    requires Run(states, moves) && n < |moves| && moves[n].BeginBy?
    ensures var t, u, s := states[n], states[n + 1], moves[n].s;
      && s in t.y.sessions
      && var reading := t.y.sessions[s].connection.Some? && t.y.sessions[s].connection != Some(ConnectionPools.Write);
         && u.stack == (if t.stack != [] || (moves[n].ok && !reading) then t.stack + [Transaction(true, false)] else [])
         && u.issued == t.issued + (if t.stack != [] || reading then [] else [Issued(BeginExclusive, s, Some(ConnectionPools.Write))])
  {
    hide ConnectionPools.Give, ConnectionPools.Next, ConnectionPools.Release;
    assert Next(states[n], moves[n], states[n + 1]);
    assert states[n].issued + [] == states[n].issued;
  }

  // ---------------------------------------------------------------- the ledger of a run

  /** An open transaction: the step that pushed it, and the steps that pushed those that have ended inside it. */
  datatype Entry = Entry(id: nat, ended: set<nat>)

  /** The open transactions, and the pushes of those that were marked. */
  datatype Ledger = Ledger(open: seq<Entry>, marked: set<nat>)

  /** The inner transaction on top ends. */
  function Folded(open: seq<Entry>): seq<Entry>
    requires |open| > 1
  {
    var below, top := open[..|open| - 1], open[|open| - 1];
    below[|below| - 1 := Entry(below[|below| - 1].id, below[|below| - 1].ended + top.ended + {top.id})]
  }

  function Noted(l: Ledger, n: nat, before: nat, after: nat, marks: bool): Ledger {
    if after > before then l.(open := l.open + [Entry(n, {})])
    else if after < before then l.(open := if |l.open| > 1 then Folded(l.open) else [])
    else if marks && l.open != [] then l.(marked := l.marked + {l.open[|l.open| - 1].id})
    else l
  }

  function Book(states: seq<Store>, moves: seq<Move>, n: nat): Ledger
    requires n <= |moves| < |states|
  {
    if n == 0 then Ledger([], {})
    else Noted(Book(states, moves, n - 1), n - 1, |states[n - 1].stack|, |states[n].stack|, moves[n - 1].MarkBy?)
  }

  /** The flags on the stack say what the ledger says. */
  ghost predicate Agrees(l: Ledger, stack: seq<Transaction>) {
    |l.open| == |stack| && forall d | 0 <= d < |stack| :: AgreesAt(l, stack, d)
  }

  ghost predicate AgreesAt(l: Ledger, stack: seq<Transaction>, d: nat)
    requires d < |stack| && d < |l.open|
  {
    && (stack[d].marked <==> l.open[d].id in l.marked)
    && (stack[d].allBefore <==> l.open[d].ended <= l.marked)
  }

  /** Every transaction is noted once, and before step `n`. */
  ghost predicate Apart(l: Ledger, n: nat) {
    && (forall k | k in l.marked :: k < n)
    && (forall d | 0 <= d < |l.open| :: l.open[d].id < n && forall k | k in l.open[d].ended :: k < n)
    && (forall d, e | 0 <= d < e < |l.open| :: l.open[d].id != l.open[e].id)
    && (forall d, e | 0 <= d < |l.open| && 0 <= e < |l.open| :: l.open[d].id !in l.open[e].ended)
  }

  // ---------------------------------------------------------------- one step

  /** What a step does to the stack. */
  lemma StackStep(t: Store, m: Move, u: Store)
    requires Next(t, m, u)
    ensures match m
      case BeginBy(_, _) => u.stack == t.stack + [Transaction(true, false)] || (t.stack == [] && u.stack == [])
      case MarkBy(_) => u.stack == MarkTop(t.stack)
      case EndBy(_) => u.stack == if |t.stack| > 1 then PopInner(t.stack) else []
      case _ => u.stack == t.stack
  {
    hide ConnectionPools.Take, ConnectionPools.Give, ConnectionPools.CanTake, ConnectionPools.Next;
  }

  lemma PushAgrees(l: Ledger, stack: seq<Transaction>, n: nat)
    requires Agrees(l, stack) && Apart(l, n)
    ensures var l' := l.(open := l.open + [Entry(n, {})]); Agrees(l', stack + [Transaction(true, false)]) && Apart(l', n + 1)
  {
    var l', stack' := l.(open := l.open + [Entry(n, {})]), stack + [Transaction(true, false)];
    forall d | 0 <= d < |stack'| ensures AgreesAt(l', stack', d) { if d < |stack| { assert AgreesAt(l, stack, d); } }
  }

  lemma MarkAgrees(l: Ledger, stack: seq<Transaction>, n: nat)
    requires Agrees(l, stack) && Apart(l, n) && stack != []
    ensures var l' := l.(marked := l.marked + {l.open[|l.open| - 1].id}); Agrees(l', MarkTop(stack)) && Apart(l', n + 1)
  {
    var l', stack' := l.(marked := l.marked + {l.open[|l.open| - 1].id}), MarkTop(stack);
    forall d | 0 <= d < |stack'| ensures AgreesAt(l', stack', d) { assert AgreesAt(l, stack, d); }
  }

  lemma PopAgrees(l: Ledger, stack: seq<Transaction>, n: nat)
    requires Agrees(l, stack) && Apart(l, n) && |stack| > 1
    ensures var l' := l.(open := Folded(l.open)); Agrees(l', PopInner(stack)) && Apart(l', n + 1)
  {
    var l', stack', top := l.(open := Folded(l.open)), PopInner(stack), |stack| - 1;
    assert AgreesAt(l, stack, top) && AgreesAt(l, stack, top - 1);
    forall d | 0 <= d < |stack'| ensures AgreesAt(l', stack', d) { assert AgreesAt(l, stack, d); }
  }

  lemma {:induction false} BookAgrees(states: seq<Store>, moves: seq<Move>, n: nat)
    requires Run(states, moves) && n <= |moves|
    ensures Agrees(Book(states, moves, n), states[n].stack) && Apart(Book(states, moves, n), n)
  {
    hide Next, Noted, PopInner, MarkTop;
    if n > 0 {
      hide Agrees, Apart;
      var l, t, u := Book(states, moves, n - 1), states[n - 1], states[n];
      BookAgrees(states, moves, n - 1);
      assert Next(states[n - 1], moves[n - 1], states[n - 1 + 1]);
      StackStep(t, moves[n - 1], u);
      NotedAgrees(l, t.stack, u.stack, moves[n - 1], n - 1);
    }
  }

  lemma NotedAgrees(l: Ledger, before: seq<Transaction>, after: seq<Transaction>, m: Move, n: nat)
    requires Agrees(l, before) && Apart(l, n)
    requires match m
      case BeginBy(_, _) => after == before + [Transaction(true, false)] || (before == [] && after == [])
      case MarkBy(_) => after == MarkTop(before)
      case EndBy(_) => after == if |before| > 1 then PopInner(before) else []
      case _ => after == before
    ensures var l' := Noted(l, n, |before|, |after|, m.MarkBy?); Agrees(l', after) && Apart(l', n + 1)
  {
    if |after| > |before| { PushAgrees(l, before, n); }
    else if |after| < |before| && |before| > 1 { PopAgrees(l, before, n); }
    else if m.MarkBy? && before != [] { MarkAgrees(l, before, n); }
  }

  // ---------------------------------------------------------------- the ledger in terms of the run

  ghost predicate Mentions(l: Ledger, k: nat) { exists d :: 0 <= d < |l.open| && (k == l.open[d].id || k in l.open[d].ended) }

  lemma {:induction false} OpenLasts(states: seq<Store>, moves: seq<Move>, n: nat, d: nat)
    requires Run(states, moves) && n <= |moves| && d < |Book(states, moves, n).open|
    ensures var k := Book(states, moves, n).open[d].id; k < n && Lasts(states, k, n) && |states[k].stack| == d
  {
    hide Next, Lasts, Noted;
    if n > 0 {
      var l := Book(states, moves, n - 1);
      HeightIsOpen(states, moves, n - 1);
      HeightIsOpen(states, moves, n);
      NotedOpen(l, n - 1, |states[n - 1].stack|, |states[n].stack|, moves[n - 1].MarkBy?, d);
      if d < |l.open| { OpenLasts(states, moves, n - 1, d); }
      LastsStep(states, if d < |l.open| then l.open[d].id else n - 1, n);
    }
  }

  lemma NotedOpen(l: Ledger, n: nat, before: nat, after: nat, marks: bool, d: nat)
    requires |l.open| == before && d < |Noted(l, n, before, after, marks).open| == after
    ensures d <= before && (d == before ==> after > before)
    ensures Noted(l, n, before, after, marks).open[d].id == if d < before then l.open[d].id else n
  {
  }

  lemma LastsStep(states: seq<Store>, k: nat, n: nat)
    requires k < n < |states|
    ensures Lasts(states, k, n) <==>
      (|states[n].stack| > |states[k].stack| && if k == n - 1 then Pushes(states, k) else Lasts(states, k, n - 1))
  {
  }

  lemma HeightIsOpen(states: seq<Store>, moves: seq<Move>, n: nat)
    requires Run(states, moves) && n <= |moves|
    ensures |Book(states, moves, n).open| == |states[n].stack|
  {
    BookAgrees(states, moves, n);
  }

  /** No other transaction lasts at the same place. */
  lemma LastsIsOpen(states: seq<Store>, moves: seq<Move>, n: nat, k: nat)
    requires Run(states, moves) && n <= |moves| && Lasts(states, k, n)
    ensures var open := Book(states, moves, n).open; |states[k].stack| < |open| && open[|states[k].stack|].id == k
  {
    hide Next, Book;
    HeightIsOpen(states, moves, n);
    OpenLasts(states, moves, n, |states[k].stack|);
  }

  lemma {:induction false} MarkedIff(states: seq<Store>, moves: seq<Move>, n: nat, k: nat)
    requires Run(states, moves) && n <= |moves|
    ensures k in Book(states, moves, n).marked <==> MarkedBefore(states, moves, k, n)
  {
    hide Next, Marks, Lasts;
    if n > 0 {
      MarkedIff(states, moves, n - 1, k);
      HeightIsOpen(states, moves, n - 1);
      MarkedAt(states, moves, n - 1, k);
      var l, l' := Book(states, moves, n - 1), Book(states, moves, n);
      assert k in l'.marked <==> k in l.marked || Marks(states, moves, k, n - 1);
      assert MarkedBefore(states, moves, k, n) <==> MarkedBefore(states, moves, k, n - 1) || Marks(states, moves, k, n - 1);
    }
  }

  lemma MarkedAt(states: seq<Store>, moves: seq<Move>, n: nat, k: nat)
    requires Run(states, moves) && n < |moves|
    ensures var open := Book(states, moves, n).open;
      Marks(states, moves, k, n) <==> moves[n].MarkBy? && open != [] && open[|open| - 1].id == k
    ensures moves[n].MarkBy? ==> |states[n + 1].stack| == |states[n].stack|
  {
    hide Next, Lasts;
    var open := Book(states, moves, n).open;
    HeightIsOpen(states, moves, n);
    if open != [] { OpenLasts(states, moves, n, |open| - 1); }
    if Marks(states, moves, k, n) { LastsIsOpen(states, moves, n, k); }
    assert Next(states[n], moves[n], states[n + 1]);
    StackStep(states[n], moves[n], states[n + 1]);
  }

  lemma {:induction false} MentionedIff(states: seq<Store>, moves: seq<Move>, n: nat, k: nat)
    requires Run(states, moves) && n <= |moves|
    ensures Mentions(Book(states, moves, n), k) <==> InNest(states, k, n)
  {
    hide Next, Mentions, InNest, Noted;
    if n == 0 {
      assert !Mentions(Book(states, moves, 0), k) by { NothingMentioned({}, k); }
      NotYet(states, k);
    } else {
      MentionedIff(states, moves, n - 1, k);
      HeightIsOpen(states, moves, n - 1);
      HeightIsOpen(states, moves, n);
      NestStep(states, k, n);
      NotedMentions(Book(states, moves, n - 1), n - 1, |states[n - 1].stack|, |states[n].stack|, moves[n - 1].MarkBy?, k);
    }
  }

  lemma NothingMentioned(marked: set<nat>, k: nat)
    ensures !Mentions(Ledger([], marked), k)
  {
  }

  lemma NotYet(states: seq<Store>, k: nat)
    ensures !InNest(states, k, 0)
  {
  }

  lemma NestStep(states: seq<Store>, k: nat, n: nat)
    requires 0 < n < |states|
    ensures !InNest(states, n - 1, n - 1)
    ensures InNest(states, k, n) <==> states[n].stack != [] && if k == n - 1 then Pushes(states, k) else InNest(states, k, n - 1)
  {
  }

  /** A step with heights `before` and `after` of the stack. */
  lemma NotedMentions(l: Ledger, n: nat, before: nat, after: nat, marks: bool, k: nat)
    requires |l.open| == before
    requires |Noted(l, n, before, after, marks).open| == after
    ensures Mentions(Noted(l, n, before, after, marks), k) <==>
      after != 0 && if k == n then after > before || Mentions(l, k) else Mentions(l, k)
  {
    var l' := Noted(l, n, before, after, marks);
    if after > before {
      assert l'.open[before] == Entry(n, {});
      forall d | 0 <= d < before ensures l'.open[d] == l.open[d] {}
    } else if after < before && before > 1 {
      var top := before - 1;
      assert l'.open[top - 1] == Entry(l.open[top - 1].id, l.open[top - 1].ended + l.open[top].ended + {l.open[top].id});
      forall d | 0 <= d < top - 1 ensures l'.open[d] == l.open[d] {}
    }
  }

  // ---------------------------------------------------------------- commit or rollback

  /** In every run: a nest that ends without a crash commits exactly if every transaction pushed since its outermost
      begin was marked, by any session, while it was on top; otherwise it is rolled back. */
  lemma NestCommitsIff(states: seq<Store>, moves: seq<Move>, n: nat)
    requires Run(states, moves) && n < |moves| && EndsNest(states[n], moves[n]) && !states[n + 1].crashed
    ensures var t, u := states[n], states[n + 1];
      && |u.issued| == |t.issued| + 1 && u.issued[|t.issued|].sql in {Commit, Rollback}
      && (u.issued[|t.issued|].sql == Commit <==>
            forall k: nat | InNest(states, k, n) :: MarkedBefore(states, moves, k, n))
  {
    hide InNest, MarkedBefore, Mentions;
    var l, t := Book(states, moves, n), states[n];
    BookAgrees(states, moves, n);
    assert AgreesAt(l, t.stack, 0);
    forall k: nat ensures InNest(states, k, n) <==> k == l.open[0].id || k in l.open[0].ended {
      MentionedIff(states, moves, n, k);
      OnlyOne(l, k);
    }
    forall k: nat ensures MarkedBefore(states, moves, k, n) <==> k in l.marked { MarkedIff(states, moves, n, k); }
    hide Book, Agrees, Apart;
    assert Next(states[n], moves[n], states[n + 1]);
  }

  lemma OnlyOne(l: Ledger, k: nat)
    requires |l.open| == 1
    ensures Mentions(l, k) <==> k == l.open[0].id || k in l.open[0].ended
  {
  }
}
