/** Which call sequences keep the clause within the grammar, and that every condition can be built. */
module PredicateGrammar {
  import opened Options
  import opened Conditions
  import opened ClauseText
  import opened FieldNames
  import opened Predicates
  import opened PredicateMeaning

  // ---------------------------------------------------------------- closing too much

  /** Parentheses opened and not closed by accepted calls. */
  function Nesting(calls: seq<Call>): int {
    if calls == [] then 0
    else
      var before, c := calls[..|calls| - 1], calls[|calls| - 1];
      Nesting(before) + (if c == BeginWrap then 1 else if c == EndWrap && After(before).needAnd then -1 else 0)
  }

  /** Call `n` is an EndWrap, accepted although nothing is open. */
  predicate ClosesNothing(calls: seq<Call>, n: nat) {
    n < |calls| && calls[n] == EndWrap && After(calls[..n]).needAnd && Nesting(calls[..n]) == 0
  }

  function Height(st: Stack): nat { if st.Bottom? then 0 else 1 + Height(st.below) }

  lemma {:induction false} NestingIsHeight(calls: seq<Call>)
    requires Follow(EMPTY, calls).Some?
    ensures Nesting(calls) == Height(Follow(EMPTY, calls).value)
  {
    hide Apply, StackTokens, TheColumn, Checked, TestOf;
    if calls != [] {
      var before, c := calls[..|calls| - 1], calls[|calls| - 1];
      NestingIsHeight(before);
      StackPrints(before);
    }
  }

  /** The stack is lost exactly when some accepted EndWrap had nothing to close. */
  lemma {:induction false} StackIsLostByClosing(calls: seq<Call>)
    ensures Follow(EMPTY, calls).None? <==> exists n: nat :: ClosesNothing(calls, n)
  {
    hide After, Nesting, Advance, Tokens, StackTokens;
    if calls != [] {
      var last := |calls| - 1;
      var before := calls[..last];
      StackIsLostByClosing(before);
      forall n: nat | n < last ensures ClosesNothing(before, n) == ClosesNothing(calls, n) {
        assert before[..n] == calls[..n];
      }
      if Follow(EMPTY, before).Some? {
        LostHere(calls);
      }
      if Follow(EMPTY, calls).None? && Follow(EMPTY, before).None? {
        var n: nat :| ClosesNothing(before, n);
        assert ClosesNothing(calls, n);
      }
    }
  }

  lemma LostHere(calls: seq<Call>)
    requires calls != [] && Follow(EMPTY, calls[..|calls| - 1]).Some?
    ensures Follow(EMPTY, calls).None? <==> ClosesNothing(calls, |calls| - 1)
  {
    hide After, Nesting, Tokens, StackTokens, TheColumn, Checked, TestOf, WithFactor, Whole;
    NestingIsHeight(calls[..|calls| - 1]);
    StackPrints(calls[..|calls| - 1]);
  }

  // ---------------------------------------------------------------- completing a clause

  const FILLER: Factor := Atom(Plain("x"), NullTest(false))

  function Filled(f: Frame): (r: Frame)
    ensures r.right.Some?
  {
    if f.right.Some? then f else WithFactor(f, FILLER)
  }

  /** Add an operand where one is missing, then close everything. */
  function Completed(st: Stack): Disj
    decreases Height(st)
  {
    match st
    case Bottom(top) => Whole(Filled(top))
    case Above(below, top) => HeightOfTop(below, WithFactor(below.top, Paren(Whole(Filled(top)))));
                              Completed(CloseWrap(below, Filled(top)))
  }

  lemma HeightOfTop(st: Stack, f: Frame)
    ensures Height(WithTop(st, f)) == Height(st)
  {
  }

  lemma FilledExtends(f: Frame)
    ensures FrameTokens(f) <= FrameTokens(Filled(f))
  {
    if f.right.None? { FactorTokens(f, FILLER); }
  }

  lemma {:induction false} StackIsViable(st: Stack)
    ensures StackTokens(st) <= Print(Completed(st))
    decreases Height(st)
  {
    hide FrameTokens, Print, Filled;
    match st
    case Bottom(top) => FilledExtends(top); WholeTokens(Filled(top));
    case Above(below, top) => {
      FilledExtends(top);
      ClosePrints(below, Filled(top));
      HeightOfTop(below, WithFactor(below.top, Paren(Whole(Filled(top)))));
      StackIsViable(CloseWrap(below, Filled(top)));
    }
  }

  lemma {:induction false} TokensGrow(calls: seq<Call>, n: nat)
    requires n <= |calls|
    ensures Tokens(calls[..n]) <= Tokens(calls)
  {
    hide Emitted, After;
    if n < |calls| {
      var before := calls[..|calls| - 1];
      TokensGrow(before, n);
      assert before[..n] == calls[..n];
    } else {
      assert calls[..n] == calls;
    }
  }

  lemma BottomDepth(f: Frame)
    ensures Depth(FrameTokens(f)) == 0
  {
    hide Print, PrintConj, Depth;
    var left := if f.left.Some? then Print(f.left.value) + [Or] else [];
    var right := if f.right.Some? then PrintConj(f.right.value) else [];
    FlatIsLevel([]);
    FlatIsLevel([Or]);
    if f.left.Some? { PrintIsLevel(f.left.value); DepthAppend(Print(f.left.value), [Or], 0); }
    if f.right.Some? { ConjIsLevel(f.right.value); }
    DepthAppend(left, right, 0);
  }

  /** An accepted EndWrap with nothing open takes the depth of the tokens below zero. */
  lemma ClosingNothingIsBelow(calls: seq<Call>, n: nat)
    requires ClosesNothing(calls, n) && Follow(EMPTY, calls[..n]).Some?
    ensures Depth(Tokens(calls[..n + 1])) == -1
  {
    hide After, Depth, FrameTokens, Nesting;
    var before, upto := calls[..n], calls[..n + 1];
    assert upto[..|upto| - 1] == before && upto[|upto| - 1] == EndWrap;
    NestingIsHeight(before);
    StackPrints(before);
    BottomDepth(Follow(EMPTY, before).value.top);
    DepthAppend(Tokens(before), [Close], 0);
    assert Depth([Close]) == -1 by { CloseDepth(); }
  }

  lemma CloseDepth()
    ensures Depth([Close]) == -1
  {
  }

  /** The tokens are a viable prefix exactly when no accepted EndWrap had nothing to close. */
  lemma ViableUnlessClosingNothing(calls: seq<Call>)
    ensures Viable(Tokens(calls)) <==> !exists n: nat :: ClosesNothing(calls, n)
  {
    hide ClosesNothing, Follow, Tokens, StackTokens;
    StackIsLostByClosing(calls);
    if Follow(EMPTY, calls).Some? {
      StackPrints(calls);
      StackIsViable(Follow(EMPTY, calls).value);
    } else {
      FirstLoss(calls);
      var n: nat :| ClosesNothing(calls, n) && n < |calls| && Follow(EMPTY, calls[..n]).Some?;
      ClosingNothingIsBelow(calls, n);
      TokensGrow(calls, n + 1);
      if Viable(Tokens(calls)) {
        var d :| Tokens(calls) <= Print(d);
        assert Viable(Tokens(calls[..n + 1]));
        ViableStays(Tokens(calls[..n + 1]));
        StaysMeansDepth(Tokens(calls[..n + 1]), 0);
      }
    }
  }

  lemma {:induction false} FirstLoss(calls: seq<Call>)
    requires Follow(EMPTY, calls).None?
    ensures exists n: nat :: ClosesNothing(calls, n) && n < |calls| && Follow(EMPTY, calls[..n]).Some?
  {
    hide After, Nesting;
    var last := |calls| - 1;
    var before := calls[..last];
    if Follow(EMPTY, before).Some? {
      LostHere(calls);
      assert ClosesNothing(calls, last);
    } else {
      FirstLoss(before);
      var n: nat :| ClosesNothing(before, n) && n < |before| && Follow(EMPTY, before[..n]).Some?;
      assert before[..n] == calls[..n];
      assert ClosesNothing(calls, n);
    }
  }

  // ---------------------------------------------------------------- isNeedAnd

  lemma TestTokensEnd(column: Column, t: Test)
    ensures var ts := ColumnTokens(column) + TestTokens(t); ts != [] && Ends(ts[|ts| - 1])
  {
  }

  lemma EmittedEnds(s: Clause, c: Call)
    ensures var ts, needAnd := Emitted(s.needAnd, c), Apply(s, c).needAnd;
      if ts == [] then needAnd == s.needAnd else needAnd == Ends(ts[|ts| - 1])
  {
    hide TestTokens, ColumnTokens, Normalized, RemoveQuotes, TestText, TheColumn, Joiner;
    if IsTest(c) && Checked(c) { TestTokensEnd(TheColumn(c.field), TestOf(c)); }
  }

  /** After any calls, `isNeedAnd` is true exactly when the last operand is complete. */
  lemma {:induction false} NeedAndMeansComplete(calls: seq<Call>)
    ensures After(calls).needAnd <==> Tokens(calls) != [] && Ends(Tokens(calls)[|Tokens(calls)| - 1])
  {
    hide Apply, Emitted;
    if calls != [] {
      var before, c := calls[..|calls| - 1], calls[|calls| - 1];
      NeedAndMeansComplete(before);
      EmittedEnds(After(before), c);
    }
  }

  lemma OrCallWritesOr(calls: seq<Call>)
    requires After(calls).needAnd
    ensures Tokens(calls + [OrCall]) == Tokens(calls) + [Or]
    ensures forall n: nat | n <= |calls| :: (calls + [OrCall])[..n] == calls[..n]
  {
    TokensOfOneMore(calls, OrCall);
    hide After, Tokens;
  }

  lemma TokensOfOneMore(calls: seq<Call>, c: Call)
    ensures Tokens(calls + [c]) == Tokens(calls) + Emitted(After(calls).needAnd, c)
  {
    hide Emitted, After;
    var more := calls + [c];
    assert more[..|more| - 1] == calls && more[|more| - 1] == c;
  }

  /** In grammar terms: `isNeedAnd` is true exactly when an OR may come next. */
  lemma NeedAndMeansOrIsViable(calls: seq<Call>)
    requires Viable(Tokens(calls))
    ensures After(calls).needAnd <==> Viable(Tokens(calls) + [Or])
  {
    hide Viable, After, Tokens, Nesting;
    if After(calls).needAnd {
      OrCallWritesOr(calls);
      ViableUnlessClosingNothing(calls);
      ViableUnlessClosingNothing(calls + [OrCall]);
      forall n: nat ensures !ClosesNothing(calls + [OrCall], n) { assert !ClosesNothing(calls, n); }
    } else if Viable(Tokens(calls) + [Or]) {
      NeedAndMeansComplete(calls);
      OrNeedsOperand(Tokens(calls));
    }
  }

  // ---------------------------------------------------------------- exactly the finished clauses mean something

  lemma {:induction false} StackDepth(st: Stack)
    ensures Depth(StackTokens(st)) == Height(st)
  {
    hide Depth, FrameTokens;
    BottomDepth(st.top);
    if st.Above? {
      var joiner := if st.below.top.right.Some? then [And] else [];
      StackDepth(st.below);
      JoinerDepth(st.below.top.right.Some?);
      DepthAppend(StackTokens(st.below), joiner, 0);
      DepthAppend(StackTokens(st.below) + joiner, [Open], 0);
      DepthAppend(StackTokens(st.below) + joiner + [Open], FrameTokens(st.top), 0);
    }
  }

  lemma JoinerDepth(needAnd: bool)
    ensures Depth(if needAnd then [And] else []) == 0 && Depth([Open]) == 1
  {
  }

  lemma PrintedIsFinished(calls: seq<Call>, d: Disj)
    requires Tokens(calls) == Print(d)
    ensures Follow(EMPTY, calls).Some? && Follow(EMPTY, calls).value.Bottom? && After(calls).needAnd
  {
    hide Tokens, After, Follow, Print, StackTokens, Depth, ClosesNothing;
    assert Viable(Tokens(calls));
    ViableUnlessClosingNothing(calls);
    StackIsLostByClosing(calls);
    StackPrints(calls);
    StackDepth(Follow(EMPTY, calls).value);
    PrintIsLevel(d);
    PrintIsJoined(d);
    NeedAndMeansComplete(calls);
  }

  /** Over column names, the text and arguments mean something exactly when nothing was closed that was not open,
      nothing is left open, and the last operand is complete; then they mean the tree the calls describe. */
  lemma NamedClauseHasMeaningIff(calls: seq<Call>)
    requires Named(calls)
    ensures var s := After(calls);
      Meaning(s.text, s.args).Some? <==>
        (!exists n: nat :: ClosesNothing(calls, n)) && Nesting(calls) == 0 && s.needAnd
    ensures Meaning(After(calls).text, After(calls).args).Some? ==>
      Follow(EMPTY, calls).Some? && Follow(EMPTY, calls).value.top.right.Some?
      && Meaning(After(calls).text, After(calls).args) == Some(Whole(Follow(EMPTY, calls).value.top))
  {
    hide Tokens, After, Follow, Parse, Lex, Bind, Reads, ClosesNothing, Nesting, Named;
    StackIsLostByClosing(calls);
    TextReadsAsTokens(calls);
    ReadsLexes(After(calls).text, Erase(Tokens(calls)));
    PlaceholdersAreArguments(calls);
    if Parse(Tokens(calls)).Some? {
      ParseIff(Tokens(calls), Parse(Tokens(calls)).value);
      PrintedIsFinished(calls, Parse(Tokens(calls)).value);
    }
    if Follow(EMPTY, calls).Some? {
      NestingIsHeight(calls);
      if Nesting(calls) == 0 && After(calls).needAnd { ClauseMeansItsTree(calls); }
    }
  }

  // ---------------------------------------------------------------- every condition can be built

  /** Conditions over proper names whose compared values are not empty. */
  predicate Sayable(f: Factor) {
    match f
    case Atom(column, test) =>
      && TidyColumn(column)
      && (test.Compare? ==> test.value != "")
      && (test.Range? ==> test.low != "" && test.high != "")
    case Paren(d) => SayableDisj(d)
  }

  predicate SayableConj(c: Conj) {
    match c
    case Just(f) => Sayable(f)
    case AndAlso(terms, f) => SayableConj(terms) && Sayable(f)
  }

  predicate SayableDisj(d: Disj) {
    match d
    case Only(c) => SayableConj(c)
    case OrElse(cases, c) => SayableDisj(cases) && SayableConj(c)
  }

  function FieldOf(c: Column): string { if c.Plain? then c.name else c.table + "." + c.name }

  function CallFor(column: Column, test: Test): Call {
    var field := FieldOf(column);
    match test
    case Compare(op, value) => CompareTo(field, op, value)
    case NullTest(negated) => NullCheck(field, negated)
    case Range(negated, low, high) => InRange(field, negated, low, high)
    case Member(negated, first, more) => InList(field, negated, [first] + more)
  }

  function ScriptFactor(f: Factor): seq<Call> {
    match f
    case Atom(column, test) => [CallFor(column, test)]
    case Paren(d) => [BeginWrap] + Script(d) + [EndWrap]
  }

  function ScriptConj(c: Conj): seq<Call> {
    match c
    case Just(f) => ScriptFactor(f)
    case AndAlso(terms, f) => ScriptConj(terms) + ScriptFactor(f)
  }

  /** The calls a caller would write for a condition. */
  function Script(d: Disj): seq<Call> {
    match d
    case Only(c) => ScriptConj(c)
    case OrElse(cases, c) => Script(cases) + [OrCall] + ScriptConj(c)
  }

  lemma {:induction false} FollowAppend(st: Stack, a: seq<Call>, b: seq<Call>)
    ensures Follow(st, a + b) == if Follow(st, a).None? then None else Follow(Follow(st, a).value, b)
    decreases |b|
  {
    if b == [] {
      assert a + b == a;
    } else {
      var b' := b[..|b| - 1];
      assert (a + b)[..|a + b| - 1] == a + b';
      FollowAppend(st, a, b');
    }
  }

  lemma FollowOne(st: Stack, c: Call)
    ensures Follow(st, [c]) == Advance(st, c)
  {
    assert [c][..0] == [];
    assert Follow(st, []) == Some(st);
  }

  lemma CallForBuilds(column: Column, test: Test)
    requires Sayable(Atom(column, test))
    ensures var c := CallFor(column, test);
      IsTest(c) && Checked(c) && ColumnOf(c.field) == Some(column) && TestOf(c) == test
  {
    hide ColumnOf;
    ColumnNamed(column);
  }

  lemma {:induction false} ScriptFactorBuilds(st: Stack, f: Factor)
    requires Sayable(f)
    ensures Follow(st, ScriptFactor(f)) == Some(WithTop(st, WithFactor(st.top, f)))
    decreases f, 0
  {
    hide Follow;
    match f
    case Atom(column, test) => {
      CallForBuilds(column, test);
      FollowOne(st, CallFor(column, test));
    }
    case Paren(d) => {
      var wrapped := Above(st, Frame(None, None));
      FollowOne(st, BeginWrap);
      ScriptBuilds(wrapped, d);
      FollowAppend(st, [BeginWrap], Script(d));
      var inner := WithTop(wrapped, FrameOf(d));
      FollowOne(inner, EndWrap);
      FollowAppend(st, [BeginWrap] + Script(d), [EndWrap]);
    }
  }

  lemma {:induction false} ScriptConjBuilds(st: Stack, c: Conj)
    requires SayableConj(c) && st.top.right.None?
    ensures Follow(st, ScriptConj(c)) == Some(WithTop(st, st.top.(right := Some(c))))
    decreases c, 1
  {
    hide Follow, ScriptFactor, Sayable;
    match c
    case Just(f) => ScriptFactorBuilds(st, f);
    case AndAlso(terms, f) => {
      ScriptConjBuilds(st, terms);
      FollowAppend(st, ScriptConj(terms), ScriptFactor(f));
      ScriptFactorBuilds(WithTop(st, st.top.(right := Some(terms))), f);
    }
  }

  function FrameOf(d: Disj): Frame {
    match d
    case Only(c) => Frame(None, Some(c))
    case OrElse(cases, c) => Frame(Some(cases), Some(c))
  }

  lemma {:induction false} ScriptBuilds(st: Stack, d: Disj)
    requires SayableDisj(d) && st.top == Frame(None, None)
    ensures Follow(st, Script(d)) == Some(WithTop(st, FrameOf(d))) && Whole(FrameOf(d)) == d
    decreases d, 2
  {
    hide Follow, ScriptConj, SayableConj;
    match d
    case Only(c) => ScriptConjBuilds(st, c);
    case OrElse(cases, c) => {
      ScriptBuilds(st, cases);
      FollowOne(WithTop(st, FrameOf(cases)), OrCall);
      FollowAppend(st, Script(cases), [OrCall]);
      FollowAppend(st, Script(cases) + [OrCall], ScriptConj(c));
      ScriptConjBuilds(WithTop(st, Frame(Some(cases), None)), c);
    }
  }

  lemma NamedAppend(a: seq<Call>, b: seq<Call>)
    requires Named(a) && Named(b)
    ensures Named(a + b)
  {
  }

  lemma {:induction false} ScriptFactorIsNamed(f: Factor)
    requires Sayable(f)
    ensures Named(ScriptFactor(f))
    decreases f, 0
  {
    hide ColumnOf, TidyColumn;
    match f
    case Atom(column, test) => CallForBuilds(column, test);
    case Paren(d) => ScriptIsNamed(d);
  }

  lemma {:induction false} ScriptConjIsNamed(c: Conj)
    requires SayableConj(c)
    ensures Named(ScriptConj(c))
    decreases c, 1
  {
    hide Named, Sayable, ScriptFactor;
    match c
    case Just(f) => ScriptFactorIsNamed(f);
    case AndAlso(terms, f) => {
      ScriptConjIsNamed(terms);
      ScriptFactorIsNamed(f);
      NamedAppend(ScriptConj(terms), ScriptFactor(f));
    }
  }

  lemma {:induction false} ScriptIsNamed(d: Disj)
    requires SayableDisj(d)
    ensures Named(Script(d))
    decreases d, 2
  {
    match d
    case Only(c) => ScriptConjIsNamed(c);
    case OrElse(cases, c) => {
      hide SayableConj, ScriptConj;
      ScriptIsNamed(cases);
      ScriptConjIsNamed(c);
      assert Named([OrCall]);
      hide Named;
      NamedAppend(Script(cases), [OrCall]);
      NamedAppend(Script(cases) + [OrCall], ScriptConj(c));
    }
  }

  /** Every condition over proper names and non-empty values is built by its script, and read back from the
      characters and arguments that script produces. */
  lemma ScriptRoundTrip(d: Disj)
    requires SayableDisj(d)
    ensures var s := After(Script(d)); Meaning(s.text, s.args) == Some(d)
  {
    hide Meaning, After, Script, Named, SayableDisj;
    ScriptBuilds(EMPTY, d);
    ScriptIsNamed(d);
    StackPrints(Script(d));
    ClauseMeansItsTree(Script(d));
  }
}
