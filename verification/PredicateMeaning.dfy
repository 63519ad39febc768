/** What the characters and the bind arguments of a where clause mean, for every sequence of calls. */
module PredicateMeaning {
  import opened Options
  import opened Conditions
  import opened ClauseText
  import opened FieldNames
  import opened Predicates

  // ---------------------------------------------------------------- binding arguments to placeholders

  /** The n-th placeholder takes the n-th argument; None when their numbers differ. */
  function Bind(ts: seq<Token>, args: seq<string>): Option<seq<Token>> {
    if ts == [] then if args == [] then Some([]) else None
    else if ts[0] == Mark && args == [] then None
    else
      var (t, rest) := if ts[0] == Mark then (Value(args[0]), args[1..]) else (ts[0], args);
      match Bind(ts[1..], rest)
      case None => None
      case Some(bound) => Some([t] + bound)
  }

  /** How a database reads a clause with its bind arguments. */
  function Meaning(text: string, args: seq<string>): Option<Disj> {
    match Bind(Lex(text), args)
    case None => None
    case Some(ts) => Parse(ts)
  }

  function Values(ts: seq<Token>): seq<string> {
    if ts == [] then [] else (if ts[0].Value? then [ts[0].value] else []) + Values(ts[1..])
  }

  lemma {:induction false} ValuesAppend(a: seq<Token>, b: seq<Token>)
    ensures Values(a + b) == Values(a) + Values(b)
    decreases |a|
  {
    if a == [] {
      assert a + b == b;
    } else {
      assert (a + b)[1..] == a[1..] + b;
      ValuesAppend(a[1..], b);
    }
  }

  lemma {:induction false} BindErase(ts: seq<Token>)
    requires Mark !in ts
    ensures Bind(Erase(ts), Values(ts)) == Some(ts)
  {
    if ts != [] {
      BindErase(ts[1..]);
      var vs := Values(ts[1..]);
      assert Erase(ts)[1..] == Erase(ts[1..]);
      assert ts == [ts[0]] + ts[1..];
      if ts[0].Value? { assert Values(ts)[1..] == vs; } else { assert Values(ts) == vs; }
    }
  }

  /** The tokens hold the values `vs`, in order, and no open placeholder. */
  ghost predicate Carries(ts: seq<Token>, vs: seq<string>) { Values(ts) == vs && Mark !in ts }

  lemma CarriesGlue(a: seq<Token>, va: seq<string>, b: seq<Token>, vb: seq<string>, ts: seq<Token>, vs: seq<string>)
    requires Carries(a, va) && Carries(b, vb) && ts == a + b && vs == va + vb
    ensures Carries(ts, vs)
  {
    ValuesAppend(a, b);
  }

  lemma {:induction false} CarriesNone(ts: seq<Token>)
    requires forall t | t in ts :: !t.Value? && t != Mark
    ensures Carries(ts, [])
  {
    if ts != [] { CarriesNone(ts[1..]); }
  }

  lemma CarriesOne(t: Token, v: string)
    requires t != Mark && !t.Value?
    ensures Carries([Value(v)], [v]) && Carries([t, Value(v)], [v])
  {
    assert [t, Value(v)][1..] == [Value(v)];
  }

  lemma {:induction false} MoreCarry(more: seq<string>)
    ensures Carries(MoreTokens(more), more)
  {
    if more != [] {
      MoreCarry(more[1..]);
      CarriesOne(Comma, more[0]);
      hide Carries;
      CarriesGlue([Comma, Value(more[0])], [more[0]], MoreTokens(more[1..]), more[1..], MoreTokens(more), more);
    }
  }

  lemma MemberCarries(negated: bool, first: string, more: seq<string>)
    ensures Carries(TestTokens(Member(negated, first, more)), [first] + more)
  {
    hide Carries, MoreTokens;
    var head := Negation(negated) + [In, Open];
    CarriesNone(head);
    CarriesOne(In, first);
    MoreCarry(more);
    CarriesNone([Close]);
    CarriesGlue(head, [], [Value(first)], [first], head + [Value(first)], [first]);
    hide Negation;
    CarriesGlue(head + [Value(first)], [first], MoreTokens(more), more, head + [Value(first)] + MoreTokens(more), [first] + more);
    CarriesGlue(head + [Value(first)] + MoreTokens(more), [first] + more, [Close], [],
                TestTokens(Member(negated, first, more)), [first] + more);
  }

  lemma RangeCarries(negated: bool, low: string, high: string)
    ensures Carries(TestTokens(Range(negated, low, high)), [low, high])
  {
    hide Carries;
    CarriesNone(Negation(negated));
    CarriesOne(Between, low);
    CarriesOne(And, high);
    CarriesGlue(Negation(negated), [], [Between, Value(low)], [low], Negation(negated) + [Between, Value(low)], [low]);
    CarriesGlue(Negation(negated) + [Between, Value(low)], [low], [And, Value(high)], [high],
                TestTokens(Range(negated, low, high)), [low, high]);
  }

  lemma TestCarries(t: Test)
    ensures Carries(TestTokens(t), Arguments(t))
  {
    hide Carries;
    match t
    case Compare(op, v) => CarriesOne(Rel(op), v);
    case NullTest(negated) => CarriesNone(TestTokens(t));
    case Range(negated, low, high) => RangeCarries(negated, low, high);
    case Member(negated, first, more) => MemberCarries(negated, first, more);
  }

  /** What a call adds to the arguments. */
  function Added(c: Call): seq<string> { if IsTest(c) && Checked(c) then Arguments(TestOf(c)) else [] }

  lemma ApplyAdds(s: Clause, c: Call)
    ensures Apply(s, c).args == s.args + Added(c)
  {
    hide Arguments, Normalized, RemoveQuotes, TestText, Joiner;
  }

  lemma TestCallCarries(needAnd: bool, c: Call)
    requires IsTest(c) && Checked(c)
    ensures Carries(Emitted(needAnd, c), Added(c))
  {
    hide Carries, TestTokens, Arguments, TheColumn;
    var joiner := if needAnd then [And] else [];
    var column, test := ColumnTokens(TheColumn(c.field)), TestOf(c);
    CarriesNone(joiner + column);
    TestCarries(test);
    hide ColumnTokens;
    CarriesGlue(joiner + column, [], TestTokens(test), Arguments(test), Emitted(needAnd, c), Added(c));
  }

  lemma EmittedCarries(needAnd: bool, c: Call)
    ensures Carries(Emitted(needAnd, c), Added(c))
  {
    hide Carries, TestTokens, Arguments, TheColumn, ColumnTokens;
    if IsTest(c) && Checked(c) { TestCallCarries(needAnd, c); } else { CarriesNone(Emitted(needAnd, c)); }
  }

  /** The placeholders are the collected arguments, in number and order, after any calls. */
  lemma {:induction false} PlaceholdersAreArguments(calls: seq<Call>)
    ensures Values(Tokens(calls)) == After(calls).args && Mark !in Tokens(calls)
    ensures Bind(Erase(Tokens(calls)), After(calls).args) == Some(Tokens(calls))
  {
    if calls != [] {
      var before, c := calls[..|calls| - 1], calls[|calls| - 1];
      hide Apply, Emitted;
      PlaceholdersAreArguments(before);
      EmittedCarries(After(before).needAnd, c);
      ApplyAdds(After(before), c);
      CarriesGlue(Tokens(before), After(before).args, Emitted(After(before).needAnd, c), Added(c),
                  Tokens(calls), After(calls).args);
    }
    BindErase(Tokens(calls));
  }

  // ---------------------------------------------------------------- the characters read as the tokens

  /** Every accepted test names a column. */
  ghost predicate Named(calls: seq<Call>) {
    forall c | c in calls && IsTest(c) && Checked(c) :: ColumnOf(c.field).Some?
  }

  lemma ReadsJoiner(c: Call, needAnd: bool)
    ensures Reads(Joiner(c, needAnd), if needAnd then [And] else [])
  {
    hide Reads;
    ReadsNothing();
    ReadsKeyword("AND ", "AND", And);
    ReadsKeyword(" AND ", "AND", And);
  }

  lemma ReadsParentheses()
    ensures Reads(" ( ", [Open]) && Reads(" ) ", [Close]) && Reads(" OR ", [Or])
  {
    hide Reads;
    ReadsNothing();
    ReadsPoint('(');
    ReadsPoint(')');
    Glue(" ", [], "(", [Open], " (", [Open]);
    Glue(" (", [Open], " ", [], " ( ", [Open]);
    Glue(" ", [], ")", [Close], " )", [Close]);
    Glue(" )", [Close], " ", [], " ) ", [Close]);
    ReadsKeyword(" OR ", "OR", Or);
  }

  function Written(s: Clause, c: Call): string {
    match c
    case BeginWrap => Joiner(c, s.needAnd) + " ( "
    case EndWrap => if s.needAnd then " ) " else ""
    case OrCall => if s.needAnd then " OR " else ""
    case AndCall => ""
    case _ => if Checked(c) then Joiner(c, s.needAnd) + (Normalized(RemoveQuotes(c.field)) + TestText(TestOf(c))) else ""
  }

  lemma ApplyWrites(s: Clause, c: Call)
    ensures Apply(s, c).text == s.text + Written(s, c)
  {
    hide Normalized, RemoveQuotes, TestText, Joiner;
  }

  lemma NoMarksErased(ts: seq<Token>)
    requires forall t | t in ts :: !t.Value?
    ensures Erase(ts) == ts
  {
  }

  lemma ReadsTestCall(s: Clause, c: Call)
    requires IsTest(c) && Checked(c) && ColumnOf(c.field).Some?
    ensures Reads(Written(s, c), Erase(Emitted(s.needAnd, c)))
  {
    hide Reads, TestText, TestTokens, ColumnOf, Normalized, RemoveQuotes, Joiner;
    var joiner := if s.needAnd then [And] else [];
    var column, test := TheColumn(c.field), TestOf(c);
    ColumnSpelling(c.field);
    ReadsColumn(column);
    ReadsTest(test);
    ReadsJoiner(c, s.needAnd);
    NoMarksErased(joiner);
    NoMarksErased(ColumnTokens(column));
    hide Erase, ColumnTokens;
    EraseAppend(ColumnTokens(column), TestTokens(test));
    EraseAppend(joiner, ColumnTokens(column) + TestTokens(test));
    ReadsAppend(Spelled(column), ColumnTokens(column), TestText(test), Erase(TestTokens(test)));
    ReadsAppend(Joiner(c, s.needAnd), joiner, Spelled(column) + TestText(test), ColumnTokens(column) + Erase(TestTokens(test)));
  }

  lemma ReadsCall(s: Clause, c: Call)
    requires IsTest(c) && Checked(c) ==> ColumnOf(c.field).Some?
    ensures Reads(Written(s, c), Erase(Emitted(s.needAnd, c)))
  {
    hide Reads, TestText, TestTokens, ColumnOf, Normalized, RemoveQuotes, Joiner;
    if IsTest(c) && Checked(c) {
      ReadsTestCall(s, c);
    } else {
      NoMarksErased(Emitted(s.needAnd, c));
      ReadsNothing();
      ReadsParentheses();
      ReadsJoiner(c, s.needAnd);
      if c.BeginWrap? { ReadsAppend(Joiner(c, s.needAnd), if s.needAnd then [And] else [], " ( ", [Open]); }
    }
  }

  /** The text written reads as the tokens written. */
  lemma {:induction false} TextReadsAsTokens(calls: seq<Call>)
    requires Named(calls)
    ensures Reads(After(calls).text, Erase(Tokens(calls)))
  {
    hide Reads, Apply, Emitted;
    if calls == [] {
      ReadsNothing();
    } else {
      var before, c := calls[..|calls| - 1], calls[|calls| - 1];
      var s := After(before);
      TextReadsAsTokens(before);
      ReadsCall(s, c);
      ApplyWrites(s, c);
      EraseAppend(Tokens(before), Emitted(s.needAnd, c));
      ReadsAppend(s.text, Erase(Tokens(before)), Written(s, c), Erase(Emitted(s.needAnd, c)));
    }
  }

  lemma ReadsLexes(s: string, ts: seq<Token>)
    requires Reads(s, ts)
    ensures Lex(s) == ts
  {
    assert [] + ts == ts;
  }

  /** A balanced, finished clause over column names, read with its bind arguments, is the tree the calls describe. */
  lemma ClauseMeansItsTree(calls: seq<Call>)
    requires Named(calls) && Follow(EMPTY, calls).Some?
    requires Follow(EMPTY, calls).value.Bottom? && After(calls).needAnd
    ensures Follow(EMPTY, calls).value.top.right.Some?
    ensures Meaning(After(calls).text, After(calls).args) == Some(Whole(Follow(EMPTY, calls).value.top))
  {
    hide Reads, Lex, After, Follow, Tokens, Named, Print, FrameTokens, Parse, Bind;
    var f := Follow(EMPTY, calls).value.top;
    StackPrints(calls);
    WholeTokens(f);
    TextReadsAsTokens(calls);
    ReadsLexes(After(calls).text, Erase(Tokens(calls)));
    PlaceholdersAreArguments(calls);
    ParsePrint(Whole(f));
  }
}
