/** Search conditions (section 8.12 of ISO/IEC 9075:1992) over the tests that predicates can express:
    trees, their token form, and a parser. */
module Conditions {
  import opened Options

  datatype Op = Eq | Ne | Gt | Lt | Ge | Le | Like | Glob

  datatype Token =
    | Name(name: string) | Dot | Mark | Value(value: string) | Rel(op: Op)
    | Is | Null | Not | Between | In | Comma | Open | Close | And | Or | Other(text: string)

  datatype Column = Plain(name: string) | Qualified(table: string, name: string)

  datatype Test =
    | Compare(op: Op, value: string)
    | NullTest(negated: bool)
    | Range(negated: bool, low: string, high: string)
    | Member(negated: bool, first: string, more: seq<string>)

  /** A boolean factor, a boolean term, a search condition; AND binds tighter than OR, both to the left. */
  datatype Factor = Atom(column: Column, test: Test) | Paren(inner: Disj)
  datatype Conj = Just(factor: Factor) | AndAlso(terms: Conj, factor: Factor)
  datatype Disj = Only(term: Conj) | OrElse(cases: Disj, term: Conj)

  // ---------------------------------------------------------------- printing

  function ColumnTokens(c: Column): seq<Token> {
    match c
    case Plain(name) => [Name(name)]
    case Qualified(table, name) => [Name(table), Dot, Name(name)]
  }

  function Negation(negated: bool): seq<Token> { if negated then [Not] else [] }

  function MoreTokens(more: seq<string>): seq<Token> {
    if more == [] then [] else [Comma, Value(more[0])] + MoreTokens(more[1..])
  }

  function TestTokens(t: Test): seq<Token> {
    match t
    case Compare(op, value) => [Rel(op), Value(value)]
    case NullTest(negated) => [Is] + Negation(negated) + [Null]
    case Range(negated, low, high) => Negation(negated) + [Between, Value(low), And, Value(high)]
    case Member(negated, first, more) => Negation(negated) + [In, Open, Value(first)] + MoreTokens(more) + [Close]
  }

  function PrintFactor(f: Factor): seq<Token> {
    match f
    case Atom(column, test) => ColumnTokens(column) + TestTokens(test)
    case Paren(inner) => [Open] + Print(inner) + [Close]
  }

  function PrintConj(c: Conj): seq<Token> {
    match c
    case Just(f) => PrintFactor(f)
    case AndAlso(terms, f) => PrintConj(terms) + [And] + PrintFactor(f)
  }

  function Print(d: Disj): seq<Token> {
    match d
    case Only(c) => PrintConj(c)
    case OrElse(cases, c) => Print(cases) + [Or] + PrintConj(c)
  }

  // ---------------------------------------------------------------- parsing

  datatype Parsed<+T> = Fail | Done(value: T, rest: seq<Token>)

  predicate Starts(ts: seq<Token>, t: Token) { |ts| > 0 && ts[0] == t }

  function ParseColumn(ts: seq<Token>): (r: Parsed<Column>)
    ensures r.Done? ==> |r.rest| < |ts|
  {
    if |ts| >= 3 && ts[0].Name? && ts[1] == Dot && ts[2].Name? then Done(Qualified(ts[0].name, ts[2].name), ts[3..])
    else if |ts| >= 1 && ts[0].Name? then Done(Plain(ts[0].name), ts[1..])
    else Fail
  }

  function ParseMore(ts: seq<Token>): (r: (seq<string>, seq<Token>))
    ensures |r.1| <= |ts|
  {
    if |ts| >= 2 && ts[0] == Comma && ts[1].Value? then
      var (more, rest) := ParseMore(ts[2..]);
      ([ts[1].value] + more, rest)
    else ([], ts)
  }

  /** BETWEEN and IN, once an optional NOT has been read. */
  function ParseNegatable(negated: bool, ts: seq<Token>): (r: Parsed<Test>)
    ensures r.Done? ==> |r.rest| < |ts|
  {
    if |ts| >= 4 && ts[0] == Between && ts[1].Value? && ts[2] == And && ts[3].Value? then
      Done(Range(negated, ts[1].value, ts[3].value), ts[4..])
    else if |ts| >= 3 && ts[0] == In && ts[1] == Open && ts[2].Value? then
      var (more, rest) := ParseMore(ts[3..]);
      if Starts(rest, Close) then Done(Member(negated, ts[2].value, more), rest[1..]) else Fail
    else Fail
  }

  function ParseTest(ts: seq<Token>): (r: Parsed<Test>)
    ensures r.Done? ==> |r.rest| < |ts|
  {
    if |ts| >= 2 && ts[0].Rel? && ts[1].Value? then Done(Compare(ts[0].op, ts[1].value), ts[2..])
    else if |ts| >= 2 && ts[0] == Is && ts[1] == Null then Done(NullTest(false), ts[2..])
    else if |ts| >= 3 && ts[0] == Is && ts[1] == Not && ts[2] == Null then Done(NullTest(true), ts[3..])
    else if Starts(ts, Not) then ParseNegatable(true, ts[1..])
    else ParseNegatable(false, ts)
  }

  function ParseFactor(ts: seq<Token>): (r: Parsed<Factor>)
    ensures r.Done? ==> |r.rest| < |ts|
    decreases |ts|, 0
  {
    if Starts(ts, Open) then
      match ParseDisj(ts[1..])
      case Done(d, rest) => if Starts(rest, Close) then Done(Paren(d), rest[1..]) else Fail
      case Fail => Fail
    else
      match ParseColumn(ts)
      case Fail => Fail
      case Done(column, rest) =>
        match ParseTest(rest)
        case Done(test, rest') => Done(Atom(column, test), rest')
        case Fail => Fail
  }

  function ConjTail(c: Conj, ts: seq<Token>): (r: Parsed<Conj>)
    ensures r.Done? ==> |r.rest| <= |ts|
    decreases |ts|, 0
  {
    if Starts(ts, And) then
      match ParseFactor(ts[1..])
      case Done(f, rest) => ConjTail(AndAlso(c, f), rest)
      case Fail => Fail
    else Done(c, ts)
  }

  function ParseConj(ts: seq<Token>): (r: Parsed<Conj>)
    ensures r.Done? ==> |r.rest| < |ts|
    decreases |ts|, 1
  {
    match ParseFactor(ts)
    case Done(f, rest) => ConjTail(Just(f), rest)
    case Fail => Fail
  }

  function DisjTail(d: Disj, ts: seq<Token>): (r: Parsed<Disj>)
    ensures r.Done? ==> |r.rest| <= |ts|
    decreases |ts|, 1
  {
    if Starts(ts, Or) then
      match ParseConj(ts[1..])
      case Done(c, rest) => DisjTail(OrElse(d, c), rest)
      case Fail => Fail
    else Done(d, ts)
  }

  function ParseDisj(ts: seq<Token>): (r: Parsed<Disj>)
    ensures r.Done? ==> |r.rest| < |ts|
    decreases |ts|, 2
  {
    match ParseConj(ts)
    case Done(c, rest) => DisjTail(Only(c), rest)
    case Fail => Fail
  }

  function Parse(ts: seq<Token>): Option<Disj> {
    match ParseDisj(ts)
    case Done(d, rest) => if rest == [] then Some(d) else None
    case Fail => None
  }

  // ---------------------------------------------------------------- the parser inverts the printer

  lemma {:induction false} ParseMorePrint(more: seq<string>, rest: seq<Token>)
    requires !Starts(rest, Comma)
    ensures ParseMore(MoreTokens(more) + rest) == (more, rest)
  {
    var ts := MoreTokens(more) + rest;
    if more == [] {
      assert ts == rest;
    } else {
      ParseMorePrint(more[1..], rest);
      assert ts[2..] == MoreTokens(more[1..]) + rest;
      assert [more[0]] + more[1..] == more;
    }
  }

  lemma ParseColumnPrint(c: Column, rest: seq<Token>)
    requires !Starts(rest, Dot)
    ensures ParseColumn(ColumnTokens(c) + rest) == Done(c, rest)
  {
    match c
    case Plain(name) => assert (ColumnTokens(c) + rest)[1..] == rest;
    case Qualified(table, name) => assert (ColumnTokens(c) + rest)[3..] == rest;
  }

  lemma ParseRangePrint(negated: bool, low: string, high: string, rest: seq<Token>)
    ensures ParseNegatable(negated, [Between, Value(low), And, Value(high)] + rest) == Done(Range(negated, low, high), rest)
  {
    assert ([Between, Value(low), And, Value(high)] + rest)[4..] == rest;
  }

  lemma ParseMemberPrint(negated: bool, first: string, more: seq<string>, rest: seq<Token>)
    ensures ParseNegatable(negated, [In, Open, Value(first)] + MoreTokens(more) + [Close] + rest)
         == Done(Member(negated, first, more), rest)
  {
    var ts := [In, Open, Value(first)] + MoreTokens(more) + [Close] + rest;
    var tail := [Close] + rest;
    ParseMorePrint(more, tail);
    assert ts[3..] == MoreTokens(more) + tail && tail[1..] == rest;
  }

  lemma ParseNegation(negated: bool, body: seq<Token>)
    requires |body| > 0 && !body[0].Rel? && body[0] != Is && body[0] != Not
    ensures ParseTest(Negation(negated) + body) == ParseNegatable(negated, body)
  {
    var ts := Negation(negated) + body;
    assert if negated then ts[1..] == body else ts == body;
  }

  lemma ParsePlainPrint(t: Test, rest: seq<Token>)
    requires t.Compare? || t.NullTest?
    ensures ParseTest(TestTokens(t) + rest) == Done(t, rest)
  {
    var ts := TestTokens(t) + rest;
    match t
    case Compare(op, value) => assert ts[2..] == rest;
    case NullTest(negated) => assert if negated then ts[3..] == rest else ts[2..] == rest;
  }

  lemma ParseTestPrint(t: Test, rest: seq<Token>)
    ensures ParseTest(TestTokens(t) + rest) == Done(t, rest)
  {
    hide ParseTest, ParseNegatable, TestTokens;
    match t
    case Compare(_, _) => ParsePlainPrint(t, rest);
    case NullTest(_) => ParsePlainPrint(t, rest);
    case Range(negated, low, high) => {
      RangeTokens(negated, low, high, rest);
      ParseRangePrint(negated, low, high, rest);
      ParseNegation(negated, [Between, Value(low), And, Value(high)] + rest);
    }
    case Member(negated, first, more) => {
      MemberTokens(negated, first, more, rest);
      ParseMemberPrint(negated, first, more, rest);
      ParseNegation(negated, [In, Open, Value(first)] + MoreTokens(more) + [Close] + rest);
    }
  }

  lemma RangeTokens(negated: bool, low: string, high: string, rest: seq<Token>)
    ensures TestTokens(Range(negated, low, high)) + rest
         == Negation(negated) + ([Between, Value(low), And, Value(high)] + rest)
  {
    hide Negation;
  }

  lemma MemberTokens(negated: bool, first: string, more: seq<string>, rest: seq<Token>)
    ensures TestTokens(Member(negated, first, more)) + rest
         == Negation(negated) + ([In, Open, Value(first)] + MoreTokens(more) + [Close] + rest)
  {
    hide Negation, MoreTokens;
  }

  /** What the first token of a test, and of a column, is not. */
  lemma FirstTokens(c: Column, t: Test, rest: seq<Token>)
    ensures !Starts(TestTokens(t) + rest, Dot) && !Starts(ColumnTokens(c) + rest, Open)
  {
  }

  lemma {:induction false} ParseFactorPrint(f: Factor, rest: seq<Token>)
    ensures ParseFactor(PrintFactor(f) + rest) == Done(f, rest)
    decreases f, 0
  {
    hide ParseColumn, ParseTest, ColumnTokens, TestTokens, ParseDisj, Print;
    var ts := PrintFactor(f) + rest;
    match f
    case Atom(column, test) => {
      FirstTokens(column, test, rest);
      FirstTokens(column, test, TestTokens(test) + rest);
      ParseColumnPrint(column, TestTokens(test) + rest);
      ParseTestPrint(test, rest);
      assert ts == ColumnTokens(column) + (TestTokens(test) + rest);
    }
    case Paren(d) => {
      ParseDisjPrint(d, [Close] + rest);
      assert ts[1..] == Print(d) + ([Close] + rest);
      assert ([Close] + rest)[1..] == rest;
    }
  }

  lemma {:induction false} ParseConjPrint(c: Conj, rest: seq<Token>)
    ensures ParseConj(PrintConj(c) + rest) == ConjTail(c, rest)
    decreases c, 1
  {
    hide ParseFactor, PrintFactor;
    match c
    case Just(f) => ParseFactorPrint(f, rest);
    case AndAlso(terms, f) => {
      var tail := [And] + (PrintFactor(f) + rest);
      ParseConjPrint(terms, tail);
      assert PrintConj(c) + rest == PrintConj(terms) + tail;
      ParseFactorPrint(f, rest);
      assert tail[1..] == PrintFactor(f) + rest;
    }
  }

  lemma {:induction false} ParseDisjPrint(d: Disj, rest: seq<Token>)
    requires !Starts(rest, And)
    ensures ParseDisj(Print(d) + rest) == DisjTail(d, rest)
    decreases d, 2
  {
    hide ParseConj, PrintConj;
    match d
    case Only(c) => ParseConjPrint(c, rest); assert ConjTail(c, rest) == Done(c, rest);
    case OrElse(cases, c) => {
      var tail := [Or] + (PrintConj(c) + rest);
      ParseDisjPrint(cases, tail);
      assert Print(d) + rest == Print(cases) + tail;
      ParseConjPrint(c, rest);
      assert tail[1..] == PrintConj(c) + rest;
    }
  }

  /** Every tree is read back from its tokens, so no two trees print alike. */
  lemma ParsePrint(d: Disj)
    ensures Parse(Print(d)) == Some(d)
  {
    ParseDisjPrint(d, []);
    assert Print(d) + [] == Print(d);
  }

  lemma {:induction false} MoreSound(ts: seq<Token>)
    ensures var (more, rest) := ParseMore(ts); ts == MoreTokens(more) + rest
  {
    if |ts| >= 2 && ts[0] == Comma && ts[1].Value? {
      MoreSound(ts[2..]);
      var (more, rest) := ParseMore(ts[2..]);
      assert ([ts[1].value] + more)[1..] == more;
      assert ts == [Comma, ts[1]] + ts[2..];
    }
  }

  lemma ColumnSound(ts: seq<Token>)
    ensures match ParseColumn(ts)
      case Done(c, rest) => ts == ColumnTokens(c) + rest
      case Fail => true
  {
  }

  lemma NegatableSound(negated: bool, ts: seq<Token>)
    ensures match ParseNegatable(negated, ts)
      case Done(t, rest) => Negation(negated) + ts == TestTokens(t) + rest
      case Fail => true
  {
    hide TestTokens;
    match ParseNegatable(negated, ts)
    case Done(Range(_, low, high), rest) => {
      assert ts == [Between, Value(low), And, Value(high)] + rest;
      RangeTokens(negated, low, high, rest);
    }
    case Done(Member(_, first, more), rest) => {
      MemberSound(negated, ts, first, more, rest);
      MemberTokens(negated, first, more, rest);
    }
    case _ =>
  }

  lemma MemberSound(negated: bool, ts: seq<Token>, first: string, more: seq<string>, rest: seq<Token>)
    requires ParseNegatable(negated, ts) == Done(Member(negated, first, more), rest)
    ensures ts == [In, Open, Value(first)] + MoreTokens(more) + [Close] + rest
  {
    hide ParseMore, MoreTokens;
    var tail := ts[3..];
    MoreSound(tail);
    var after := ParseMore(tail).1;
    assert after == [Close] + rest;
    assert ts == [In, Open, Value(first)] + tail;
    Regroup([In, Open, Value(first)], MoreTokens(more), [Close], rest);
  }

  lemma Regroup(a: seq<Token>, b: seq<Token>, c: seq<Token>, d: seq<Token>)
    ensures a + (b + (c + d)) == a + b + c + d
  {
  }

  lemma TestSound(ts: seq<Token>)
    ensures match ParseTest(ts)
      case Done(t, rest) => ts == TestTokens(t) + rest
      case Fail => true
  {
    hide ParseNegatable, TestTokens;
    if Starts(ts, Not) {
      NegatableSound(true, ts[1..]);
      assert ts == Negation(true) + ts[1..];
    } else {
      NegatableSound(false, ts);
      assert ts == Negation(false) + ts;
      PlainSound(ts);
    }
  }

  lemma PlainSound(ts: seq<Token>)
    ensures match ParseTest(ts)
      case Done(Compare(op, value), rest) => ts == TestTokens(Compare(op, value)) + rest
      case Done(NullTest(negated), rest) => ts == TestTokens(NullTest(negated)) + rest
      case _ => true
  {
  }

  lemma {:induction false} FactorSound(ts: seq<Token>)
    ensures match ParseFactor(ts)
      case Done(f, rest) => ts == PrintFactor(f) + rest
      case Fail => true
    decreases |ts|, 0
  {
    hide ParseColumn, ParseTest, ColumnTokens, TestTokens, ParseDisj, Print;
    if Starts(ts, Open) {
      DisjSound(ts[1..]);
      match ParseDisj(ts[1..])
      case Done(d, rest) => {
        assert ts == [Open] + (Print(d) + rest);
        if Starts(rest, Close) { assert rest == [Close] + rest[1..]; }
      }
      case Fail =>
    } else {
      ColumnSound(ts);
      match ParseColumn(ts)
      case Done(_, rest) => TestSound(rest);
      case Fail =>
    }
  }

  lemma {:induction false} ConjTailSound(c: Conj, ts: seq<Token>)
    ensures match ConjTail(c, ts)
      case Done(c', rest) => PrintConj(c) + ts == PrintConj(c') + rest
      case Fail => true
    decreases |ts|, 0
  {
    hide ParseFactor, PrintFactor;
    if Starts(ts, And) {
      FactorSound(ts[1..]);
      match ParseFactor(ts[1..])
      case Done(f, rest) => {
        ConjTailSound(AndAlso(c, f), rest);
        assert ts == [And] + (PrintFactor(f) + rest);
        assert PrintConj(c) + ts == PrintConj(AndAlso(c, f)) + rest;
      }
      case Fail =>
    }
  }

  lemma {:induction false} ConjSound(ts: seq<Token>)
    ensures match ParseConj(ts)
      case Done(c, rest) => ts == PrintConj(c) + rest
      case Fail => true
    decreases |ts|, 1
  {
    hide ParseFactor, PrintFactor;
    FactorSound(ts);
    match ParseFactor(ts)
    case Done(f, rest) => ConjTailSound(Just(f), rest);
    case Fail =>
  }

  lemma {:induction false} DisjTailSound(d: Disj, ts: seq<Token>)
    ensures match DisjTail(d, ts)
      case Done(d', rest) => Print(d) + ts == Print(d') + rest
      case Fail => true
    decreases |ts|, 1
  {
    hide ParseConj, PrintConj;
    if Starts(ts, Or) {
      ConjSound(ts[1..]);
      match ParseConj(ts[1..])
      case Done(c, rest) => {
        DisjTailSound(OrElse(d, c), rest);
        assert ts == [Or] + (PrintConj(c) + rest);
        assert Print(d) + ts == Print(OrElse(d, c)) + rest;
      }
      case Fail =>
    }
  }

  lemma {:induction false} DisjSound(ts: seq<Token>)
    ensures match ParseDisj(ts)
      case Done(d, rest) => ts == Print(d) + rest
      case Fail => true
    decreases |ts|, 2
  {
    hide ParseConj, PrintConj;
    ConjSound(ts);
    match ParseConj(ts)
    case Done(c, rest) => DisjTailSound(Only(c), rest);
    case Fail =>
  }

  /** The parser accepts exactly the printed conditions. */
  lemma ParseIff(ts: seq<Token>, d: Disj)
    ensures Parse(ts) == Some(d) <==> ts == Print(d)
  {
    hide ParseDisj, Print;
    ParsePrint(d);
    DisjSound(ts);
    if Parse(ts) == Some(d) { assert Print(d) + [] == Print(d); }
  }

  // ---------------------------------------------------------------- viable prefixes

  /** `ts` can be completed to a search condition. */
  ghost predicate Viable(ts: seq<Token>) { exists d: Disj :: ts <= Print(d) }

  function Delta(t: Token): int { if t == Open then 1 else if t == Close then -1 else 0 }

  /** How many parentheses are open after `ts`. */
  function Depth(ts: seq<Token>): int { if ts == [] then 0 else Delta(ts[0]) + Depth(ts[1..]) }

  /** Read from depth `h`, the depth never falls below zero. */
  predicate Stays(ts: seq<Token>, h: int) { h >= 0 && (ts == [] || Stays(ts[1..], h + Delta(ts[0]))) }

  lemma {:induction false} DepthAppend(a: seq<Token>, b: seq<Token>, h: int)
    ensures Depth(a + b) == Depth(a) + Depth(b)
    ensures h >= 0 ==> (Stays(a + b, h) <==> Stays(a, h) && Stays(b, h + Depth(a)))
  {
    if a == [] {
      assert a + b == b;
    } else {
      assert (a + b)[1..] == a[1..] + b;
      DepthAppend(a[1..], b, h + Delta(a[0]));
    }
  }

  lemma {:induction false} StaysMeansDepth(ts: seq<Token>, h: int)
    requires Stays(ts, h)
    ensures h + Depth(ts) >= 0
  {
    if ts != [] { StaysMeansDepth(ts[1..], h + Delta(ts[0])); }
  }

  /** Tokens that keep the depth, and never fall below where they started. */
  ghost predicate Level(ts: seq<Token>) { Depth(ts) == 0 && forall h: nat :: Stays(ts, h) }

  lemma LevelAppend(a: seq<Token>, b: seq<Token>)
    requires Level(a) && Level(b)
    ensures Level(a + b)
  {
    forall h: nat ensures Stays(a + b, h) { DepthAppend(a, b, h); }
    DepthAppend(a, b, 0);
  }

  lemma LevelWrap(a: seq<Token>)
    requires Level(a)
    ensures Level([Open] + a + [Close])
  {
    DepthAppend([Open], a, 0);
    DepthAppend([Open] + a, [Close], 0);
    forall h: nat ensures Stays([Open] + a + [Close], h) {
      assert Stays(a, h + 1);
      DepthAppend([Open], a, h);
      DepthAppend([Open] + a, [Close], h);
    }
  }

  /** Tokens other than parentheses are level. */
  lemma {:induction false} FlatIsLevel(ts: seq<Token>)
    requires Open !in ts && Close !in ts
    ensures Level(ts)
  {
    if ts != [] { FlatIsLevel(ts[1..]); }
  }

  lemma {:induction false} MoreTokensAreFlat(more: seq<string>)
    ensures Open !in MoreTokens(more) && Close !in MoreTokens(more)
  {
    if more != [] { MoreTokensAreFlat(more[1..]); }
  }

  lemma MemberIsLevel(negated: bool, first: string, more: seq<string>)
    ensures Level(TestTokens(Member(negated, first, more)))
  {
    hide Level;
    var head, list := Negation(negated) + [In], [Value(first)] + MoreTokens(more);
    MoreTokensAreFlat(more);
    FlatIsLevel(head);
    FlatIsLevel(list);
    LevelWrap(list);
    LevelAppend(head, [Open] + list + [Close]);
    hide MoreTokens, Negation;
    assert TestTokens(Member(negated, first, more)) == head + ([Open] + list + [Close]);
  }

  lemma AtomIsLevel(column: Column, test: Test)
    ensures Level(ColumnTokens(column) + TestTokens(test))
  {
    hide Level;
    FlatIsLevel(ColumnTokens(column));
    if test.Member? { MemberIsLevel(test.negated, test.first, test.more); } else { FlatIsLevel(TestTokens(test)); }
    LevelAppend(ColumnTokens(column), TestTokens(test));
  }

  lemma {:induction false} FactorIsLevel(f: Factor)
    ensures Level(PrintFactor(f))
    decreases f, 0
  {
    match f
    case Atom(column, test) => AtomIsLevel(column, test);
    case Paren(d) => PrintIsLevel(d); LevelWrap(Print(d));
  }

  lemma {:induction false} ConjIsLevel(c: Conj)
    ensures Level(PrintConj(c))
    decreases c, 1
  {
    match c
    case Just(f) => FactorIsLevel(f);
    case AndAlso(terms, f) => {
      ConjIsLevel(terms);
      FactorIsLevel(f);
      FlatIsLevel([And]);
      LevelAppend(PrintConj(terms), [And]);
      LevelAppend(PrintConj(terms) + [And], PrintFactor(f));
    }
  }

  lemma {:induction false} PrintIsLevel(d: Disj)
    ensures Level(Print(d))
    decreases d, 2
  {
    match d
    case Only(c) => ConjIsLevel(c);
    case OrElse(cases, c) => {
      PrintIsLevel(cases);
      ConjIsLevel(c);
      FlatIsLevel([Or]);
      LevelAppend(Print(cases), [Or]);
      LevelAppend(Print(cases) + [Or], PrintConj(c));
    }
  }

  /** No viable prefix closes more parentheses than it opened. */
  lemma ViableStays(ts: seq<Token>)
    requires Viable(ts)
    ensures Stays(ts, 0)
  {
    var d :| ts <= Print(d);
    PrintIsLevel(d);
    assert Print(d) == ts + Print(d)[|ts|..];
    DepthAppend(ts, Print(d)[|ts|..], 0);
  }

  // ---------------------------------------------------------------- where an operator may stand

  /** A token after which an operand is complete. */
  predicate Ends(t: Token) { t != Open && t != Or && t != And }

  /** Every OR follows a complete operand, and the whole ends in one. */
  ghost predicate Joined(ts: seq<Token>) {
    && ts != [] && Ends(ts[|ts| - 1]) && ts[0] != Or
    && forall i | 0 < i < |ts| && ts[i] == Or :: Ends(ts[i - 1])
  }

  lemma JoinedAppend(a: seq<Token>, op: Token, b: seq<Token>)
    requires Joined(a) && Joined(b) && (op == Or || op == And)
    ensures Joined(a + [op] + b)
  {
    var ts := a + [op] + b;
    forall i | 0 < i < |ts| && ts[i] == Or ensures Ends(ts[i - 1]) {
      if i > |a| + 1 { assert b[i - |a| - 1] == Or && ts[i - 1] == b[i - |a| - 2]; }
    }
  }

  lemma NoOrIsJoined(ts: seq<Token>)
    requires Or !in ts && ts != [] && Ends(ts[|ts| - 1])
    ensures Joined(ts)
  {
  }

  lemma {:induction false} MoreTokensHaveNoOr(more: seq<string>)
    ensures Or !in MoreTokens(more)
  {
    if more != [] { MoreTokensHaveNoOr(more[1..]); }
  }

  lemma {:induction false} FactorIsJoined(f: Factor)
    ensures Joined(PrintFactor(f))
    decreases f, 0
  {
    match f
    case Atom(column, test) => {
      if test.Member? { MoreTokensHaveNoOr(test.more); }
      NoOrIsJoined(ColumnTokens(column) + TestTokens(test));
    }
    case Paren(d) => {
      PrintIsJoined(d);
      var ts := PrintFactor(f);
      forall i | 0 < i < |ts| && ts[i] == Or ensures Ends(ts[i - 1]) {
        assert ts[i] == Print(d)[i - 1];
        assert i > 1 && ts[i - 1] == Print(d)[i - 2];
      }
    }
  }

  lemma {:induction false} ConjIsJoined(c: Conj)
    ensures Joined(PrintConj(c))
    decreases c, 1
  {
    match c
    case Just(f) => FactorIsJoined(f);
    case AndAlso(terms, f) => ConjIsJoined(terms); FactorIsJoined(f); JoinedAppend(PrintConj(terms), And, PrintFactor(f));
  }

  lemma {:induction false} PrintIsJoined(d: Disj)
    ensures Joined(Print(d))
    decreases d, 2
  {
    match d
    case Only(c) => ConjIsJoined(c);
    case OrElse(cases, c) => PrintIsJoined(cases); ConjIsJoined(c); JoinedAppend(Print(cases), Or, PrintConj(c));
  }

  /** An OR is viable only after a complete operand. */
  lemma OrNeedsOperand(ts: seq<Token>)
    requires Viable(ts + [Or])
    ensures ts != [] && Ends(ts[|ts| - 1])
  {
    var d :| ts + [Or] <= Print(d);
    PrintIsJoined(d);
    assert Print(d)[|ts|] == (ts + [Or])[|ts|];
    if ts != [] { assert Print(d)[|ts| - 1] == (ts + [Or])[|ts| - 1]; }
  }
}
