/** Chained predicate calls as a printer with one bit of grammar state, and the condition the calls describe. */
module Predicates {
  import opened Options
  import opened Conditions
  import opened ClauseText
  import opened FieldNames

  /** The clause-building calls; Contains, BeginsWith and EndsWith are `Pattern`. */
  datatype Call =
    | CompareTo(field: string, op: Op, value: string)
    | Pattern(field: string, before: bool, value: string, after: bool)
    | NullCheck(field: string, negated: bool)
    | InRange(field: string, negated: bool, low: string, high: string)
    | InList(field: string, negated: bool, values: seq<string>)
    | BeginWrap | EndWrap | OrCall | AndCall

  predicate IsTest(c: Call) { c.CompareTo? || c.Pattern? || c.NullCheck? || c.InRange? || c.InList? }

  /** The parameters that a test call accepts. */
  predicate Checked(c: Call)
    requires IsTest(c)
  {
    && c.field != ""
    && match c
       case CompareTo(_, _, value) => value != ""
       case Pattern(_, _, value, _) => value != ""
       case InRange(_, _, low, high) => low != "" && high != ""
       case InList(_, _, values) => values != []
       case _ => true
  }

  function Wildcard(on: bool): string { if on then "%" else "" }

  function TestOf(c: Call): Test
    requires IsTest(c) && Checked(c)
  {
    match c
    case CompareTo(_, op, value) => Compare(op, value)
    case Pattern(_, before, value, after) => Compare(Like, Wildcard(before) + value + Wildcard(after))
    case NullCheck(_, negated) => NullTest(negated)
    case InRange(_, negated, low, high) => Range(negated, low, high)
    case InList(_, negated, values) => Member(negated, values[0], values[1..])
  }

  function Arguments(t: Test): seq<string> {
    match t
    case Compare(_, value) => [value]
    case NullTest(_) => []
    case Range(_, low, high) => [low, high]
    case Member(_, first, more) => [first] + more
  }

  // ---------------------------------------------------------------- what the calls write

  datatype Clause = Clause(text: string, args: seq<string>, needAnd: bool)

  /** EqualTo and BeginWrap write one space less than the other calls. */
  function Joiner(c: Call, needAnd: bool): string {
    if !needAnd then "" else if c.BeginWrap? || (c.CompareTo? && c.op == Eq) then "AND " else " AND "
  }

  function Apply(s: Clause, c: Call): Clause {
    match c
    case BeginWrap => Clause(s.text + Joiner(c, s.needAnd) + " ( ", s.args, false)
    case EndWrap => if s.needAnd then s.(text := s.text + " ) ") else s
    case OrCall => if s.needAnd then Clause(s.text + " OR ", s.args, false) else s
    case AndCall => s
    case _ =>
      if !Checked(c) then s
      else Clause(s.text + Joiner(c, s.needAnd) + Normalized(RemoveQuotes(c.field)) + TestText(TestOf(c)),
                  s.args + Arguments(TestOf(c)), true)
  }

  function After(calls: seq<Call>): Clause {
    if calls == [] then Clause("", [], false) else Apply(After(calls[..|calls| - 1]), calls[|calls| - 1])
  }

  /** The column of a field; a field that names none stands for itself. */
  function TheColumn(field: string): Column {
    match ColumnOf(field)
    case Some(c) => c
    case None => Plain(Normalized(RemoveQuotes(field)))
  }

  /** The tokens one call writes, given `isNeedAnd`. */
  function Emitted(needAnd: bool, c: Call): seq<Token> {
    var joiner := if needAnd then [And] else [];
    match c
    case BeginWrap => joiner + [Open]
    case EndWrap => if needAnd then [Close] else []
    case OrCall => if needAnd then [Or] else []
    case AndCall => []
    case _ => if Checked(c) then joiner + (ColumnTokens(TheColumn(c.field)) + TestTokens(TestOf(c))) else []
  }

  function Tokens(calls: seq<Call>): seq<Token> {
    if calls == [] then []
    else Tokens(calls[..|calls| - 1]) + Emitted(After(calls[..|calls| - 1]).needAnd, calls[|calls| - 1])
  }

  // ---------------------------------------------------------------- what the calls describe

  /** One nesting level: the alternatives finished by OR, and the conjunction being built. */
  datatype Frame = Frame(left: Option<Disj>, right: Option<Conj>)
  datatype Stack = Bottom(top: Frame) | Above(below: Stack, top: Frame)

  function WithFactor(f: Frame, x: Factor): Frame {
    f.(right := Some(if f.right.None? then Just(x) else AndAlso(f.right.value, x)))
  }

  function Whole(f: Frame): Disj
    requires f.right.Some?
  {
    if f.left.None? then Only(f.right.value) else OrElse(f.left.value, f.right.value)
  }

  function WithTop(st: Stack, f: Frame): Stack { st.(top := f) }

  function CloseWrap(below: Stack, top: Frame): Stack
    requires top.right.Some?
  {
    WithTop(below, WithFactor(below.top, Paren(Whole(top))))
  }

  /** None: a parenthesis was closed that was never opened. */
  function Advance(st: Stack, c: Call): Option<Stack> {
    match c
    case BeginWrap => Some(Above(st, Frame(None, None)))
    case EndWrap =>
      if st.top.right.None? then Some(st) else if st.Bottom? then None else Some(CloseWrap(st.below, st.top))
    case OrCall => Some(if st.top.right.None? then st else WithTop(st, Frame(Some(Whole(st.top)), None)))
    case AndCall => Some(st)
    case _ =>
      Some(if Checked(c) then WithTop(st, WithFactor(st.top, Atom(TheColumn(c.field), TestOf(c)))) else st)
  }

  const EMPTY: Stack := Bottom(Frame(None, None))

  function Follow(st: Stack, calls: seq<Call>): Option<Stack> {
    if calls == [] then Some(st)
    else
      match Follow(st, calls[..|calls| - 1])
      case None => None
      case Some(st') => Advance(st', calls[|calls| - 1])
  }

  // ---------------------------------------------------------------- the tokens print the stack

  function FrameTokens(f: Frame): seq<Token> {
    (if f.left.Some? then Print(f.left.value) + [Or] else []) + (if f.right.Some? then PrintConj(f.right.value) else [])
  }

  function StackTokens(st: Stack): seq<Token> {
    match st
    case Bottom(top) => FrameTokens(top)
    case Above(below, top) =>
      StackTokens(below) + (if below.top.right.Some? then [And] else []) + [Open] + FrameTokens(top)
  }

  /** Everything below the innermost frame. */
  function BaseTokens(st: Stack): seq<Token> {
    match st
    case Bottom(_) => []
    case Above(below, _) => StackTokens(below) + (if below.top.right.Some? then [And] else []) + [Open]
  }

  lemma TopTokens(st: Stack)
    ensures StackTokens(st) == BaseTokens(st) + FrameTokens(st.top)
    ensures forall f :: BaseTokens(WithTop(st, f)) == BaseTokens(st)
  {
  }

  lemma FactorTokens(f: Frame, x: Factor)
    ensures FrameTokens(WithFactor(f, x)) == FrameTokens(f) + (if f.right.Some? then [And] else []) + PrintFactor(x)
  {
  }

  lemma WholeTokens(f: Frame)
    requires f.right.Some?
    ensures FrameTokens(f) == Print(Whole(f))
  {
  }

  lemma AddPrints(st: Stack, x: Factor)
    ensures StackTokens(WithTop(st, WithFactor(st.top, x)))
         == StackTokens(st) + (if st.top.right.Some? then [And] else []) + PrintFactor(x)
  {
    hide StackTokens, FrameTokens, PrintFactor, BaseTokens;
    TopTokens(st);
    TopTokens(WithTop(st, WithFactor(st.top, x)));
    FactorTokens(st.top, x);
  }

  lemma ClosePrints(below: Stack, top: Frame)
    requires top.right.Some?
    ensures StackTokens(CloseWrap(below, top)) == StackTokens(Above(below, top)) + [Close]
  {
    hide FrameTokens, Print;
    AddPrints(below, Paren(Whole(top)));
    WholeTokens(top);
    assert PrintFactor(Paren(Whole(top))) == [Open] + FrameTokens(top) + [Close];
  }

  lemma OrPrints(st: Stack)
    requires st.top.right.Some?
    ensures StackTokens(WithTop(st, Frame(Some(Whole(st.top)), None))) == StackTokens(st) + [Or]
  {
    hide StackTokens, BaseTokens, Print;
    var f := Frame(Some(Whole(st.top)), None);
    TopTokens(st);
    TopTokens(WithTop(st, f));
    WholeTokens(st.top);
    assert FrameTokens(f) == FrameTokens(st.top) + [Or];
  }

  /** One call writes exactly what takes the printed stack to the printed next stack. */
  lemma AdvancePrints(st: Stack, c: Call, s: Clause)
    requires Advance(st, c).Some? && s.needAnd == st.top.right.Some?
    ensures StackTokens(Advance(st, c).value) == StackTokens(st) + Emitted(s.needAnd, c)
    ensures Apply(s, c).needAnd == Advance(st, c).value.top.right.Some?
  {
    hide StackTokens, FrameTokens, PrintFactor, ColumnTokens, TestTokens, Normalized, RemoveQuotes, TheColumn, TestText;
    if IsTest(c) && Checked(c) {
      TestPrints(st, c, s);
    } else if c.BeginWrap? {
      WrapPrints(st);
    } else if c.EndWrap? && s.needAnd {
      ClosePrints(st.below, st.top);
    } else if c.OrCall? && s.needAnd {
      OrPrints(st);
    } else {
      assert StackTokens(st) + [] == StackTokens(st);
    }
  }

  lemma TestPrints(st: Stack, c: Call, s: Clause)
    requires IsTest(c) && Checked(c) && s.needAnd == st.top.right.Some?
    ensures Advance(st, c).Some? && StackTokens(Advance(st, c).value) == StackTokens(st) + Emitted(s.needAnd, c)
    ensures Apply(s, c).needAnd && Advance(st, c).value.top.right.Some?
  {
    hide StackTokens, PrintFactor, ColumnTokens, TestTokens, Normalized, RemoveQuotes, TheColumn, TestText, TestOf;
    var column, test := TheColumn(c.field), TestOf(c);
    AddPrints(st, Atom(column, test));
    AtomTokens(column, test);
    assert StackTokens(st) + (if s.needAnd then [And] else []) + PrintFactor(Atom(column, test))
        == StackTokens(st) + ((if s.needAnd then [And] else []) + (ColumnTokens(column) + TestTokens(test)));
  }

  lemma AtomTokens(column: Column, test: Test)
    ensures PrintFactor(Atom(column, test)) == ColumnTokens(column) + TestTokens(test)
  {
  }

  lemma WrapPrints(st: Stack)
    ensures StackTokens(Above(st, Frame(None, None))) == StackTokens(st) + (if st.top.right.Some? then [And] else []) + [Open]
  {
  }

  /** As long as no call closes what was never opened, the tokens written are the printed stack, and `isNeedAnd`
      says whether its innermost conjunction has begun. */
  lemma {:induction false} StackPrints(calls: seq<Call>)
    requires Follow(EMPTY, calls).Some?
    ensures Tokens(calls) == StackTokens(Follow(EMPTY, calls).value)
    ensures After(calls).needAnd == Follow(EMPTY, calls).value.top.right.Some?
  {
    hide Apply, Advance, StackTokens, Emitted;
    if calls == [] {
      EmptyPrints();
    } else {
      var before, c := calls[..|calls| - 1], calls[|calls| - 1];
      StackPrints(before);
      AdvancePrints(Follow(EMPTY, before).value, c, After(before));
    }
  }

  lemma EmptyPrints()
    ensures StackTokens(EMPTY) == []
  {
  }
}
