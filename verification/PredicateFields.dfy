/** Clauses over any fields, also those that name no column and are written as they are. */
module PredicateFields {
  import opened Options
  import opened Conditions
  import opened ClauseText
  import opened FieldNames
  import opened Predicates
  import opened PredicateMeaning
  import opened PredicateGrammar

  // ---------------------------------------------------------------- what any field reads as

  /** What was read before does not matter. */
  lemma {:induction false} ScanFrame(mode: Mode, out: seq<Token>, done: seq<Token>, s: string)
    ensures Scan(Lexer(mode, out + done), s)
         == Lexer(Scan(Lexer(mode, done), s).mode, out + Scan(Lexer(mode, done), s).out)
    decreases |s|
  {
    if s != "" {
      var next := Step(Lexer(mode, done), s[0]);
      StepFrame(mode, out, done, s[0]);
      ScanFrame(next.mode, out, next.out, s[1..]);
    }
  }

  lemma StepFrame(mode: Mode, out: seq<Token>, done: seq<Token>, c: char)
    ensures var next := Step(Lexer(mode, done), c); Step(Lexer(mode, out + done), c) == Lexer(next.mode, out + next.out)
  {
    hide Keyword, Sign;
  }

  /** A text that does not end inside backticks, followed by a space, is read by itself. */
  lemma ReadsBeforeSpace(f: string, t: string, ts: seq<Token>)
    requires !Scan(Lexer(Gap, []), f).mode.InName? && t != "" && t[0] == ' ' && Reads(t, ts)
    ensures Reads(f + t, Lex(f) + ts)
  {
    hide Scan, Keyword, Sign;
    var l := Scan(Lexer(Gap, []), f);
    forall out ensures Scan(Lexer(Gap, out), f + t) == Lexer(Gap, out + (Lex(f) + ts)) {
      ScanAppend(Lexer(Gap, out), f, t);
      ScanFrame(Gap, out, [], f);
      assert out + [] == out;
      ScanFirst(Lexer(l.mode, out + l.out), t);
      ScanFirst(Lexer(Gap, out + Lex(f)), t);
      assert Flush(Lexer(l.mode, out + l.out)) == out + Lex(f);
      assert out + Lex(f) + ts == out + (Lex(f) + ts);
    }
  }

  /** Without backticks no name is read, and every dot is. */
  lemma {:induction false} ScanWithoutTicks(l: Lexer, s: string)
    requires '`' !in s && !l.mode.InName?
    ensures var r := Scan(l, s);
      && !r.mode.InName? && l.out <= r.out
      && (forall t | t in r.out :: t in l.out || !t.Name?)
      && ('.' in s ==> Dot in r.out)
    decreases |s|
  {
    if s != "" {
      StepWithoutTicks(l, s[0]);
      hide Step;
      ScanWithoutTicks(Step(l, s[0]), s[1..]);
      assert s == [s[0]] + s[1..];
    }
  }

  lemma StepWithoutTicks(l: Lexer, c: char)
    requires c != '`' && !l.mode.InName?
    ensures var r := Step(l, c);
      && !r.mode.InName? && l.out <= r.out && (forall t | t in r.out :: t in l.out || !t.Name?) && (c == '.' ==> Dot in r.out)
  {
  }

  lemma ReadsQuoted(s: string)
    requires '`' !in s
    ensures Reads(Quoted(s), if s == "" then [] else [Name(s)])
  {
    hide Reads;
    if s == "" { ReadsNothing(); } else { ReadsName(s); }
  }

  lemma ReadsPair(a: string, b: string)
    requires '`' !in a && '`' !in b
    ensures Reads(Quoted(a) + "." + Quoted(b), (if a == "" then [] else [Name(a)]) + [Dot] + (if b == "" then [] else [Name(b)]))
  {
    hide Reads, Quoted;
    ReadsQuoted(a);
    ReadsQuoted(b);
    ReadsPoint('.');
    var ta := if a == "" then [] else [Name(a)];
    ReadsAppend(Quoted(a), ta, ".", [Dot]);
    ReadsAppend(Quoted(a) + ".", ta + [Dot], Quoted(b), if b == "" then [] else [Name(b)]);
  }

  function Spelling(field: string): string { Normalized(RemoveQuotes(field)) }

  /** The kinds of tokens that a field which names no column can read as: none, a dot that does not stand between
      two names, or a name and a dot. */
  predicate Stray(ts: seq<Token>) {
    || ts == []
    || (exists i :: 0 <= i < |ts| && ts[i] == Dot && (i == 0 || !ts[i - 1].Name?))
    || ts[|ts| - 1] == Dot
  }

  lemma ReadEndsOutside(s: string, ts: seq<Token>)
    requires Reads(s, ts)
    ensures !Scan(Lexer(Gap, []), s).mode.InName? && Lex(s) == ts
  {
    assert [] + ts == ts;
  }

  /** Every spelling ends outside backticks; one that names no column reads as stray tokens. */
  lemma SpellingReads(field: string)
    ensures !Scan(Lexer(Gap, []), Spelling(field)).mode.InName?
    ensures ColumnOf(field).None? ==> Stray(Lex(Spelling(field)))
    ensures match ColumnOf(field)
      case Some(c) => Lex(Spelling(field)) == ColumnTokens(c)
      case None => true
  {
    hide Reads, Scan, Lex, Split, RemoveQuotes;
    var name := RemoveQuotes(field);
    RemoveQuotesLacks(field);
    if ColumnOf(field).Some? {
      ColumnSpelling(field);
      ReadsColumn(ColumnOf(field).value);
      ReadEndsOutside(Spelling(field), ColumnTokens(ColumnOf(field).value));
    } else if name == "" {
      ReadsNothing();
      ReadEndsOutside("", []);
    } else if |Split(name, '.')| == 2 {
      var a, b := Split(name, '.')[0], Split(name, '.')[1];
      SplitPiece(name, '.', 0);
      SplitPiece(name, '.', 1);
      ReadsPair(a, b);
      var ts := (if a == "" then [] else [Name(a)]) + [Dot] + (if b == "" then [] else [Name(b)]);
      ReadEndsOutside(Spelling(field), ts);
      assert if a == "" then ts[0] == Dot else ts[|ts| - 1] == Dot;
    } else {
      RawReads(name);
    }
  }

  lemma RawReads(name: string)
    requires '`' !in name && '.' in name
    ensures !Scan(Lexer(Gap, []), name).mode.InName? && Stray(Lex(name))
  {
    hide Keyword, Sign, Scan;
    ScanWithoutTicks(Lexer(Gap, []), name);
    var l := Scan(Lexer(Gap, []), name);
    assert forall t | t in Flush(l) :: t in l.out || !t.Name? by { KeywordsAreNoNames(l); }
    var i :| 0 <= i < |l.out| && l.out[i] == Dot;
    assert Flush(l)[i] == Dot;
    assert i > 0 ==> Flush(l)[i - 1] in Flush(l);
  }

  lemma KeywordsAreNoNames(l: Lexer)
    ensures forall t | t in Flush(l) :: t in l.out || (!t.Name? && t != Mark)
    ensures l.out <= Flush(l)
  {
  }

  // ---------------------------------------------------------------- the whole text, for any fields

  /** The tokens of the characters one call writes. */
  function LexedCall(needAnd: bool, c: Call): seq<Token> {
    var joiner := if needAnd then [And] else [];
    match c
    case BeginWrap => joiner + [Open]
    case EndWrap => if needAnd then [Close] else []
    case OrCall => if needAnd then [Or] else []
    case AndCall => []
    case _ => if Checked(c) then joiner + (Lex(Spelling(c.field)) + Erase(TestTokens(TestOf(c)))) else []
  }

  function Lexed(calls: seq<Call>): seq<Token> {
    if calls == [] then []
    else Lexed(calls[..|calls| - 1]) + LexedCall(After(calls[..|calls| - 1]).needAnd, calls[|calls| - 1])
  }

  lemma TestTextStarts(t: Test)
    ensures TestText(t) != "" && TestText(t)[0] == ' '
  {
  }

  lemma ReadsAnyTest(s: Clause, c: Call)
    requires IsTest(c) && Checked(c)
    ensures Reads(Written(s, c), LexedCall(s.needAnd, c))
  {
    hide Reads, TestText, TestTokens, Normalized, RemoveQuotes, Joiner, Lex, Scan;
    var test := TestOf(c);
    SpellingReads(c.field);
    ReadsTest(test);
    TestTextStarts(test);
    ReadsBeforeSpace(Spelling(c.field), TestText(test), Erase(TestTokens(test)));
    ReadsJoiner(c, s.needAnd);
    ReadsAppend(Joiner(c, s.needAnd), if s.needAnd then [And] else [], Spelling(c.field) + TestText(test),
                Lex(Spelling(c.field)) + Erase(TestTokens(test)));
  }

  lemma ReadsAnyCall(s: Clause, c: Call)
    ensures Reads(Written(s, c), LexedCall(s.needAnd, c))
  {
    hide Reads, TestText, TestTokens, Normalized, RemoveQuotes, Joiner, Lex;
    if IsTest(c) && Checked(c) {
      ReadsAnyTest(s, c);
    } else {
      ReadsNothing();
      ReadsParentheses();
      ReadsJoiner(c, s.needAnd);
      if c.BeginWrap? { ReadsAppend(Joiner(c, s.needAnd), if s.needAnd then [And] else [], " ( ", [Open]); }
    }
  }

  /** For any calls with any fields, each call's characters are read by themselves. */
  lemma {:induction false} TextReads(calls: seq<Call>)
    ensures Reads(After(calls).text, Lexed(calls)) && Lex(After(calls).text) == Lexed(calls)
  {
    hide Reads, Apply, LexedCall, Lex;
    if calls == [] {
      ReadsNothing();
    } else {
      var before, c := calls[..|calls| - 1], calls[|calls| - 1];
      var s := After(before);
      TextReads(before);
      ReadsAnyCall(s, c);
      ApplyWrites(s, c);
      ReadsAppend(s.text, Lexed(before), Written(s, c), LexedCall(s.needAnd, c));
    }
    ReadsLexes(After(calls).text, Lexed(calls));
  }

  // ---------------------------------------------------------------- placeholders

  function Marks(ts: seq<Token>): nat { if ts == [] then 0 else (if ts[0] == Mark then 1 else 0) + Marks(ts[1..]) }

  /** The question marks outside backticks, when reading starts inside or outside. */
  function Questions(s: string, inside: bool): nat
    decreases |s|
  {
    if s == "" then 0
    else (if s[0] == '?' && !inside then 1 else 0) + Questions(s[1..], if s[0] == '`' then !inside else inside)
  }

  lemma {:induction false} MarksAppend(a: seq<Token>, b: seq<Token>)
    ensures Marks(a + b) == Marks(a) + Marks(b)
    decreases |a|
  {
    if a == [] {
      assert a + b == b;
    } else {
      assert (a + b)[1..] == a[1..] + b;
      MarksAppend(a[1..], b);
    }
  }

  lemma MarksOfOne(t: Token)
    ensures Marks([t]) == if t == Mark then 1 else 0
  {
    assert [t][1..] == [];
  }

  lemma FlushMarks(l: Lexer)
    ensures Marks(Flush(l)) == Marks(l.out)
  {
    match l.mode
    case Gap =>
    case InName(n) => MarksAppend(l.out, [Other(n)]); MarksOfOne(Other(n));
    case InWord(w) => MarksAppend(l.out, [Keyword(w)]); MarksOfOne(Keyword(w));
    case InSign(w) => MarksAppend(l.out, [Sign(w)]); MarksOfOne(Sign(w));
  }

  lemma BeginMarks(out: seq<Token>, c: char)
    ensures Marks(Begin(out, c).out) == Marks(out) + if c == '?' then 1 else 0
    ensures Begin(out, c).mode.InName? <==> c == '`'
  {
    var l := Begin(out, c);
    if |l.out| > |out| {
      var t := l.out[|out|];
      assert l.out == out + [t] && (t == Mark <==> c == '?');
      MarksAppend(out, [t]);
      MarksOfOne(t);
    }
  }

  lemma StepMarks(l: Lexer, c: char)
    ensures Marks(Step(l, c).out) == Marks(l.out) + if c == '?' && !l.mode.InName? then 1 else 0
    ensures Step(l, c).mode.InName? <==> (if c == '`' then !l.mode.InName? else l.mode.InName?)
  {
    hide Begin, Flush, Marks;
    FlushMarks(l);
    BeginMarks(Flush(l), c);
    match l.mode
    case Gap => assert Flush(l) == l.out by { FlushGap(l.out); }
    case InName(n) => MarksAppend(l.out, [Name(n)]); MarksOfOne(Name(n));
    case _ =>
  }

  lemma FlushGap(out: seq<Token>)
    ensures Flush(Lexer(Gap, out)) == out
  {
  }

  lemma {:induction false} ScanMarks(l: Lexer, s: string)
    ensures Marks(Scan(l, s).out) == Marks(l.out) + Questions(s, l.mode.InName?)
    decreases |s|
  {
    if s != "" {
      hide Step, Marks;
      StepMarks(l, s[0]);
      ScanMarks(Step(l, s[0]), s[1..]);
    }
  }

  /** In every text the placeholders are the question marks outside backticks. */
  lemma MarksAreQuestions(s: string)
    ensures Marks(Lex(s)) == Questions(s, false)
  {
    ScanMarks(Lexer(Gap, []), s);
    FlushMarks(Scan(Lexer(Gap, []), s));
  }

  /** Binding works exactly if there are as many arguments as placeholders. */
  lemma {:induction false} BindIff(ts: seq<Token>, args: seq<string>)
    ensures Bind(ts, args).Some? <==> Marks(ts) == |args|
  {
    if ts != [] && !(ts[0] == Mark && args == []) { BindIff(ts[1..], if ts[0] == Mark then args[1..] else args); }
  }

  lemma {:induction false} MarksErased(ts: seq<Token>)
    requires Mark !in ts
    ensures Marks(Erase(ts)) == |Values(ts)|
  {
    if ts != [] {
      assert Erase(ts)[1..] == Erase(ts[1..]);
      MarksErased(ts[1..]);
    }
  }

  /** A field with as many question marks outside backticks as it should have: none. */
  predicate Unmarked(c: Call) { IsTest(c) && Checked(c) ==> Questions(Spelling(c.field), false) == 0 }

  lemma LexedCallMarks(needAnd: bool, c: Call)
    ensures Marks(LexedCall(needAnd, c))
         == |Added(c)| + if IsTest(c) && Checked(c) then Questions(Spelling(c.field), false) else 0
  {
    hide TestTokens, Lex, Normalized, RemoveQuotes, Erase, Marks, Arguments, Questions, Carries;
    var joiner := if needAnd then [And] else [];
    SmallMarks();
    if IsTest(c) && Checked(c) {
      var f, e := Lex(Spelling(c.field)), Erase(TestTokens(TestOf(c)));
      MarksAreQuestions(Spelling(c.field));
      TestMarks(TestOf(c));
      MarksAppend(f, e);
      MarksAppend(joiner, f + e);
    } else if c.BeginWrap? {
      MarksAppend(joiner, [Open]);
    }
  }

  lemma SmallMarks()
    ensures Marks([]) == 0 && Marks([And]) == 0 && Marks([Or]) == 0 && Marks([Open]) == 0 && Marks([Close]) == 0
  {
    MarksOfOne(And);
    MarksOfOne(Or);
    MarksOfOne(Open);
    MarksOfOne(Close);
  }

  lemma TestMarks(t: Test)
    ensures Marks(Erase(TestTokens(t))) == |Arguments(t)|
  {
    hide Marks, TestTokens, Arguments, Erase;
    TestCarries(t);
    MarksErased(TestTokens(t));
  }

  /** The question marks that accepted fields contribute. */
  function Strays(calls: seq<Call>): nat {
    if calls == [] then 0
    else
      var c := calls[|calls| - 1];
      Strays(calls[..|calls| - 1]) + if IsTest(c) && Checked(c) then Questions(Spelling(c.field), false) else 0
  }

  lemma {:induction false} LexedMarks(calls: seq<Call>)
    ensures Marks(Lexed(calls)) == |After(calls).args| + Strays(calls)
  {
    if calls != [] {
      var before, c := calls[..|calls| - 1], calls[|calls| - 1];
      hide Apply, LexedCall, Marks, Questions, Spelling;
      LexedMarks(before);
      LexedCallMarks(After(before).needAnd, c);
      ApplyAdds(After(before), c);
      MarksAppend(Lexed(before), LexedCall(After(before).needAnd, c));
    }
  }

  lemma {:induction false} NoStraysIff(calls: seq<Call>)
    ensures Strays(calls) == 0 <==> forall i | 0 <= i < |calls| :: Unmarked(calls[i])
  {
    hide Questions, Spelling, Checked;
    if calls != [] {
      var before := calls[..|calls| - 1];
      NoStraysIff(before);
      assert forall i | 0 <= i < |before| :: before[i] == calls[i];
    }
  }

  /** After any calls, the characters have exactly one placeholder for each argument if and only if no accepted field
      spells a question mark outside backticks. */
  lemma PlaceholdersMatchIff(calls: seq<Call>)
    ensures Bind(Lex(After(calls).text), After(calls).args).Some? <==> forall i | 0 <= i < |calls| :: Unmarked(calls[i])
  {
    hide Lex, After, Lexed, Unmarked, Bind, Reads;
    TextReads(calls);
    LexedMarks(calls);
    NoStraysIff(calls);
    BindIff(Lexed(calls), After(calls).args);
  }

  // ---------------------------------------------------------------- which token may follow which

  /** The tokens a test can begin with. */
  predicate Head(t: Token) { t.Rel? || t == Is || t == Not || t == Between || t == In }

  /** In a printed condition `b` may follow `a`. */
  predicate Follows(a: Token, b: Token) {
    && (b == Dot ==> a.Name?) && (a == Dot ==> b.Name?)
    && (Head(b) ==> a.Name? || a == Is || a == Not)
    && (b.Name? ==> a == And || a == Or || a == Open || a == Dot)
    && (b == Open ==> a == And || a == Or || a == Open || a == In)
  }

  /** Every token may stand where it does. */
  ghost predicate Placed(ts: seq<Token>) {
    && (ts != [] ==> ts[0] != Dot && !Head(ts[0]))
    && forall i | 0 < i < |ts| :: Follows(ts[i - 1], ts[i])
  }

  ghost predicate Firm(ts: seq<Token>) { ts != [] && Placed(ts) && ts[|ts| - 1] != Dot }

  lemma FirmJoined(a: seq<Token>, op: Token, b: seq<Token>)
    requires Firm(a) && Firm(b) && (op == And || op == Or)
    ensures Firm(a + [op] + b)
  {
    var ts := a + [op] + b;
    forall i | 0 < i < |ts| ensures Follows(ts[i - 1], ts[i]) {
      if i > |a| + 1 { assert ts[i] == b[i - |a| - 1] && ts[i - 1] == b[i - |a| - 2]; }
    }
  }

  lemma FirmWrapped(a: seq<Token>)
    requires Firm(a)
    ensures Firm([Open] + a + [Close])
  {
    var ts := [Open] + a + [Close];
    forall i | 0 < i < |ts| ensures Follows(ts[i - 1], ts[i]) {
      if 1 < i <= |a| { assert ts[i] == a[i - 1] && ts[i - 1] == a[i - 2]; }
    }
  }

  /** Tokens that may follow anything except a dot. */
  predicate Free(t: Token) { t != Dot && !Head(t) && !t.Name? && t != Open }

  lemma {:induction false} MoreTokensAreFree(more: seq<string>)
    ensures forall i | 0 <= i < |MoreTokens(more)| :: Free(MoreTokens(more)[i])
  {
    if more != [] { MoreTokensAreFree(more[1..]); }
  }

  /** A test after a name: its head, an optional NOT, then free tokens. */
  lemma TestIsPlaced(t: Test, name: string)
    ensures Firm([Name(name)] + TestTokens(t))
  {
    hide TestTokens, Firm;
    match t
    case Compare(op, value) => CompareIsPlaced(op, value, name);
    case NullTest(negated) => NullIsPlaced(negated, name);
    case Range(negated, low, high) => RangeIsPlaced(negated, low, high, name);
    case Member(negated, first, more) => MemberIsPlaced(negated, first, more, name);
  }

  lemma CompareIsPlaced(op: Op, value: string, name: string)
    ensures Firm([Name(name)] + TestTokens(Compare(op, value)))
  {
    hide Firm;
    SmallHeads(name, op);
    HeadThenFree([Name(name), Rel(op)], [Value(value)]);
    assert [Name(name)] + TestTokens(Compare(op, value)) == [Name(name), Rel(op)] + [Value(value)];
  }

  lemma NullIsPlaced(negated: bool, name: string)
    ensures Firm([Name(name)] + TestTokens(NullTest(negated)))
  {
    hide Firm;
    SmallHeads(name, Eq);
    var head := if negated then [Name(name), Is, Not] else [Name(name), Is];
    HeadThenFree(head, [Null]);
    assert [Name(name)] + TestTokens(NullTest(negated)) == head + [Null];
  }

  lemma RangeIsPlaced(negated: bool, low: string, high: string, name: string)
    ensures Firm([Name(name)] + TestTokens(Range(negated, low, high)))
  {
    hide Firm;
    SmallHeads(name, Eq);
    var head := if negated then [Name(name), Not, Between] else [Name(name), Between];
    HeadThenFree(head, [Value(low), And, Value(high)]);
    assert [Name(name)] + TestTokens(Range(negated, low, high)) == head + [Value(low), And, Value(high)];
  }

  lemma SmallHeads(name: string, op: Op)
    ensures Firm([Name(name), Rel(op)]) && Firm([Name(name), Is]) && Firm([Name(name), Is, Not])
    ensures Firm([Name(name), Between]) && Firm([Name(name), Not, Between])
  {
  }

  lemma MemberIsPlaced(negated: bool, first: string, more: seq<string>, name: string)
    ensures Firm([Name(name)] + TestTokens(Member(negated, first, more)))
  {
    hide MoreTokens;
    MoreTokensAreFree(more);
    var head, tail := [Name(name)] + Negation(negated) + [In, Open], [Value(first)] + MoreTokens(more) + [Close];
    assert [Name(name)] + TestTokens(Member(negated, first, more)) == head + tail;
    assert forall i | 0 <= i < |tail| :: Free(tail[i]);
    HeadThenFree(head, tail);
  }

  lemma HeadThenFree(head: seq<Token>, tail: seq<Token>)
    requires Firm(head) && tail != [] && forall i | 0 <= i < |tail| :: Free(tail[i])
    ensures Firm(head + tail)
  {
    var ts := head + tail;
    forall i | 0 < i < |ts| ensures Follows(ts[i - 1], ts[i]) {
      if i >= |head| {
        assert ts[i] == tail[i - |head|];
        if i > |head| { assert ts[i - 1] == tail[i - 1 - |head|]; }
      }
    }
  }

  lemma AtomIsFirm(column: Column, test: Test)
    ensures Firm(ColumnTokens(column) + TestTokens(test))
  {
    hide TestTokens;
    TestIsPlaced(test, column.name);
    if column.Qualified? {
      var tail := [Name(column.name)] + TestTokens(test);
      var ts := [Name(column.table), Dot] + tail;
      forall i | 0 < i < |ts| ensures Follows(ts[i - 1], ts[i]) {
        if i > 2 { assert ts[i] == tail[i - 2] && ts[i - 1] == tail[i - 3]; }
      }
      assert ColumnTokens(column) + TestTokens(test) == ts;
    }
  }

  lemma {:induction false} FactorIsFirm(f: Factor)
    ensures Firm(PrintFactor(f))
    decreases f, 0
  {
    hide Firm;
    match f
    case Atom(column, test) => AtomIsFirm(column, test);
    case Paren(d) => PrintIsFirm(d); FirmWrapped(Print(d));
  }

  lemma {:induction false} ConjIsFirm(c: Conj)
    ensures Firm(PrintConj(c))
    decreases c, 1
  {
    hide Firm;
    match c
    case Just(f) => FactorIsFirm(f);
    case AndAlso(terms, f) => ConjIsFirm(terms); FactorIsFirm(f); FirmJoined(PrintConj(terms), And, PrintFactor(f));
  }

  lemma {:induction false} PrintIsFirm(d: Disj)
    ensures Firm(Print(d))
    decreases d, 2
  {
    hide Firm;
    match d
    case Only(c) => ConjIsFirm(c);
    case OrElse(cases, c) => PrintIsFirm(cases); ConjIsFirm(c); FirmJoined(Print(cases), Or, PrintConj(c));
  }

  lemma {:induction false} BindKeepsPlaces(ts: seq<Token>, args: seq<string>)
    ensures match Bind(ts, args)
      case Some(bound) => |bound| == |ts| && forall i | 0 <= i < |ts| :: bound[i] == ts[i] || (ts[i] == Mark && bound[i].Value?)
      case None => true
  {
    if ts != [] && !(ts[0] == Mark && args == []) {
      BindKeepsPlaces(ts[1..], if ts[0] == Mark then args[1..] else args);
    }
  }

  /** Whatever has a meaning is well placed. */
  lemma MeaningIsPlaced(text: string, args: seq<string>)
    requires Meaning(text, args).Some?
    ensures Placed(Lex(text))
  {
    hide Lex, Bind, Parse;
    var ts := Lex(text);
    BindKeepsPlaces(ts, args);
    var bound := Bind(ts, args).value;
    DisjIsPrinted(bound);
    PrintIsFirm(Parse(bound).value);
    assert forall i | 0 < i < |ts| :: Follows(bound[i - 1], bound[i]) ==> Follows(ts[i - 1], ts[i]);
  }

  lemma DisjIsPrinted(ts: seq<Token>)
    requires Parse(ts).Some?
    ensures ts == Print(Parse(ts).value)
  {
    ParseIff(ts, Parse(ts).value);
  }

  // ---------------------------------------------------------------- fields that name no column

  /** A token that completes an operand. */
  predicate Final(t: Token) { t == Mark || t == Null || t == Close }

  lemma LexedCallEnds(s: Clause, c: Call)
    ensures var ts, needAnd := LexedCall(s.needAnd, c), Apply(s, c).needAnd;
      if ts == [] then needAnd == s.needAnd
      else if needAnd then Final(ts[|ts| - 1]) else ts[|ts| - 1] == Open || ts[|ts| - 1] == Or
  {
    hide TestTokens, Lex, Normalized, RemoveQuotes, TestText, Joiner, Erase;
    if IsTest(c) && Checked(c) { LexedTestEnds(s, c); }
  }

  lemma LexedTestEnds(s: Clause, c: Call)
    requires IsTest(c) && Checked(c)
    ensures var ts := LexedCall(s.needAnd, c); Apply(s, c).needAnd && ts != [] && Final(ts[|ts| - 1])
  {
    hide TestTokens, Lex, Normalized, RemoveQuotes, TestText, Joiner, Erase, Final, TestOf, Checked, Spelling, LexedCall;
    var f, e := (if s.needAnd then [And] else []) + Lex(Spelling(c.field)), Erase(TestTokens(TestOf(c)));
    LexedTest(s.needAnd, c);
    TestEnds(TestOf(c));
    assert (f + e)[|f + e| - 1] == e[|e| - 1];
  }

  lemma TestEnds(t: Test)
    ensures var ts := Erase(TestTokens(t)); ts != [] && Head(ts[0]) && Final(ts[|ts| - 1])
  {
  }

  /** At the end of the text stands a complete operand if an AND is needed, and an operator or nothing if not. */
  lemma {:induction false} LexedEnds(calls: seq<Call>)
    ensures var ts := Lexed(calls);
      if After(calls).needAnd then ts != [] && Final(ts[|ts| - 1])
      else ts == [] || ts[|ts| - 1] == Open || ts[|ts| - 1] == Or
  {
    hide Apply, LexedCall;
    if calls != [] {
      var before, c := calls[..|calls| - 1], calls[|calls| - 1];
      LexedEnds(before);
      LexedCallEnds(After(before), c);
    }
  }

  /** Stray tokens between an operand's place, or any finished operand, and a test are misplaced. */
  lemma StrayIsMisplaced(x: seq<Token>, f: seq<Token>, e: seq<Token>)
    requires x == [] || (!x[|x| - 1].Name? && x[|x| - 1] != Is && x[|x| - 1] != Not)
    requires Stray(f) && e != [] && Head(e[0])
    ensures !Placed(x + f + e)
  {
    var ts := x + f + e;
    if f == [] {
      assert ts[|x|] == e[0] && (|x| > 0 ==> ts[|x| - 1] == x[|x| - 1]);
    } else if f[|f| - 1] == Dot {
      assert ts[|x| + |f|] == e[0] && ts[|x| + |f| - 1] == Dot;
    } else {
      var i :| 0 <= i < |f| && f[i] == Dot && (i == 0 || !f[i - 1].Name?);
      assert ts[|x| + i] == Dot;
      if i > 0 { assert ts[|x| + i - 1] == f[i - 1]; } else { assert |x| > 0 ==> ts[|x| - 1] == x[|x| - 1]; }
    }
  }

  lemma PlacedPrefix(ts: seq<Token>, n: nat)
    requires Placed(ts) && n <= |ts|
    ensures Placed(ts[..n])
  {
  }

  lemma {:induction false} LexedGrows(calls: seq<Call>, n: nat)
    requires n <= |calls|
    ensures Lexed(calls[..n]) <= Lexed(calls)
  {
    hide LexedCall, After;
    if n < |calls| {
      var before := calls[..|calls| - 1];
      LexedGrows(before, n);
      assert before[..n] == calls[..n];
    } else {
      assert calls[..n] == calls;
    }
  }

  lemma LexedOneMore(calls: seq<Call>, c: Call)
    ensures Lexed(calls + [c]) == Lexed(calls) + LexedCall(After(calls).needAnd, c)
    ensures After(calls + [c]) == Apply(After(calls), c)
  {
    hide LexedCall, Apply;
    var more := calls + [c];
    assert more[..|more| - 1] == calls && more[|more| - 1] == c;
  }

  lemma LexedTest(needAnd: bool, c: Call)
    requires IsTest(c) && Checked(c)
    ensures LexedCall(needAnd, c)
         == (if needAnd then [And] else []) + Lex(Spelling(c.field)) + Erase(TestTokens(TestOf(c)))
  {
    hide Lex, TestTokens, Erase, Spelling;
  }

  /** A test on a field that names no column spoils the text. */
  lemma UnnamedIsMisplaced(calls: seq<Call>, c: Call)
    requires IsTest(c) && Checked(c) && ColumnOf(c.field).None?
    ensures !Placed(Lexed(calls + [c]))
  {
    hide Lex, TestTokens, Erase, ColumnOf, Spelling, Stray, Placed, After, Checked, Lexed, LexedCall, Scan, TestOf, Final, Head;
    var joiner := if After(calls).needAnd then [And] else [];
    var f, e := Lex(Spelling(c.field)), Erase(TestTokens(TestOf(c)));
    LexedOneMore(calls, c);
    LexedTest(After(calls).needAnd, c);
    SpellingReads(c.field);
    TestEnds(TestOf(c));
    OperandPlace(calls);
    StrayCallIsMisplaced(Lexed(calls), joiner, f, e);
  }

  lemma StrayCallIsMisplaced(x: seq<Token>, joiner: seq<Token>, f: seq<Token>, e: seq<Token>)
    requires x + joiner == [] || (x + joiner)[|x + joiner| - 1] in {And, Or, Open, Mark, Null, Close}
    requires Stray(f) && e != [] && Head(e[0])
    ensures !Placed(x + (joiner + f + e))
  {
    hide Placed, Stray, Head;
    StrayIsMisplaced(x + joiner, f, e);
    assert x + (joiner + f + e) == x + joiner + f + e;
  }

  /** Before the operand of a test stands an operator, or nothing. */
  lemma OperandPlace(calls: seq<Call>)
    ensures var x := Lexed(calls) + if After(calls).needAnd then [And] else [];
      x == [] || x[|x| - 1] == And || x[|x| - 1] == Open || x[|x| - 1] == Or
  {
    hide Lexed, After;
    LexedEnds(calls);
    assert Lexed(calls) + [] == Lexed(calls);
  }

  lemma UnnamedHasNoMeaning(calls: seq<Call>)
    requires !Named(calls)
    ensures Meaning(After(calls).text, After(calls).args) == None
  {
    hide Lex, ColumnOf, Meaning, After, Lexed, Reads, Placed, Checked;
    var c :| c in calls && IsTest(c) && Checked(c) && ColumnOf(c.field).None?;
    var n :| 0 <= n < |calls| && calls[n] == c;
    assert calls[..n + 1] == calls[..n] + [c];
    UnnamedIsMisplaced(calls[..n], c);
    LexedGrows(calls, n + 1);
    TextReads(calls);
    assert Lexed(calls)[..|Lexed(calls[..n + 1])|] == Lexed(calls[..n + 1]);
    if Placed(Lexed(calls)) { PlacedPrefix(Lexed(calls), |Lexed(calls[..n + 1])|); }
    if Meaning(After(calls).text, After(calls).args).Some? { MeaningIsPlaced(After(calls).text, After(calls).args); }
  }

  /** For any calls: text and arguments mean something exactly when every accepted field names a column, nothing was
      closed that was not open, nothing is left open and the last operand is complete; then they mean the tree that
      the calls describe. */
  lemma MeaningIff(calls: seq<Call>)
    ensures var s := After(calls);
      Meaning(s.text, s.args).Some? <==>
        Named(calls) && (!exists n: nat :: ClosesNothing(calls, n)) && Nesting(calls) == 0 && s.needAnd
    ensures Meaning(After(calls).text, After(calls).args).Some? ==>
      Follow(EMPTY, calls).Some? && Follow(EMPTY, calls).value.top.right.Some?
      && Meaning(After(calls).text, After(calls).args) == Some(Whole(Follow(EMPTY, calls).value.top))
  {
    hide Named, Meaning, After, Follow, ClosesNothing, Nesting;
    if Named(calls) { NamedClauseHasMeaningIff(calls); } else { UnnamedHasNoMeaning(calls); }
  }
}
