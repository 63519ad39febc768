/** The characters of a where clause: field names, the spelling of tests, and a lexer that reads them back. */
module ClauseText {
  import opened Options
  import opened Conditions

  // ---------------------------------------------------------------- lexer

  datatype Mode = Gap | InName(text: string) | InWord(text: string) | InSign(text: string)
  datatype Lexer = Lexer(mode: Mode, out: seq<Token>)

  predicate Letter(c: char) { 'a' <= c <= 'z' || 'A' <= c <= 'Z' }

  predicate SignChar(c: char) { c == '=' || c == '<' || c == '>' }

  function Keyword(w: string): Token {
    if w == "AND" then And else if w == "OR" then Or else if w == "NOT" || w == "not" then Not
    else if w == "BETWEEN" then Between else if w == "IN" then In else if w == "is" then Is
    else if w == "null" then Null else if w == "LIKE" then Rel(Like) else if w == "GLOB" then Rel(Glob)
    else Other(w)
  }

  function Sign(w: string): Token {
    if w == "=" then Rel(Eq) else if w == "<>" then Rel(Ne) else if w == ">" then Rel(Gt)
    else if w == "<" then Rel(Lt) else if w == ">=" then Rel(Ge) else if w == "<=" then Rel(Le)
    else Other(w)
  }

  function Flush(l: Lexer): seq<Token> {
    match l.mode
    case Gap => l.out
    case InName(n) => l.out + [Other(n)]
    case InWord(w) => l.out + [Keyword(w)]
    case InSign(w) => l.out + [Sign(w)]
  }

  function Begin(out: seq<Token>, c: char): Lexer {
    if c == ' ' then Lexer(Gap, out)
    else if c == '`' then Lexer(InName(""), out)
    else if Letter(c) then Lexer(InWord([c]), out)
    else if SignChar(c) then Lexer(InSign([c]), out)
    else Lexer(Gap, out + [if c == '?' then Mark else if c == '.' then Dot else if c == ',' then Comma
                           else if c == '(' then Open else if c == ')' then Close else Other([c])])
  }

  function Step(l: Lexer, c: char): Lexer {
    match l.mode
    case InName(n) => if c == '`' then Lexer(Gap, l.out + [Name(n)]) else Lexer(InName(n + [c]), l.out)
    case InWord(w) => if Letter(c) then Lexer(InWord(w + [c]), l.out) else Begin(Flush(l), c)
    case InSign(w) => if SignChar(c) then Lexer(InSign(w + [c]), l.out) else Begin(Flush(l), c)
    case Gap => Begin(l.out, c)
  }

  function Scan(l: Lexer, s: string): Lexer
    decreases |s|
  {
    if s == "" then l else Scan(Step(l, s[0]), s[1..])
  }

  function Lex(s: string): seq<Token> { Flush(Scan(Lexer(Gap, []), s)) }

  lemma {:induction false} ScanAppend(l: Lexer, a: string, b: string)
    ensures Scan(l, a + b) == Scan(Scan(l, a), b)
    decreases |a|
  {
    if a == "" {
      assert a + b == b;
    } else {
      assert (a + b)[1..] == a[1..] + b;
      ScanAppend(Step(l, a[0]), a[1..], b);
    }
  }


  lemma {:induction false} ScanLetters(out: seq<Token>, had: string, w: string)
    requires forall i | 0 <= i < |w| :: Letter(w[i])
    ensures Scan(Lexer(InWord(had), out), w) == Lexer(InWord(had + w), out)
    decreases |w|
  {
    if w == "" {
      assert had + w == had;
    } else {
      ScanLetters(out, had + [w[0]], w[1..]);
      assert had + [w[0]] + w[1..] == had + w;
    }
  }

  lemma {:induction false} ScanSigns(out: seq<Token>, had: string, w: string)
    requires forall i | 0 <= i < |w| :: SignChar(w[i])
    ensures Scan(Lexer(InSign(had), out), w) == Lexer(InSign(had + w), out)
    decreases |w|
  {
    if w == "" {
      assert had + w == had;
    } else {
      ScanSigns(out, had + [w[0]], w[1..]);
      assert had + [w[0]] + w[1..] == had + w;
    }
  }

  lemma {:induction false} ScanNameBody(out: seq<Token>, had: string, n: string)
    requires '`' !in n
    ensures Scan(Lexer(InName(had), out), n) == Lexer(InName(had + n), out)
    decreases |n|
  {
    if n == "" {
      assert had + n == had;
    } else {
      ScanNameBody(out, had + [n[0]], n[1..]);
      assert had + [n[0]] + n[1..] == had + n;
    }
  }

  lemma ScanFirst(l: Lexer, s: string)
    requires s != ""
    ensures Scan(l, s) == Scan(Step(l, s[0]), s[1..])
  {
  }

  lemma ScanOne(l: Lexer, c: char)
    ensures Scan(l, [c]) == Step(l, c)
  {
    assert [c][1..] == "";
  }

  /** A keyword followed by a space. */
  lemma ScanWord(out: seq<Token>, w: string)
    requires w != "" && forall i | 0 <= i < |w| :: Letter(w[i])
    ensures Scan(Lexer(Gap, out), w + " ") == Lexer(Gap, out + [Keyword(w)])
  {
    hide Keyword, Scan;
    ScanAppend(Lexer(Gap, out), w, " ");
    ScanFirst(Lexer(Gap, out), w);
    ScanLetters(out, [w[0]], w[1..]);
    assert [w[0]] + w[1..] == w;
    ScanOne(Lexer(InWord(w), out), ' ');
  }

  /** A comparison sign followed by a space. */
  lemma ScanSign(out: seq<Token>, w: string)
    requires w != "" && forall i | 0 <= i < |w| :: SignChar(w[i])
    ensures Scan(Lexer(Gap, out), w + " ") == Lexer(Gap, out + [Sign(w)])
  {
    hide Sign, Scan;
    ScanAppend(Lexer(Gap, out), w, " ");
    ScanFirst(Lexer(Gap, out), w);
    ScanSigns(out, [w[0]], w[1..]);
    assert [w[0]] + w[1..] == w;
    ScanOne(Lexer(InSign(w), out), ' ');
  }

  lemma ScanMark(out: seq<Token>)
    ensures Scan(Lexer(Gap, out), "? ") == Lexer(Gap, out + [Mark])
  {
    ScanOne(Lexer(Gap, out + [Mark]), ' ');
    assert "? "[1..] == " ";
  }

  /** A name in backticks. */
  lemma ScanName(out: seq<Token>, n: string)
    requires '`' !in n
    ensures Scan(Lexer(Gap, out), "`" + n + "`") == Lexer(Gap, out + [Name(n)])
  {
    ScanAppend(Lexer(Gap, out), "`" + n, "`");
    ScanAppend(Lexer(Gap, out), "`", n);
    ScanOne(Lexer(Gap, out), '`');
    ScanNameBody(out, "", n);
    assert "" + n == n;
    ScanOne(Lexer(InName(n), out), '`');
  }

  // ---------------------------------------------------------------- texts and what they read as

  /** Between tokens, `s` reads as exactly `ts`, and ends between tokens. */
  ghost predicate Reads(s: string, ts: seq<Token>) {
    forall out :: Scan(Lexer(Gap, out), s) == Lexer(Gap, out + ts)
  }

  lemma ReadsAppend(a: string, ta: seq<Token>, b: string, tb: seq<Token>)
    requires Reads(a, ta) && Reads(b, tb)
    ensures Reads(a + b, ta + tb)
  {
    forall out ensures Scan(Lexer(Gap, out), a + b) == Lexer(Gap, out + (ta + tb)) {
      ScanAppend(Lexer(Gap, out), a, b);
      assert out + ta + tb == out + (ta + tb);
    }
  }

  lemma ReadsNothing()
    ensures Reads("", []) && Reads(" ", [])
  {
    forall out ensures Scan(Lexer(Gap, out), "") == Lexer(Gap, out + []) && Scan(Lexer(Gap, out), " ") == Lexer(Gap, out + []) {
      ScanOne(Lexer(Gap, out), ' ');
      assert out + [] == out;
    }
  }

  lemma ReadsWord(w: string)
    requires w != "" && forall i | 0 <= i < |w| :: Letter(w[i])
    ensures Reads(w + " ", [Keyword(w)])
  {
    forall out ensures Scan(Lexer(Gap, out), w + " ") == Lexer(Gap, out + [Keyword(w)]) { ScanWord(out, w); }
  }

  lemma ReadsSign(w: string)
    requires w != "" && forall i | 0 <= i < |w| :: SignChar(w[i])
    ensures Reads(w + " ", [Sign(w)])
  {
    forall out ensures Scan(Lexer(Gap, out), w + " ") == Lexer(Gap, out + [Sign(w)]) { ScanSign(out, w); }
  }

  lemma ReadsPoint(c: char)
    requires !Letter(c) && !SignChar(c) && c != ' ' && c != '`'
    ensures Reads([c], Begin([], c).out) && |Begin([], c).out| == 1
  {
    forall out ensures Scan(Lexer(Gap, out), [c]) == Lexer(Gap, out + Begin([], c).out) { ScanOne(Lexer(Gap, out), c); }
  }

  lemma ReadsMark()
    ensures Reads("? ", [Mark])
  {
    forall out ensures Scan(Lexer(Gap, out), "? ") == Lexer(Gap, out + [Mark]) { ScanMark(out); }
  }

  lemma ReadsName(n: string)
    requires '`' !in n
    ensures Reads("`" + n + "`", [Name(n)])
  {
    forall out ensures Scan(Lexer(Gap, out), "`" + n + "`") == Lexer(Gap, out + [Name(n)]) { ScanName(out, n); }
  }

  function Erase(ts: seq<Token>): (r: seq<Token>)
    ensures |r| == |ts|
    ensures forall i | 0 <= i < |ts| :: r[i] == if ts[i].Value? then Mark else ts[i]
  {
    if ts == [] then [] else [if ts[0].Value? then Mark else ts[0]] + Erase(ts[1..])
  }

  function OpWord(op: Op): string {
    match op
    case Eq => "=" case Ne => "<>" case Gt => ">" case Lt => "<" case Ge => ">=" case Le => "<="
    case Like => "LIKE" case Glob => "GLOB"
  }

  function MoreText(n: nat): string { if n == 0 then "" else " , ?" + MoreText(n - 1) }

  /** What a call appends after the field. */
  function TestText(t: Test): string {
    match t
    case Compare(op, _) => " " + OpWord(op) + " ? "
    case NullTest(negated) => if negated then " is not null " else " is null "
    case Range(negated, _, _) => if negated then " NOT BETWEEN ? AND ? " else " BETWEEN ? AND ? "
    case Member(negated, _, more) => (if negated then " NOT IN " else " IN ") + "(" + "?" + MoreText(|more|) + ")"
  }

  lemma ReadsOp(op: Op)
    ensures Reads(OpWord(op) + " ", [Rel(op)])
  {
    var w := OpWord(op);
    if op == Like || op == Glob { ReadsWord(w); } else { ReadsSign(w); }
  }

  lemma ReadsCompare(op: Op)
    ensures Reads(" " + OpWord(op) + " ? ", [Rel(op), Mark])
  {
    hide Reads;
    ReadsNothing();
    ReadsOp(op);
    ReadsMark();
    ReadsAppend(OpWord(op) + " ", [Rel(op)], "? ", [Mark]);
    ReadsAppend(" ", [], OpWord(op) + " " + "? ", [Rel(op)] + [Mark]);
    hide OpWord;
    assert " " + OpWord(op) + " ? " == " " + (OpWord(op) + " " + "? ");
    assert [] + ([Rel(op)] + [Mark]) == [Rel(op), Mark];
  }

  lemma Glue(a: string, ta: seq<Token>, b: string, tb: seq<Token>, s: string, ts: seq<Token>)
    requires Reads(a, ta) && Reads(b, tb) && s == a + b && ts == ta + tb
    ensures Reads(s, ts)
  {
    ReadsAppend(a, ta, b, tb);
  }

  /** A keyword, with a space before it if `s` has one. */
  lemma ReadsKeyword(s: string, w: string, t: Token)
    requires w != "" && (forall i | 0 <= i < |w| :: Letter(w[i])) && Keyword(w) == t
    requires s == w + " " || s == " " + w + " "
    ensures Reads(s, [t])
  {
    hide Reads, Keyword;
    ReadsNothing();
    ReadsWord(w);
    if s != w + " " { Glue(" ", [], w + " ", [t], s, [t]); }
  }

  lemma ReadsNull(negated: bool)
    ensures Reads(TestText(NullTest(negated)), Erase(TestTokens(NullTest(negated))))
  {
    hide Reads, Keyword;
    ReadsNullWords();
    if negated {
      Glue("not ", [Not], "null ", [Null], "not null ", [Not, Null]);
      Glue(" is ", [Is], "not null ", [Not, Null], TestText(NullTest(true)), Erase(TestTokens(NullTest(true))));
    } else {
      Glue(" is ", [Is], "null ", [Null], TestText(NullTest(false)), Erase(TestTokens(NullTest(false))));
    }
  }

  lemma ReadsNullWords()
    ensures Reads(" is ", [Is]) && Reads("not ", [Not]) && Reads("null ", [Null])
  {
    hide Reads;
    ReadsKeyword(" is ", "is", Is);
    ReadsKeyword("not ", "not", Not);
    ReadsKeyword("null ", "null", Null);
  }

  lemma ReadsRange(negated: bool, low: string, high: string)
    ensures Reads(TestText(Range(negated, low, high)), Erase(TestTokens(Range(negated, low, high))))
  {
    hide Reads;
    var t := Range(negated, low, high);
    ReadsBounds();
    if negated {
      ReadsKeyword(" NOT ", "NOT", Not);
      ReadsKeyword("BETWEEN ", "BETWEEN", Between);
      Glue(" NOT ", [Not], "BETWEEN ", [Between], " NOT BETWEEN ", [Not, Between]);
      Glue(" NOT BETWEEN ", [Not, Between], "? AND ? ", [Mark, And, Mark], TestText(t), Erase(TestTokens(t)));
    } else {
      ReadsKeyword(" BETWEEN ", "BETWEEN", Between);
      Glue(" BETWEEN ", [Between], "? AND ? ", [Mark, And, Mark], TestText(t), Erase(TestTokens(t)));
    }
  }

  lemma ReadsBounds()
    ensures Reads("? AND ? ", [Mark, And, Mark])
  {
    hide Reads;
    ReadsKeyword("AND ", "AND", And);
    ReadsMark();
    Glue("? ", [Mark], "AND ", [And], "? AND ", [Mark, And]);
    Glue("? AND ", [Mark, And], "? ", [Mark], "? AND ? ", [Mark, And, Mark]);
  }

  lemma ReadsNext()
    ensures Reads(" , ?", [Comma, Mark])
  {
    hide Reads;
    ReadsNothing();
    ReadsPoint(',');
    ReadsPoint('?');
    Glue(" ", [], ",", [Comma], " ,", [Comma]);
    Glue(" ", [], "?", [Mark], " ?", [Mark]);
    Glue(" ,", [Comma], " ?", [Mark], " , ?", [Comma, Mark]);
  }

  lemma {:induction false} ReadsMore(more: seq<string>)
    ensures Reads(MoreText(|more|), Erase(MoreTokens(more)))
  {
    hide Reads;
    if more == [] {
      ReadsNothing();
    } else {
      ReadsMore(more[1..]);
      ReadsNext();
      var rest := MoreTokens(more[1..]);
      assert MoreTokens(more) == [Comma, Value(more[0])] + rest;
      EraseAppend([Comma, Value(more[0])], rest);
      assert Erase([Comma, Value(more[0])]) == [Comma, Mark];
      hide MoreTokens, Erase;
      Glue(" , ?", [Comma, Mark], MoreText(|more| - 1), Erase(rest), MoreText(|more|), Erase(MoreTokens(more)));
    }
  }

  lemma EraseAppend(a: seq<Token>, b: seq<Token>)
    ensures Erase(a + b) == Erase(a) + Erase(b)
  {
  }

  lemma ReadsIn(negated: bool)
    ensures Reads(if negated then " NOT IN " else " IN ", Negation(negated) + [In])
  {
    hide Reads;
    if negated {
      ReadsKeyword(" NOT ", "NOT", Not);
      ReadsKeyword("IN ", "IN", In);
      Glue(" NOT ", [Not], "IN ", [In], " NOT IN ", Negation(negated) + [In]);
    } else {
      ReadsKeyword(" IN ", "IN", In);
      assert Negation(negated) + [In] == [In];
    }
  }

  lemma ReadsMember(negated: bool, first: string, more: seq<string>)
    ensures Reads(TestText(Member(negated, first, more)), Erase(TestTokens(Member(negated, first, more))))
  {
    hide Reads, MoreText, MoreTokens, Erase, TestTokens;
    var t := Member(negated, first, more);
    var lead := if negated then " NOT IN " else " IN ";
    var head := Negation(negated) + [In];
    ReadsIn(negated);
    ReadsMore(more);
    ReadsPoint('(');
    ReadsPoint('?');
    ReadsPoint(')');
    ReadsAppend(lead, head, "(", [Open]);
    ReadsAppend(lead + "(", head + [Open], "?", [Mark]);
    ReadsAppend(lead + "(" + "?", head + [Open] + [Mark], MoreText(|more|), Erase(MoreTokens(more)));
    MemberErased(negated, first, more);
    ReadsAppend(lead + "(" + "?" + MoreText(|more|), head + [Open] + [Mark] + Erase(MoreTokens(more)), ")", [Close]);
  }

  lemma MemberErased(negated: bool, first: string, more: seq<string>)
    ensures Erase(TestTokens(Member(negated, first, more)))
         == Negation(negated) + [In] + [Open] + [Mark] + Erase(MoreTokens(more)) + [Close]
  {
    hide MoreTokens;
    var head := Negation(negated) + [In, Open, Value(first)];
    EraseAppend(head, MoreTokens(more));
    EraseAppend(head + MoreTokens(more), [Close]);
    assert Erase(head) == Negation(negated) + [In] + [Open] + [Mark];
    assert Erase([Close]) == [Close];
    assert TestTokens(Member(negated, first, more)) == head + MoreTokens(more) + [Close];
    hide Erase, TestTokens, Negation;
  }

  /** The text of every test reads as its tokens. */
  lemma ReadsTest(t: Test)
    ensures Reads(TestText(t), Erase(TestTokens(t)))
  {
    hide Reads;
    match t
    case Compare(op, value) => ReadsCompare(op); assert Erase(TestTokens(t)) == [Rel(op), Mark];
    case NullTest(negated) => ReadsNull(negated);
    case Range(negated, low, high) => ReadsRange(negated, low, high);
    case Member(negated, first, more) => ReadsMember(negated, first, more);
  }
}
