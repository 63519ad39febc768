/** Going on with an object that came out of a parcel: `isNeedAnd` and `isSorted` are forgotten. */
module PredicateResumed {
  import opened Options
  import opened Conditions
  import opened ClauseText
  import opened Predicates
  import opened FieldNames
  import opened PredicateMeaning
  import opened PredicateGrammar
  import opened PredicateFields
  import opened PredicateBuilder
  import opened PredicateParcel

  // ---------------------------------------------------------------- the where clause

  function Continue(s: Clause, more: seq<Call>): Clause {
    if more == [] then s else Apply(Continue(s, more[..|more| - 1]), more[|more| - 1])
  }

  lemma {:induction false} ContinueIsAfter(calls: seq<Call>, more: seq<Call>)
    ensures Continue(After(calls), more) == After(calls + more)
  {
    hide Apply;
    if more == [] {
      assert calls + more == calls;
    } else {
      ContinueIsAfter(calls, more[..|more| - 1]);
      assert (calls + more)[..|calls + more| - 1] == calls + more[..|more| - 1];
    }
  }

  /** The tokens of the characters that further calls write. */
  function LexedOn(s: Clause, more: seq<Call>): seq<Token> {
    if more == [] then []
    else LexedOn(s, more[..|more| - 1]) + LexedCall(Continue(s, more[..|more| - 1]).needAnd, more[|more| - 1])
  }

  lemma {:induction false} ContinuedReads(s: Clause, ts: seq<Token>, more: seq<Call>)
    requires Reads(s.text, ts)
    ensures Reads(Continue(s, more).text, ts + LexedOn(s, more))
  {
    hide Reads, Apply, LexedCall, Written;
    if more == [] {
      assert ts + [] == ts;
    } else {
      var before, c := more[..|more| - 1], more[|more| - 1];
      var t := Continue(s, before);
      ContinuedReads(s, ts, before);
      ReadsAnyCall(t, c);
      ApplyWrites(t, c);
      ReadsAppend(t.text, ts + LexedOn(s, before), Written(t, c), LexedCall(t.needAnd, c));
      assert ts + LexedOn(s, before) + LexedCall(t.needAnd, c) == ts + LexedOn(s, more);
    }
  }

  lemma {:induction false} LexedOnGrows(s: Clause, more: seq<Call>, n: nat)
    requires n <= |more|
    ensures LexedOn(s, more[..n]) <= LexedOn(s, more)
  {
    hide LexedCall, Continue;
    if n < |more| {
      var before := more[..|more| - 1];
      LexedOnGrows(s, before, n);
      assert before[..n] == more[..n];
    } else {
      assert more[..n] == more;
    }
  }

  /** Without `isNeedAnd` the call writes nothing: AND, OR and EndWrap, and tests that are not accepted. */
  predicate Silent(c: Call) { !c.BeginWrap? && (IsTest(c) ==> !Checked(c)) }

  lemma {:induction false} SilentCallsWriteNothing(s: Clause, more: seq<Call>)
    requires !s.needAnd && forall c | c in more :: Silent(c)
    ensures Continue(s, more) == s && LexedOn(s, more) == []
  {
    hide Checked, Normalized, RemoveQuotes, TestText, TestTokens, Lex, Joiner;
    if more != [] {
      SilentCallsWriteNothing(s, more[..|more| - 1]);
      assert Silent(more[|more| - 1]);
    }
  }

  /** An operand written without the AND that a complete one before it needs is misplaced. */
  lemma MissingAndIsMisplaced(x: seq<Token>, c: Call)
    requires x != [] && Final(x[|x| - 1]) && !Silent(c)
    ensures !Placed(x + LexedCall(false, c))
  {
    hide Lex, TestTokens, Erase, ColumnOf, Spelling, Stray, Checked, Scan;
    if c.BeginWrap? {
      var ts := x + LexedCall(false, c);
      assert ts[|x|] == Open && ts[|x| - 1] == x[|x| - 1];
    } else {
      hide LexedCall;
      var f, e := Lex(Spelling(c.field)), Erase(TestTokens(TestOf(c)));
      LexedTest(false, c);
      SpellingReads(c.field);
      TestEnds(TestOf(c));
      if ColumnOf(c.field).None? {
        assert x + [] == x;
        StrayCallIsMisplaced(x, [], f, e);
      } else {
        var ts := x + f + e;
        assert x + ([] + f + e) == ts;
        assert f[0].Name? && ts[|x|] == f[0] && ts[|x| - 1] == x[|x| - 1];
      }
    }
  }

  lemma FirstLoud(more: seq<Call>) returns (n: nat)
    requires exists c :: c in more && !Silent(c)
    ensures n < |more| && !Silent(more[n]) && forall c | c in more[..n] :: Silent(c)
  {
    hide Silent;
    n := 0;
    while Silent(more[n])
      invariant n < |more| && forall c | c in more[..n] :: Silent(c)
      invariant exists i :: n <= i < |more| && !Silent(more[i])
      decreases |more| - n
    {
      assert more[..n + 1] == more[..n] + [more[n]];
      n := n + 1;
    }
  }

  /** After a complete operand, the first call that writes something misplaces it. */
  lemma LoudIsMisplaced(s: Clause, x: seq<Token>, more: seq<Call>)
    requires !s.needAnd && x != [] && Final(x[|x| - 1]) && exists c :: c in more && !Silent(c)
    ensures !Placed(x + LexedOn(s, more))
  {
    hide LexedCall, Placed, Final, Silent;
    var n := FirstLoud(more);
    var upto := more[..n + 1];
    assert upto[..|upto| - 1] == more[..n];
    SilentCallsWriteNothing(s, more[..n]);
    assert LexedOn(s, upto) == LexedCall(false, more[n]);
    MissingAndIsMisplaced(x, more[n]);
    LexedOnGrows(s, more, n + 1);
    var ts, m := x + LexedOn(s, more), |x| + |LexedOn(s, upto)|;
    assert ts[..m] == x + LexedOn(s, upto);
    if Placed(ts) { PlacedPrefix(ts, m); }
  }

  /** Unmarshalling forgets `isNeedAnd`. If the flag was not set, any further calls give what they would have given.
      If it was set, every OR, EndWrap and refused call writes nothing, and the clause has a meaning exactly if it had
      one before and there are no other calls. */
  lemma ForgottenNeedAndIff(calls: seq<Call>, more: seq<Call>)
    ensures var s, resumed := After(calls), Continue(After(calls).(needAnd := false), more);
      if s.needAnd then
        Meaning(resumed.text, resumed.args).Some? <==>
          (Meaning(s.text, s.args).Some? && forall c | c in more :: Silent(c))
      else resumed == After(calls + more)
    ensures var s, resumed := After(calls), Continue(After(calls).(needAnd := false), more);
      s.needAnd && (forall c | c in more :: Silent(c)) ==> resumed == s.(needAnd := false)
  {
    hide Lex, After, Apply, Lexed, Meaning, Placed, Silent, Reads, Continue, LexedOn;
    var s := After(calls).(needAnd := false);
    if !After(calls).needAnd {
      ContinueIsAfter(calls, more);
      assert s == After(calls);
    } else if forall c | c in more :: Silent(c) {
      SilentCallsWriteNothing(s, more);
    } else {
      var resumed := Continue(s, more);
      TextReads(calls);
      LexedEnds(calls);
      ContinuedReads(s, Lexed(calls), more);
      ReadsLexes(resumed.text, Lexed(calls) + LexedOn(s, more));
      LoudIsMisplaced(s, Lexed(calls), more);
      if Meaning(resumed.text, resumed.args).Some? { MeaningIsPlaced(resumed.text, resumed.args); }
    }
  }

  // ---------------------------------------------------------------- the order

  function Resume(q: Query, more: seq<Setting>): Query {
    if more == [] then q else Set(Resume(q, more[..|more| - 1]), more[|more| - 1])
  }

  lemma {:induction false} ResumeIsMade(selection: string, settings: seq<Setting>, more: seq<Setting>)
    ensures Resume(Made(selection, settings), more) == Made(selection, settings + more)
  {
    hide Set;
    if more == [] {
      assert settings + more == settings;
    } else {
      ResumeIsMade(selection, settings, more[..|more| - 1]);
      assert (settings + more)[..|settings + more| - 1] == settings + more[..|more| - 1];
    }
  }

  /** An accepted OrderByAsc or OrderByDesc. */
  predicate Sorts(s: Setting) { s.Order? && s.field != "" }

  ghost predicate AnySorts(settings: seq<Setting>) { exists s | s in settings :: Sorts(s) }

  lemma AnySortsStep(settings: seq<Setting>)
    requires settings != []
    ensures AnySorts(settings) <==> AnySorts(settings[..|settings| - 1]) || Sorts(settings[|settings| - 1])
  {
    var before, last := settings[..|settings| - 1], settings[|settings| - 1];
    assert forall s :: s in settings <==> s in before || s == last;
  }

  lemma SetSorts(q: Query, s: Setting)
    ensures Set(q, s).sorted <==> q.sorted || Sorts(s)
    ensures !Sorts(s) ==> Set(q, s).order == q.order
    ensures Sorts(s) ==> Set(q, s).order == q.order + (if q.sorted then "," else "") + (Spelling(s.field) + s.ending)
  {
    hide Apply, Grouped, Normalized, RemoveQuotes;
  }

  lemma {:induction false} SortedIff(selection: string, settings: seq<Setting>)
    ensures Made(selection, settings).sorted <==> AnySorts(settings)
  {
    if settings != [] {
      hide Set, AnySorts;
      SortedIff(selection, settings[..|settings| - 1]);
      AnySortsStep(settings);
      SetSorts(Made(selection, settings[..|settings| - 1]), settings[|settings| - 1]);
    }
  }

  /** What the calls write when `isSorted` is not set. */
  ghost function OrderTail(more: seq<Setting>): string {
    if more == [] then ""
    else
      var before, last := more[..|more| - 1], more[|more| - 1];
      if Sorts(last) then OrderTail(before) + ((if AnySorts(before) then "," else "") + (Spelling(last.field) + last.ending))
      else OrderTail(before)
  }

  /** The flag puts a comma in front, and that is all. */
  lemma {:induction false} ResumedOrder(q: Query, more: seq<Setting>)
    ensures Resume(q, more).sorted <==> q.sorted || AnySorts(more)
    ensures Resume(q, more).order == q.order + ((if q.sorted && AnySorts(more) then "," else "") + OrderTail(more))
  {
    if more != [] {
      hide Set, AnySorts, Sorts, Spelling;
      var before, last := more[..|more| - 1], more[|more| - 1];
      ResumedOrder(q, before);
      AnySortsStep(more);
      SetSorts(Resume(q, before), last);
      QuietTail(before);
      if Sorts(last) {
        Commas(q.order, q.sorted, AnySorts(before), OrderTail(before), Spelling(last.field) + last.ending);
      }
    }
  }

  lemma Commas(order: string, sorted: bool, any: bool, tail: string, item: string)
    requires !any ==> tail == ""
    ensures order + ((if sorted && any then "," else "") + tail) + (if sorted || any then "," else "") + item
         == order + ((if sorted then "," else "") + (tail + ((if any then "," else "") + item)))
  {
  }

  lemma {:induction false} QuietTail(more: seq<Setting>)
    ensures !AnySorts(more) ==> OrderTail(more) == ""
  {
    if more != [] {
      hide AnySorts, Spelling;
      AnySortsStep(more);
      QuietTail(more[..|more| - 1]);
    }
  }

  /** Unmarshalling forgets `isSorted`. What further calls make of the order differs from what they would have made
      exactly if an OrderBy was accepted before and one is accepted after; then the comma between them is missing. */
  lemma ForgottenSortedIff(selection: string, settings: seq<Setting>, more: seq<Setting>)
    ensures var q, kept := Made(selection, settings), Made(selection, settings + more).order;
      var resumed := Resume(q.(sorted := false), more).order;
      && (resumed != kept <==> AnySorts(settings) && AnySorts(more))
      && (resumed != kept ==> exists rest: string :: kept == q.order + "," + rest && resumed == q.order + rest)
  {
    hide Made, Resume, AnySorts, OrderTail;
    var q := Made(selection, settings);
    ResumeIsMade(selection, settings, more);
    SortedIff(selection, settings);
    ResumedOrder(q, more);
    ResumedOrder(q.(sorted := false), more);
    if q.sorted && AnySorts(more) {
      assert Resume(q, more).order == q.order + "," + OrderTail(more);
      assert Resume(q.(sorted := false), more).order == q.order + OrderTail(more);
    }
  }
}
