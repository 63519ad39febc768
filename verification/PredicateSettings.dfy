/** Which calls on a predicates object have an effect, and what its limits, index and distinct flag are after any calls. */
module PredicateSettings {
  import opened Options
  import opened Conditions
  import opened ClauseText
  import opened FieldNames
  import opened Predicates
  import opened PredicateMeaning
  import opened PredicateFields
  import opened PredicateBuilder
  import opened PredicateParcel

  /** A clause call leaves everything as it is exactly if a field, a value or the list is empty, or it needs a complete
      operand and there is none, or it is And. */
  lemma RefusedIff(s: Clause, c: Call)
    ensures Apply(s, c) == s <==>
      match c
      case CompareTo(field, _, value) => field == "" || value == ""
      case Pattern(field, _, value, _) => field == "" || value == ""
      case NullCheck(field, _) => field == ""
      case InRange(field, _, low, high) => field == "" || low == "" || high == ""
      case InList(field, _, values) => field == "" || values == []
      case BeginWrap => false
      case EndWrap => !s.needAnd
      case OrCall => !s.needAnd
      case AndCall => true
  {
    hide Normalized, RemoveQuotes, TestText, Joiner, Arguments;
    ApplyWrites(s, c);
    if IsTest(c) && Checked(c) {
      TestTextStarts(TestOf(c));
      assert |Written(s, c)| >= |TestText(TestOf(c))|;
      assert |Apply(s, c).text| > |s.text|;
    } else if Written(s, c) != "" {
      assert |Apply(s, c).text| > |s.text|;
    }
  }

  // ---------------------------------------------------------------- the other calls

  ghost predicate First(settings: seq<Setting>, counts: Setting -> bool, i: nat) {
    i < |settings| && counts(settings[i]) && forall j | 0 <= j < i :: !counts(settings[j])
  }

  ghost predicate Last(settings: seq<Setting>, counts: Setting -> bool, i: nat) {
    i < |settings| && counts(settings[i]) && forall j | i < j < |settings| :: !counts(settings[j])
  }

  predicate IsLimit(s: Setting) { s.SetLimit? && s.value >= 1 }
  predicate IsOffset(s: Setting) { s.SetOffset? && s.value >= 1 }
  predicate IsIndex(s: Setting) { s.IndexOn? && s.name != "" }

  /** The first positive limit counts, and stays. */
  lemma {:induction false} LimitIsFirst(selection: string, settings: seq<Setting>, i: nat)
    ensures var q := Made(selection, settings);
      && (q.limit == -1 <==> forall s | s in settings :: !IsLimit(s))
      && (First(settings, IsLimit, i) ==> q.limit == settings[i].value)
  {
    if settings != [] {
      var before, last := settings[..|settings| - 1], settings[|settings| - 1];
      LimitIsFirst(selection, before, i);
      SetIs(Made(selection, before), last);
      hide Set, RemoveQuotes, Made;
      LastOne(settings);
      if First(settings, IsLimit, i) && i == |before| { assert forall s | s in before :: !IsLimit(s); }
    }
  }

  /** So does the first positive offset. */
  lemma {:induction false} OffsetIsFirst(selection: string, settings: seq<Setting>, i: nat)
    ensures var q := Made(selection, settings);
      && (q.offset == -1 <==> forall s | s in settings :: !IsOffset(s))
      && (First(settings, IsOffset, i) ==> q.offset == settings[i].value)
  {
    if settings != [] {
      var before, last := settings[..|settings| - 1], settings[|settings| - 1];
      OffsetIsFirst(selection, before, i);
      SetIs(Made(selection, before), last);
      hide Set, RemoveQuotes, Made;
      LastOne(settings);
      if First(settings, IsOffset, i) && i == |before| { assert forall s | s in before :: !IsOffset(s); }
    }
  }

  /** The last index that is not empty counts; distinct is set by any call of Distinct. */
  lemma {:induction false} IndexIsLast(selection: string, settings: seq<Setting>, i: nat)
    ensures var q := Made(selection, settings);
      && (Last(settings, IsIndex, i) ==> q.index == RemoveQuotes(settings[i].name))
      && ((forall s | s in settings :: !IsIndex(s)) ==> q.index == "")
      && (q.distinct <==> MakeDistinct in settings)
  {
    if settings != [] {
      var before, last := settings[..|settings| - 1], settings[|settings| - 1];
      IndexIsLast(selection, before, i);
      SetIs(Made(selection, before), last);
      hide Set, RemoveQuotes, Made;
      LastOne(settings);
    }
  }

  lemma LastOne(settings: seq<Setting>)
    requires settings != []
    ensures var before, last := settings[..|settings| - 1], settings[|settings| - 1];
      && (forall s :: s in settings <==> s in before || s == last)
      && forall j | 0 <= j < |before| :: settings[j] == before[j]
  {
  }

  lemma SetIs(q: Query, s: Setting)
    ensures Set(q, s).limit == if q.limit == -1 && IsLimit(s) then s.value else q.limit
    ensures Set(q, s).offset == if q.offset == -1 && IsOffset(s) then s.value else q.offset
    ensures Set(q, s).index == if IsIndex(s) then RemoveQuotes(s.name) else q.index
    ensures Set(q, s).distinct <==> q.distinct || s == MakeDistinct
  {
    hide RemoveQuotes, Normalized, Apply, Grouped;
  }
}
