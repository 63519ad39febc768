/** The predicates object: its fields, and methods that append to them. */
module PredicateBuilder {
  import opened Options
  import opened Conditions
  import opened ClauseText
  import opened FieldNames
  import opened Predicates
  import Patterns

  /** Everything a predicates object holds. */
  datatype Query = Query(
    clause: Clause, distinct: bool, index: string, group: string, order: string, sorted: bool, limit: int, offset: int)

  const BLANK: Query := Query(Clause("", [], false), false, "", "", "", false, -1, -1)

  function Called(q: Query, c: Call): Query { q.(clause := Apply(q.clause, c)) }

  function OrderedBy(q: Query, field: string, ending: string): Query {
    if field == "" then q
    else q.(order := q.order + (if q.sorted then "," else "") + Normalized(RemoveQuotes(field)) + ending, sorted := true)
  }

  function Limited(q: Query, value: int): Query { if q.limit != -1 || value < 1 then q else q.(limit := value) }

  function Displaced(q: Query, value: int): Query { if q.offset != -1 || value < 1 then q else q.(offset := value) }

  function Indexed(q: Query, name: string): Query { if name == "" then q else q.(index := RemoveQuotes(name)) }

  /** Each name followed by a comma. */
  function Listed(names: seq<string>): string { if names == [] then "" else names[0] + "," + Listed(names[1..]) }

  function Spellings(fields: seq<string>): (names: seq<string>)
    ensures |names| == |fields|
    ensures forall i | 0 <= i < |fields| :: names[i] == Normalized(RemoveQuotes(fields[i]))
  {
    seq(|fields|, i requires 0 <= i < |fields| => Normalized(RemoveQuotes(fields[i])))
  }

  /** How many fields come before the first empty one. */
  function Leading(fields: seq<string>): (n: nat)
    ensures n <= |fields| && (forall i | 0 <= i < n :: fields[i] != "") && (n < |fields| ==> fields[n] == "")
  {
    if fields == [] || fields[0] == "" then 0 else 1 + Leading(fields[1..])
  }

  /** GroupBy; an empty field ends it early, with the last comma still in place. */
  function Grouped(group: string, fields: seq<string>): string {
    if fields == [] then group
    else
      var n := Leading(fields);
      var text := group + Listed(Spellings(fields[..n]));
      if n < |fields| then text else ListedIsLong(Spellings(fields[..n])); text[..|text| - 1]
  }

  lemma ListedIsLong(names: seq<string>)
    ensures |Listed(names)| >= |names|
  {
  }

  lemma {:induction false} ListedAppend(names: seq<string>, x: string)
    ensures Listed(names + [x]) == Listed(names) + x + ","
  {
    if names == [] {
      assert names + [x] == [x] && [x][1..] == [];
    } else {
      assert (names + [x])[1..] == names[1..] + [x];
      ListedAppend(names[1..], x);
    }
  }

  /** The position of the last `c`. */
  function Last(s: string, c: char): (p: nat)
    requires c in s
    ensures p < |s| && s[p] == c && c !in s[p + 1..]
  {
    if s[|s| - 1] == c then |s| - 1 else
      var p := Last(s[..|s| - 1], c);
      assert s[p + 1..] == s[..|s| - 1][p + 1..] + [s[|s| - 1]];
      p
  }

  function Parameters(texts: seq<string>, separator: string): string {
    if texts == [] then "" else if |texts| == 1 then texts[0]
    else Parameters(texts[..|texts| - 1], separator) + " " + separator + " " + texts[|texts| - 1]
  }

  /** Joins the texts as the parameters of a function call. */
  method SurroundWithFunction(name: string, separator: string, texts: seq<string>) returns (builder: string)
    ensures builder == name + "(" + Parameters(texts, separator) + ")"
  {
    builder := name + "(";
    var isFirst := true;
    for i := 0 to |texts|
      invariant isFirst <==> i == 0
      invariant builder == name + "(" + Parameters(texts[..i], separator)
    {
      assert texts[..i + 1][..i] == texts[..i];
      if !isFirst { builder := builder + " " + separator + " "; } else { isFirst := false; }
      builder := builder + texts[i];
    }
    assert texts[..|texts|] == texts;
    builder := builder + ")";
  }

  lemma {:induction false} MarksAsParameters(texts: seq<string>)
    requires |texts| > 0 && forall i | 0 <= i < |texts| :: texts[i] == "?"
    ensures Parameters(texts, ",") == "?" + MoreText(|texts| - 1)
  {
    if |texts| > 1 {
      MarksAsParameters(texts[..|texts| - 1]);
      MoreTextAppend(|texts| - 2);
      assert MoreText(|texts| - 2) + " " + "," + " " + "?" == MoreText(|texts| - 2) + " , ?";
    }
  }

  lemma MembersAsText(negated: bool, values: seq<string>, marks: seq<string>)
    requires |marks| == |values| > 0 && forall i | 0 <= i < |marks| :: marks[i] == "?"
    ensures TestText(Member(negated, values[0], values[1..]))
         == (if negated then " NOT IN " else " IN ") + "(" + Parameters(marks, ",") + ")"
    ensures Arguments(Member(negated, values[0], values[1..])) == values
  {
    hide MoreText, Parameters;
    MarksAsParameters(marks);
    assert [values[0]] + values[1..] == values;
  }

  lemma {:induction false} MoreTextAppend(n: nat)
    ensures MoreText(n + 1) == MoreText(n) + " , ?"
  {
    if n > 0 { MoreTextAppend(n - 1); }
  }

  lemma SpellingsAppend(fields: seq<string>, i: nat)
    requires i < |fields|
    ensures Listed(Spellings(fields[..i + 1])) == Listed(Spellings(fields[..i])) + Normalized(RemoveQuotes(fields[i])) + ","
  {
    hide Normalized, RemoveQuotes, Listed;
    assert Spellings(fields[..i + 1]) == Spellings(fields[..i]) + [Normalized(RemoveQuotes(fields[i]))];
    ListedAppend(Spellings(fields[..i]), Normalized(RemoveQuotes(fields[i])));
  }

  lemma GroupedSoFar(group: string, fields: seq<string>, i: nat)
    requires i <= |fields| && fields != [] && forall j | 0 <= j < i :: fields[j] != ""
    ensures i < |fields| && fields[i] == "" ==> Grouped(group, fields) == group + Listed(Spellings(fields[..i]))
    ensures i == |fields| ==> Grouped(group, fields) + "," == group + Listed(Spellings(fields[..i]))
  {
    hide Normalized, RemoveQuotes, Spellings, Listed;
    var n := Leading(fields);
    if i == |fields| {
      ListedEnds(Spellings(fields[..i]));
      var text := group + Listed(Spellings(fields[..n]));
      assert text == text[..|text| - 1] + ",";
    }
  }

  class AbsPredicates {
    var whereClause: string
    var whereArgs: seq<string>
    var order: string
    var group: string
    var index: string
    var limit: int
    var offset: int
    var distinct: bool
    var isNeedAnd: bool
    var isSorted: bool

    ghost function View(): Query
      reads this
    {
      Query(Clause(whereClause, whereArgs, isNeedAnd), distinct, index, group, order, isSorted, limit, offset)
    }

    constructor ()
      ensures View() == BLANK
    {
      distinct, isNeedAnd, isSorted := false, false, false;
      whereArgs, whereClause, order, group, index := [], "", "", "", "";
      limit, offset := -1, -1;
    }

    method CheckIsNeedAnd()
      modifies this`whereClause, this`isNeedAnd
      ensures isNeedAnd && whereClause == old(whereClause) + if old(isNeedAnd) then " AND " else ""
    {
      if isNeedAnd { whereClause := whereClause + " AND "; } else { isNeedAnd := true; }
    }

    /** What every test call other than EqualTo does once its parameters are accepted. */
    method Append(field: string, text: string, args: seq<string>)
      modifies this`whereClause, this`isNeedAnd, this`whereArgs
      ensures isNeedAnd && whereArgs == old(whereArgs) + args
      ensures whereClause == old(whereClause) + (if old(isNeedAnd) then " AND " else "") + Normalized(RemoveQuotes(field)) + text
    {
      CheckIsNeedAnd();
      var normalizedField := Normalize(RemoveQuotes(field));
      whereClause := whereClause + normalizedField + text;
      whereArgs := whereArgs + args;
    }

    method EqualTo(field: string, value: string)
      modifies this
      ensures View() == Called(old(View()), CompareTo(field, Eq, value))
    {
      hide Normalized, RemoveQuotes;
      if field == "" || value == "" { return; }
      if isNeedAnd { whereClause := whereClause + "AND "; } else { isNeedAnd := true; }
      assert whereClause == old(whereClause) + Joiner(CompareTo(field, Eq, value), old(isNeedAnd));
      var normalizedField := Normalize(RemoveQuotes(field));
      whereClause := whereClause + normalizedField + " = ? ";
      whereArgs := whereArgs + [value];
    }

    method NotEqualTo(field: string, value: string)
      modifies this
      ensures View() == Called(old(View()), CompareTo(field, Ne, value))
    {
      hide Normalized, RemoveQuotes;
      if field == "" || value == "" { return; }
      Append(field, " <> ? ", [value]);
    }

    method Contains(field: string, value: string)
      modifies this
      ensures View() == Called(old(View()), Pattern(field, true, value, true))
      ensures field != "" && value != "" ==>
        |whereArgs| == |old(whereArgs)| + 1 && Patterns.FindsSubstring(whereArgs[|old(whereArgs)|], value)
    {
      hide Normalized, RemoveQuotes, Patterns.FindsSubstring;
      if field == "" || value == "" { return; }
      Append(field, " LIKE ? ", ["%" + value + "%"]);
      Patterns.PatternsFind(value);
    }

    method BeginsWith(field: string, value: string)
      modifies this
      ensures View() == Called(old(View()), Pattern(field, false, value, true))
      ensures field != "" && value != "" ==>
        |whereArgs| == |old(whereArgs)| + 1 && Patterns.FindsPrefix(whereArgs[|old(whereArgs)|], value)
    {
      hide Normalized, RemoveQuotes, Patterns.FindsPrefix;
      if field == "" || value == "" { return; }
      Append(field, " LIKE ? ", [value + "%"]);
      Patterns.PatternsFind(value);
      assert "" + value + "%" == value + "%";
    }

    method EndsWith(field: string, value: string)
      modifies this
      ensures View() == Called(old(View()), Pattern(field, true, value, false))
      ensures field != "" && value != "" ==>
        |whereArgs| == |old(whereArgs)| + 1 && Patterns.FindsSuffix(whereArgs[|old(whereArgs)|], value)
    {
      hide Normalized, RemoveQuotes, Patterns.FindsSuffix;
      if field == "" || value == "" { return; }
      Append(field, " LIKE ? ", ["%" + value]);
      Patterns.PatternsFind(value);
      assert "%" + value + "" == "%" + value;
    }

    method IsNull(field: string)
      modifies this
      ensures View() == Called(old(View()), NullCheck(field, false))
    {
      hide Normalized, RemoveQuotes;
      if field == "" { return; }
      Append(field, " is null ", []);
    }

    method IsNotNull(field: string)
      modifies this
      ensures View() == Called(old(View()), NullCheck(field, true))
    {
      hide Normalized, RemoveQuotes;
      if field == "" { return; }
      Append(field, " is not null ", []);
    }

    method Like(field: string, value: string)
      modifies this
      ensures View() == Called(old(View()), CompareTo(field, Op.Like, value))
    {
      hide Normalized, RemoveQuotes;
      if field == "" || value == "" { return; }
      Append(field, " LIKE ? ", [value]);
    }

    method Glob(field: string, value: string)
      modifies this
      ensures View() == Called(old(View()), CompareTo(field, Op.Glob, value))
    {
      hide Normalized, RemoveQuotes;
      if field == "" || value == "" { return; }
      Append(field, " GLOB ? ", [value]);
    }

    method Between(field: string, low: string, high: string)
      modifies this
      ensures View() == Called(old(View()), InRange(field, false, low, high))
    {
      hide Normalized, RemoveQuotes;
      if field == "" || low == "" || high == "" { return; }
      Append(field, " BETWEEN ? AND ? ", [low, high]);
    }

    method NotBetween(field: string, low: string, high: string)
      modifies this
      ensures View() == Called(old(View()), InRange(field, true, low, high))
    {
      hide Normalized, RemoveQuotes;
      if field == "" || low == "" || high == "" { return; }
      Append(field, " NOT BETWEEN ? AND ? ", [low, high]);
    }

    method GreaterThan(field: string, value: string)
      modifies this
      ensures View() == Called(old(View()), CompareTo(field, Gt, value))
    {
      hide Normalized, RemoveQuotes;
      if field == "" || value == "" { return; }
      Append(field, " > ? ", [value]);
    }

    method LessThan(field: string, value: string)
      modifies this
      ensures View() == Called(old(View()), CompareTo(field, Lt, value))
    {
      hide Normalized, RemoveQuotes;
      if field == "" || value == "" { return; }
      Append(field, " < ? ", [value]);
    }

    method GreaterThanOrEqualTo(field: string, value: string)
      modifies this
      ensures View() == Called(old(View()), CompareTo(field, Ge, value))
    {
      hide Normalized, RemoveQuotes;
      if field == "" || value == "" { return; }
      Append(field, " >= ? ", [value]);
    }

    method LessThanOrEqualTo(field: string, value: string)
      modifies this
      ensures View() == Called(old(View()), CompareTo(field, Le, value))
    {
      hide Normalized, RemoveQuotes;
      if field == "" || value == "" { return; }
      Append(field, " <= ? ", [value]);
    }

    /** The loop of In and NotIn: one placeholder and one argument for each value. */
    method PushValues(values: seq<string>) returns (replaceValues: seq<string>)
      modifies this`whereArgs
      ensures whereArgs == old(whereArgs) + values
      ensures |replaceValues| == |values| && forall j | 0 <= j < |values| :: replaceValues[j] == "?"
    {
      replaceValues := [];
      for i := 0 to |values|
        invariant |replaceValues| == i && forall j | 0 <= j < i :: replaceValues[j] == "?"
        invariant whereArgs == old(whereArgs) + values[..i]
      {
        replaceValues := replaceValues + ["?"];
        whereArgs := whereArgs + [values[i]];
      }
      assert values[..|values|] == values;
    }

    /** In and NotIn. */
    method InOrNotIn(field: string, negated: bool, values: seq<string>)
      modifies this
      ensures View() == Called(old(View()), InList(field, negated, values))
    {
      hide Normalized, RemoveQuotes, Parameters, TestText;
      if field == "" || values == [] { return; }
      CheckIsNeedAnd();
      var replaceValues := PushValues(values);
      var name := if negated then " NOT IN " else " IN ";
      var list := SurroundWithFunction(name, ",", replaceValues);
      MembersAsText(negated, values, replaceValues);
      var normalizedField := Normalize(RemoveQuotes(field));
      whereClause := whereClause + normalizedField + list;
    }

    method BeginWrap()
      modifies this
      ensures View() == Called(old(View()), Call.BeginWrap)
    {
      if isNeedAnd { whereClause, isNeedAnd := whereClause + "AND ", false; }
      whereClause := whereClause + " ( ";
    }

    method EndWrap()
      modifies this
      ensures View() == Called(old(View()), Call.EndWrap)
    {
      if !isNeedAnd { return; }
      whereClause := whereClause + " ) ";
    }

    method Or()
      modifies this
      ensures View() == Called(old(View()), OrCall)
    {
      if !isNeedAnd { return; }
      whereClause, isNeedAnd := whereClause + " OR ", false;
    }

    /** And only checks: the next operand joins by AND in any case. */
    method And()
      modifies this
      ensures View() == Called(old(View()), AndCall)
    {
      if !isNeedAnd { return; }
    }

    /** `ending` is " ASC " for OrderByAsc and " DESC " for OrderByDesc. */
    method OrderBy(field: string, ending: string)
      modifies this
      ensures View() == OrderedBy(old(View()), field, ending)
    {
      hide Normalized, RemoveQuotes;
      if field == "" { return; }
      if isSorted { order := order + ","; }
      assert order == old(order) + if isSorted then "," else "";
      var normalizedField := Normalize(RemoveQuotes(field));
      order := order + normalizedField + ending;
      isSorted := true;
    }

    method Distinct()
      modifies this
      ensures View() == old(View()).(distinct := true)
    {
      distinct := true;
    }

    method Limit(value: int)
      modifies this
      ensures View() == Limited(old(View()), value)
    {
      if limit != -1 || value < 1 { return; }
      limit := value;
    }

    method Offset(rowOffset: int)
      modifies this
      ensures View() == Displaced(old(View()), rowOffset)
    {
      if offset != -1 || rowOffset < 1 { return; }
      offset := rowOffset;
    }

    method GroupBy(fields: seq<string>)
      modifies this
      ensures View() == old(View()).(group := Grouped(old(group), fields))
    {
      hide Normalized, RemoveQuotes, Grouped, Listed, Spellings;
      if fields == [] { EmptyGroup(group); return; }
      EmptyListed(fields);
      for i := 0 to |fields|
        invariant View() == old(View()).(group := group) && forall j | 0 <= j < i :: fields[j] != ""
        invariant group == old(group) + Listed(Spellings(fields[..i]))
      {
        if fields[i] == "" {
          GroupedSoFar(old(group), fields, i);
          return;
        }
        var normalizedField := Normalize(RemoveQuotes(fields[i]));
        SpellingsAppend(fields, i);
        group := group + normalizedField + ",";
      }
      GroupedSoFar(old(group), fields, |fields|);
      assert group[|group| - 1] == ',';
      var pos := Last(group, ',');
      group := group[..pos] + group[pos + 1..];
    }

    method IndexedBy(indexName: string)
      modifies this
      ensures View() == Indexed(old(View()), indexName)
    {
      if indexName == "" { return; }
      index := RemoveQuotes(indexName);
    }

    method SetWhereClause(text: string)
      modifies this`whereClause
      ensures whereClause == if text == "" then old(whereClause) else text
    {
      if text == "" { return; }
      whereClause := text;
    }
  }

  lemma EmptyGroup(group: string)
    ensures Grouped(group, []) == group
  {
  }

  lemma EmptyListed(fields: seq<string>)
    ensures Listed(Spellings(fields[..0])) == ""
  {
  }

  lemma {:induction false} ListedEnds(names: seq<string>)
    requires names != []
    ensures Listed(names) != "" && Listed(names)[|Listed(names)| - 1] == ','
  {
    if |names| > 1 { ListedEnds(names[1..]); }
  }
}
