/** How predicates spell field names: quotes are dropped, plain and table.column names are put in backticks. */
module FieldNames {
  import opened Options
  import opened Conditions
  import opened ClauseText

  function Without(s: string, c: char): (r: string)
    ensures c !in r && |r| <= |s|
  {
    if s == "" then "" else (if s[0] == c then "" else [s[0]]) + Without(s[1..], c)
  }

  function RemoveQuotes(s: string): string { Without(Without(Without(s, '\''), '\"'), '`') }

  /** The position of the first `c`. */
  function First(s: string, c: char): (p: nat)
    requires c in s
    ensures p < |s| && s[p] == c && c !in s[..p]
  {
    if s[0] == c then 0 else
      var p := First(s[1..], c);
      assert s[..p + 1] == [s[0]] + s[1..][..p];
      p + 1
  }

  /** The pieces between separators; an empty last piece is not a piece. */
  function Split(s: string, c: char): seq<string>
    decreases |s|
  {
    if s == "" then [] else if c !in s then [s]
    else var p := First(s, c); [s[..p]] + Split(s[p + 1..], c)
  }

  lemma SplitStep(s: string, c: char)
    ensures s == "" ==> Split(s, c) == []
    ensures s != "" && c !in s ==> Split(s, c) == [s]
    ensures c in s ==> Split(s, c) == [s[..First(s, c)]] + Split(s[First(s, c) + 1..], c)
  {
  }

  function Quoted(s: string): string { if s == "" then s else "`" + s + "`" }

  function Normalized(s: string): string {
    if '.' !in s then Quoted(s)
    else
      var parts := Split(s, '.');
      if |parts| != 2 then s else Quoted(parts[0]) + "." + Quoted(parts[1])
  }

  method Normalize(source: string) returns (r: string)
    ensures r == Normalized(source)
  {
    hide Split;
    if '.' !in source { return Quoted(source); }
    var split := SplitAtDots(source);
    if |split| != 2 { return source; }
    r := Quoted(split[0]) + "." + Quoted(split[1]);
  }

  /** The loop of Normalized: a piece up to each dot, then what is left, if anything. */
  method SplitAtDots(source: string) returns (split: seq<string>)
    ensures split == Split(source, '.')
  {
    hide Split;
    var left := 0;
    split := [];
    ghost var rest := source;
    while '.' in source[left..]
      invariant 0 <= left <= |source| && rest == source[left..] && split + Split(rest, '.') == Split(source, '.')
      decreases |source| - left
    {
      SplitStep(rest, '.');
      var length := First(source[left..], '.');
      split := split + [source[left..][..length]];
      left, rest := left + length + 1, rest[length + 1..];
    }
    SplitStep(rest, '.');
    if left < |source| { split := split + [source[left..]]; }
  }

  /** The column that a field names, if it is a plain or a table.column name. */
  function ColumnOf(field: string): Option<Column> {
    var name := RemoveQuotes(field);
    if name == "" then None
    else if '.' !in name then Some(Plain(name))
    else
      var parts := Split(name, '.');
      if |parts| == 2 && parts[0] != "" && parts[1] != "" then Some(Qualified(parts[0], parts[1])) else None
  }

  predicate Tidy(name: string) { name != "" && '`' !in name && '\'' !in name && '\"' !in name && '.' !in name }

  predicate TidyColumn(c: Column) { Tidy(c.name) && (c.Qualified? ==> Tidy(c.table)) }

  function Spelled(c: Column): string {
    match c
    case Plain(name) => "`" + name + "`"
    case Qualified(table, name) => "`" + table + "`.`" + name + "`"
  }

  lemma {:induction false} WithoutKeeps(s: string, c: char, d: char)
    ensures d in Without(s, c) <==> d in s && d != c
  {
    if s != "" { WithoutKeeps(s[1..], c, d); }
  }

  lemma {:induction false} WithoutNothing(s: string, c: char)
    requires c !in s
    ensures Without(s, c) == s
  {
    if s != "" { WithoutNothing(s[1..], c); }
  }

  lemma WithoutFirst(s: string, c: char)
    requires s != ""
    ensures Without(s, c) == (if s[0] == c then "" else [s[0]]) + Without(s[1..], c)
  {
  }

  lemma {:induction false} WithoutAppend(a: string, b: string, c: char)
    ensures Without(a + b, c) == Without(a, c) + Without(b, c)
    decreases |a|
  {
    if a == "" {
      assert a + b == b;
    } else {
      WithoutAppend(a[1..], b, c);
      WithoutFirst(a, c);
      WithoutFirst(a + b, c);
      assert (a + b)[0] == a[0] && (a + b)[1..] == a[1..] + b;
      hide Without;
    }
  }

  lemma RemoveQuotesNothing(s: string)
    requires '`' !in s && '\'' !in s && '\"' !in s
    ensures RemoveQuotes(s) == s
  {
    WithoutNothing(s, '\'');
    WithoutNothing(s, '\"');
    WithoutNothing(s, '`');
  }

  lemma RemoveQuotesLacks(s: string)
    ensures '`' !in RemoveQuotes(s) && '\'' !in RemoveQuotes(s) && '\"' !in RemoveQuotes(s)
  {
    var a := Without(s, '\'');
    var b := Without(a, '\"');
    WithoutKeeps(a, '\"', '\'');
    WithoutKeeps(b, '`', '\'');
    WithoutKeeps(b, '`', '\"');
  }

  /** No piece holds the separator, or a character that the whole lacks. */
  lemma {:induction false} PieceLacks(s: string, c: char, i: nat, d: char)
    requires i < |Split(s, c)| && (d == c || d !in s)
    ensures d !in Split(s, c)[i]
    decreases |s|
  {
    hide Split;
    SplitStep(s, c);
    if c in s {
      var p := First(s, c);
      if i == 0 { assert Split(s, c)[0] == s[..p]; } else { PieceLacks(s[p + 1..], c, i - 1, d); }
    }
  }

  /** The pieces of a name without quotes, split at its dots. */
  lemma SplitPiece(s: string, c: char, i: nat)
    requires i < |Split(s, c)|
    ensures c !in Split(s, c)[i]
    ensures forall d | d in {'`', '\'', '\"', ','} && d !in s :: d !in Split(s, c)[i]
  {
    hide Split;
    PieceLacks(s, c, i, c);
    forall d | d in {'`', '\'', '\"', ','} && d !in s ensures d !in Split(s, c)[i] { PieceLacks(s, c, i, d); }
  }

  lemma {:induction false} FirstOf(a: string, c: char, b: string)
    requires c !in a
    ensures First(a + [c] + b, c) == |a|
    decreases |a|
  {
    var s := a + [c] + b;
    if a != "" {
      assert s[0] == a[0] && s[1..] == a[1..] + [c] + b;
      FirstOf(a[1..], c, b);
    }
  }

  /** A field that names a column is spelled as that column, with tidy names. */
  lemma ColumnSpelling(field: string)
    ensures match ColumnOf(field)
      case Some(c) => Normalized(RemoveQuotes(field)) == Spelled(c) && TidyColumn(c)
      case None => true
  {
    RemoveQuotesLacks(field);
    hide RemoveQuotes, Split, Without;
    if ColumnOf(field).Some? && ColumnOf(field).value.Qualified? {
      var parts := Split(RemoveQuotes(field), '.');
      SplitPiece(RemoveQuotes(field), '.', 0);
      SplitPiece(RemoveQuotes(field), '.', 1);
      assert Tidy(parts[0]) && Tidy(parts[1]);
      assert "`" + parts[0] + "`" + "." + ("`" + parts[1] + "`") == "`" + parts[0] + "`.`" + parts[1] + "`";
    }
  }

  /** Every tidy column is what its own dotted name denotes. */
  lemma ColumnNamed(c: Column)
    requires TidyColumn(c)
    ensures ColumnOf(if c.Plain? then c.name else c.table + "." + c.name) == Some(c)
  {
    hide RemoveQuotes, Split;
    var field := if c.Plain? then c.name else c.table + "." + c.name;
    RemoveQuotesNothing(field);
    if c.Qualified? {
      assert field == c.table + ['.'] + c.name && '.' in field;
      FirstOf(c.table, '.', c.name);
      assert field[..|c.table|] == c.table && field[|c.table| + 1..] == c.name;
      SplitStep(field, '.');
      SplitStep(c.name, '.');
    }
  }

  /** The spelling of a column reads as its tokens. */
  lemma ReadsColumn(c: Column)
    requires TidyColumn(c)
    ensures Reads(Spelled(c), ColumnTokens(c))
  {
    hide Reads;
    ReadsName(c.name);
    if c.Qualified? {
      ReadsName(c.table);
      ReadsPoint('.');
      var table, name := "`" + c.table + "`", "`" + c.name + "`";
      ReadsAppend(table, [Name(c.table)], ".", [Dot]);
      Glue(table + ".", [Name(c.table)] + [Dot], name, [Name(c.name)], Spelled(c), ColumnTokens(c));
    }
  }
}
