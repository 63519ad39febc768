/** Predicates written to a parcel and rebuilt from it. */
module PredicateParcel {
  import opened Options
  import opened ClauseText
  import opened FieldNames
  import opened Predicates
  import opened PredicateBuilder

  // ---------------------------------------------------------------- the parcel

  datatype Item = ABool(flag: bool) | AnInt(number: int) | AString(text: string) | Strings(texts: seq<string>)

  function BoolAt(items: seq<Item>, pos: nat): bool { pos < |items| && items[pos].ABool? && items[pos].flag }

  function IntAt(items: seq<Item>, pos: nat): int { if pos < |items| && items[pos].AnInt? then items[pos].number else 0 }

  function StringAt(items: seq<Item>, pos: nat): string { if pos < |items| && items[pos].AString? then items[pos].text else "" }

  function StringsAt(items: seq<Item>, pos: nat): seq<string> {
    if pos < |items| && items[pos].Strings? then items[pos].texts else []
  }

  /** A sequence of typed values, with a read position. */
  class Parcel {
    var items: seq<Item>
    var pos: nat

    constructor ()
      ensures items == [] && pos == 0
    {
      items, pos := [], 0;
    }

    method Write(item: Item)
      modifies this
      ensures items == old(items) + [item] && pos == old(pos)
    {
      items := items + [item];
    }

    method ReadBool() returns (flag: bool)
      modifies this`pos
      ensures flag == BoolAt(items, old(pos)) && pos == old(pos) + 1
    {
      flag, pos := BoolAt(items, pos), pos + 1;
    }

    method ReadInt32() returns (number: int)
      modifies this`pos
      ensures number == IntAt(items, old(pos)) && pos == old(pos) + 1
    {
      number, pos := IntAt(items, pos), pos + 1;
    }

    method ReadString() returns (text: string)
      modifies this`pos
      ensures text == StringAt(items, old(pos)) && pos == old(pos) + 1
    {
      text, pos := StringAt(items, pos), pos + 1;
    }

    method ReadStringVector() returns (texts: seq<string>)
      modifies this`pos
      ensures texts == StringsAt(items, old(pos)) && pos == old(pos) + 1
    {
      texts, pos := StringsAt(items, pos), pos + 1;
    }
  }

  // ---------------------------------------------------------------- the format

  /** What travels. */
  datatype Load = Load(
    raw: bool, text: string, args: seq<string>, distinct: bool, index: string, group: string, order: string,
    limit: int, offset: int)

  function LoadOf(raw: bool, q: Query): Load {
    Load(raw, q.clause.text, q.clause.args, q.distinct, q.index, q.group, q.order, q.limit, q.offset)
  }

  function StringItems(s: string): seq<Item> { if s != "" then [AnInt(1), AString(s)] else [AnInt(0)] }

  function ListItems(ss: seq<string>): seq<Item> { if ss != [] then [AnInt(1), Strings(ss)] else [AnInt(0)] }

  function NumberItems(n: int): seq<Item> { if n != -1 then [AnInt(1), AnInt(n)] else [AnInt(0)] }

  function Items(l: Load): seq<Item> {
    [ABool(l.raw)] + StringItems(l.text) + ListItems(l.args) + [ABool(l.distinct)] + StringItems(l.index)
    + StringItems(l.group) + StringItems(l.order) + NumberItems(l.limit) + NumberItems(l.offset)
  }

  function StringFrom(items: seq<Item>, pos: nat): (string, nat) {
    if IntAt(items, pos) != 0 then (StringAt(items, pos + 1), pos + 2) else ("", pos + 1)
  }

  function ListFrom(items: seq<Item>, pos: nat): (seq<string>, nat) {
    if IntAt(items, pos) != 0 then (StringsAt(items, pos + 1), pos + 2) else ([], pos + 1)
  }

  function NumberFrom(items: seq<Item>, pos: nat): (int, nat) {
    if IntAt(items, pos) != 0 then (IntAt(items, pos + 1), pos + 2) else (-1, pos + 1)
  }

  /** What the reading side takes from the parcel, and where it stops. */
  function LoadFrom(items: seq<Item>, pos: nat): (Load, nat) {
    var raw := BoolAt(items, pos);
    var (text, p1) := StringFrom(items, pos + 1);
    var (args, p2) := ListFrom(items, p1);
    var distinct := BoolAt(items, p2);
    var (index, p3) := StringFrom(items, p2 + 1);
    var (group, p4) := StringFrom(items, p3);
    var (order, p5) := StringFrom(items, p4);
    var (limit, p6) := NumberFrom(items, p5);
    var (offset, p7) := NumberFrom(items, p6);
    (Load(raw, text, args, distinct, index, group, order, limit, offset), p7)
  }

  /** `part` lies in `items` at `pos`. */
  predicate Lies(items: seq<Item>, pos: nat, part: seq<Item>) { pos + |part| <= |items| && items[pos..pos + |part|] == part }

  lemma LiesSplit(items: seq<Item>, pos: nat, a: seq<Item>, b: seq<Item>)
    requires Lies(items, pos, a + b)
    ensures Lies(items, pos, a) && Lies(items, pos + |a|, b)
  {
    assert items[pos..pos + |a|] == items[pos..pos + |a + b|][..|a|];
    assert items[pos + |a|..pos + |a + b|] == items[pos..pos + |a + b|][|a|..];
  }

  lemma StringReads(items: seq<Item>, pos: nat, s: string)
    requires Lies(items, pos, StringItems(s))
    ensures StringFrom(items, pos) == (s, pos + |StringItems(s)|)
  {
    var part := items[pos..pos + |StringItems(s)|];
    assert items[pos] == part[0] && (s != "" ==> items[pos + 1] == part[1]);
  }

  lemma ListReads(items: seq<Item>, pos: nat, ss: seq<string>)
    requires Lies(items, pos, ListItems(ss))
    ensures ListFrom(items, pos) == (ss, pos + |ListItems(ss)|)
  {
    var part := items[pos..pos + |ListItems(ss)|];
    assert items[pos] == part[0] && (ss != [] ==> items[pos + 1] == part[1]);
  }

  lemma NumberReads(items: seq<Item>, pos: nat, n: int)
    requires Lies(items, pos, NumberItems(n))
    ensures NumberFrom(items, pos) == (n, pos + |NumberItems(n)|)
  {
    var part := items[pos..pos + |NumberItems(n)|];
    assert items[pos] == part[0] && (n != -1 ==> items[pos + 1] == part[1]);
  }

  lemma BoolReads(items: seq<Item>, pos: nat, flag: bool)
    requires Lies(items, pos, [ABool(flag)])
    ensures BoolAt(items, pos) == flag
  {
    assert items[pos] == items[pos..pos + 1][0];
  }

  /** Whatever surrounds it in the parcel, what was written is what is read, and reading stops at its end. */
  lemma LoadRoundTrip(items: seq<Item>, pos: nat, l: Load)
    requires Lies(items, pos, Items(l))
    ensures LoadFrom(items, pos) == (l, pos + |Items(l)|)
  {
    hide Lies, StringItems, ListItems, NumberItems, StringFrom, ListFrom, NumberFrom, BoolAt;
    var a := [ABool(l.raw)];
    var b := a + StringItems(l.text);
    var c := b + ListItems(l.args);
    var d := c + [ABool(l.distinct)];
    var e := d + StringItems(l.index);
    var f := e + StringItems(l.group);
    var g := f + StringItems(l.order);
    var h := g + NumberItems(l.limit);
    LiesSplit(items, pos, h, NumberItems(l.offset));
    LiesSplit(items, pos, g, NumberItems(l.limit));
    LiesSplit(items, pos, f, StringItems(l.order));
    LiesSplit(items, pos, e, StringItems(l.group));
    LiesSplit(items, pos, d, StringItems(l.index));
    LiesSplit(items, pos, c, [ABool(l.distinct)]);
    LiesSplit(items, pos, b, ListItems(l.args));
    LiesSplit(items, pos, a, StringItems(l.text));
    BoolReads(items, pos, l.raw);
    StringReads(items, pos + |a|, l.text);
    ListReads(items, pos + |b|, l.args);
    BoolReads(items, pos + |c|, l.distinct);
    StringReads(items, pos + |d|, l.index);
    StringReads(items, pos + |e|, l.group);
    StringReads(items, pos + |f|, l.order);
    NumberReads(items, pos + |g|, l.limit);
    NumberReads(items, pos + |h|, l.offset);
  }

  // ---------------------------------------------------------------- rebuilding

  function Regrouped(group: string): string { Grouped("", Split(Without(group, '`'), ',')) }

  /** The predicates rebuilt from what was read. */
  function Rebuilt(l: Load): Query {
    var group := if l.group == "" then "" else Regrouped(l.group);
    var limit := if l.limit < 1 then -1 else l.limit;
    var offset := if l.offset < 1 then -1 else l.offset;
    Query(Clause(l.text, l.args, false), l.distinct, RemoveQuotes(l.index), group, l.order, false, limit, offset)
  }

  /** SetAttributes' first loop: drop the first backtick until there is none. */
  method StripBackticks(text: string) returns (group: string)
    ensures group == Without(text, '`')
  {
    group := text;
    while '`' in group
      invariant Without(group, '`') == Without(text, '`')
      decreases |group|
    {
      var p := First(group, '`');
      WithoutOne(group, '`', p);
      group := group[..p] + group[p + 1..];
    }
    WithoutNothing(group, '`');
  }

  lemma WithoutOne(s: string, c: char, p: nat)
    requires p < |s| && s[p] == c
    ensures Without(s[..p] + s[p + 1..], c) == Without(s, c)
  {
    WithoutAppend(s[..p], s[p + 1..], c);
    WithoutAppend(s[..p], s[p..], c);
    assert s == s[..p] + s[p..];
    assert Without(s[p..], c) == Without(s[p + 1..], c) by { assert s[p..][1..] == s[p + 1..]; }
    hide Without;
  }

  /** SetAttributes' second loop: getline up to each comma. */
  method SplitAtCommas(text: string) returns (pieces: seq<string>)
    ensures pieces == Split(text, ',')
  {
    hide Split;
    pieces := [];
    var rest := text;
    while rest != ""
      invariant pieces + Split(rest, ',') == Split(text, ',')
      decreases |rest|
    {
      SplitStep(rest, ',');
      SplitStep("", ',');
      if ',' in rest {
        var p := First(rest, ',');
        pieces, rest := pieces + [rest[..p]], rest[p + 1..];
      } else {
        pieces, rest := pieces + [rest], "";
      }
    }
    SplitStep("", ',');
  }

  class DataAbilityPredicates {
    const predicates: AbsPredicates
    var isRawSelection: bool

    constructor ()
      ensures fresh(predicates) && predicates.View() == BLANK && !isRawSelection
    {
      predicates := new AbsPredicates();
      isRawSelection := false;
    }

    constructor Raw(rawSelection: string)
      ensures fresh(predicates) && isRawSelection
      ensures predicates.View() == BLANK.(clause := BLANK.clause.(text := rawSelection))
    {
      predicates := new AbsPredicates();
      isRawSelection := true;
      new;
      predicates.SetWhereClause(rawSelection);
    }

    /** The parcel constructor. */
    constructor FromParcel(source: Parcel)
      modifies source`pos
      ensures fresh(predicates) && source.pos == LoadFrom(source.items, old(source.pos)).1
      ensures isRawSelection == LoadFrom(source.items, old(source.pos)).0.raw
      ensures predicates.View() == Rebuilt(LoadFrom(source.items, old(source.pos)).0)
    {
      hide LoadFrom, Rebuilt, WithAttributes;
      predicates := new AbsPredicates();
      new;
      var l := ReadLoad(source);
      isRawSelection := l.raw;
      predicates.SetWhereClause(l.text);
      predicates.whereArgs := l.args;
      RebuiltIs(l);
      SetAttributes(predicates, l.distinct, l.index, l.group, l.order, l.limit, l.offset);
    }

    method Marshalling(parcel: Parcel)
      modifies parcel
      ensures parcel.items == old(parcel.items) + Items(LoadOf(isRawSelection, predicates.View())) && parcel.pos == old(parcel.pos)
    {
      hide StringItems, ListItems, NumberItems;
      parcel.Write(ABool(isRawSelection));
      MarshallingString(predicates.whereClause, parcel);
      MarshallingStringList(predicates.whereArgs, parcel);
      parcel.Write(ABool(predicates.distinct));
      MarshallingString(predicates.index, parcel);
      MarshallingString(predicates.group, parcel);
      MarshallingString(predicates.order, parcel);
      MarshallingInt(predicates.limit, parcel);
      MarshallingInt(predicates.offset, parcel);
    }
  }

  lemma RebuiltIs(l: Load)
    ensures Rebuilt(l) == WithAttributes(BLANK.(clause := Clause(l.text, l.args, false)),
                                         l.distinct, l.index, l.group, l.order, l.limit, l.offset)
  {
    hide Grouped, Split, Without;
    RemoveQuotesNothing("");
  }

  method ReadLoad(source: Parcel) returns (l: Load)
    modifies source`pos
    ensures (l, source.pos) == LoadFrom(source.items, old(source.pos))
  {
    hide StringFrom, NumberFrom;
    var raw := source.ReadBool();
    var text := ReadOptionalString(source);
    var flag := source.ReadInt32();
    var args := [];
    if flag != 0 { args := source.ReadStringVector(); }
    var isDistinct := source.ReadBool();
    var index := ReadOptionalString(source);
    var group := ReadOptionalString(source);
    var order := ReadOptionalString(source);
    var limit := ReadOptionalInt(source);
    var offset := ReadOptionalInt(source);
    l := Load(raw, text, args, isDistinct, index, group, order, limit, offset);
  }

  method MarshallingString(value: string, parcel: Parcel)
    modifies parcel
    ensures parcel.items == old(parcel.items) + StringItems(value) && parcel.pos == old(parcel.pos)
  {
    if |value| != 0 {
      parcel.Write(AnInt(1));
      parcel.Write(AString(value));
    } else {
      parcel.Write(AnInt(0));
    }
  }

  method MarshallingStringList(list: seq<string>, parcel: Parcel)
    modifies parcel
    ensures parcel.items == old(parcel.items) + ListItems(list) && parcel.pos == old(parcel.pos)
  {
    if |list| != 0 {
      parcel.Write(AnInt(1));
      parcel.Write(Strings(list));
    } else {
      parcel.Write(AnInt(0));
    }
  }

  method MarshallingInt(value: int, parcel: Parcel)
    modifies parcel
    ensures parcel.items == old(parcel.items) + NumberItems(value) && parcel.pos == old(parcel.pos)
  {
    if value != -1 {
      parcel.Write(AnInt(1));
      parcel.Write(AnInt(value));
    } else {
      parcel.Write(AnInt(0));
    }
  }

  method ReadOptionalString(source: Parcel) returns (text: string)
    modifies source`pos
    ensures (text, source.pos) == StringFrom(source.items, old(source.pos))
  {
    var flag := source.ReadInt32();
    text := "";
    if flag != 0 { text := source.ReadString(); }
  }

  method ReadOptionalInt(source: Parcel) returns (number: int)
    modifies source`pos
    ensures (number, source.pos) == NumberFrom(source.items, old(source.pos))
  {
    var flag := source.ReadInt32();
    number := -1;
    if flag != 0 { number := source.ReadInt32(); }
  }

  function WithAttributes(q: Query, distinct: bool, index: string, group: string, order: string, limit: int, offset: int): Query {
    var q1 := if distinct then q.(distinct := true) else q;
    var q2 := if index != "" then Indexed(q1, index) else q1;
    var q3 := if group != "" then q2.(group := Grouped(q2.group, Split(Without(group, '`'), ','))) else q2;
    var q4 := if order != "" then q3.(order := order) else q3;
    var q5 := if limit != -1 then Limited(q4, limit) else q4;
    if offset != -1 then Displaced(q5, offset) else q5
  }

  method SetAttributes(predicates: AbsPredicates, isDistinct: bool, index: string, group: string, order: string,
                       limit: int, offset: int)
    modifies predicates
    ensures predicates.View() ==
      WithAttributes(old(predicates.View()), isDistinct, index, group, order, limit, offset)
  {
    hide RemoveQuotes, Grouped, Split, Without;
    if isDistinct { predicates.Distinct(); }
    if index != "" { predicates.IndexedBy(index); }
    if group != "" {
      var stripped := StripBackticks(group);
      var groupArray := SplitAtCommas(stripped);
      predicates.GroupBy(groupArray);
    }
    if order != "" { predicates.order := order; }
    if limit != -1 { predicates.Limit(limit); }
    if offset != -1 { predicates.Offset(offset); }
  }

  // ---------------------------------------------------------------- what survives the trip

  /** A group name that comes back: it is not empty, has no comma, and is not a name followed by two dots. */
  predicate Restorable(name: string) {
    && name != "" && ',' !in name
    && var parts := Split(name, '.'); |parts| == 2 ==> parts[0] == "" || parts[1] != ""
  }

  predicate Groupable(fields: seq<string>) {
    forall i | 0 <= i < |fields| :: fields[i] != "" && Restorable(RemoveQuotes(fields[i]))
  }

  function Bare(name: string): string { Without(Normalized(name), '`') }

  lemma BareQuoted(s: string)
    requires '`' !in s
    ensures Without(Quoted(s), '`') == s
  {
    if s != "" {
      WithoutAppend("`" + s, "`", '`');
      WithoutAppend("`", s, '`');
      WithoutNothing(s, '`');
      assert Without("`", '`') == "";
    }
  }

  /** Two dotted pieces, quoted or bare, lose and regain their backticks. */
  lemma BarePair(a: string, b: string)
    requires '`' !in a && '`' !in b && '.' !in a && '.' !in b
    ensures Without(Quoted(a) + "." + Quoted(b), '`') == a + "." + b
    ensures b != "" ==> Normalized(a + "." + b) == Quoted(a) + "." + Quoted(b)
    ensures b == "" ==> Normalized(a + "." + b) == a + "."
  {
    hide Quoted;
    BareQuoted(a);
    BareQuoted(b);
    WithoutAppend(Quoted(a) + ".", Quoted(b), '`');
    WithoutAppend(Quoted(a), ".", '`');
    WithoutNothing(".", '`');
    PairSplits(a, b);
    hide Split, Without;
    assert '.' in a + "." + b;
    if b == "" { assert a + "." + b == a + "."; }
  }

  lemma PairSplits(a: string, b: string)
    requires '.' !in a && '.' !in b
    ensures Split(a + "." + b, '.') == [a] + (if b == "" then [] else [b])
  {
    FirstOf(a, '.', b);
    var s := a + "." + b;
    assert s[..|a|] == a && s[|a| + 1..] == b;
  }

  /** Spelling, stripping and spelling again gives the same text, exactly for names not ending in two dots
      after one name. */
  lemma RespelledIff(name: string)
    requires '`' !in name
    ensures var parts := Split(name, '.');
      Normalized(Bare(name)) == Normalized(name) <==> ('.' in name && |parts| == 2 ==> parts[0] == "" || parts[1] != "")
  {
    var parts := Split(name, '.');
    if '.' !in name {
      BareQuoted(name);
    } else if |parts| != 2 {
      WithoutNothing(name, '`');
    } else {
      SplitPiece(name, '.', 0);
      SplitPiece(name, '.', 1);
      BarePair(parts[0], parts[1]);
      if parts[1] == "" { QuotedPairs(parts[0]); }
    }
  }

  lemma QuotedPairs(a: string)
    ensures Quoted(a) + "." + Quoted("") == a + "." <==> a == ""
  {
    assert |Quoted(a) + "." + Quoted("")| == |Quoted(a)| + 1;
  }

  /** What the stripped spelling of a restorable name is made of. */
  lemma BareIsClean(name: string)
    requires '`' !in name && '\'' !in name && '\"' !in name && Restorable(name)
    ensures Bare(name) != "" && ',' !in Bare(name) && RemoveQuotes(Bare(name)) == Bare(name)
    ensures Normalized(RemoveQuotes(Bare(name))) == Normalized(name)
  {
    RespelledIff(name);
    var parts := Split(name, '.');
    if '.' !in name {
      BareQuoted(name);
    } else if |parts| != 2 {
      WithoutNothing(name, '`');
    } else {
      SplitPiece(name, '.', 0);
      SplitPiece(name, '.', 1);
      BarePair(parts[0], parts[1]);
    }
    hide Normalized, Split, Without, RemoveQuotes;
    RemoveQuotesNothing(Bare(name));
  }

  /** Names separated by commas. */
  function Joined(names: seq<string>): string {
    if names == [] then "" else if |names| == 1 then names[0] else names[0] + "," + Joined(names[1..])
  }

  lemma {:induction false} ListedIsJoined(names: seq<string>)
    requires names != []
    ensures Listed(names) == Joined(names) + ","
  {
    if |names| > 1 { ListedIsJoined(names[1..]); }
  }

  lemma {:induction false} SplitJoined(names: seq<string>)
    requires names != [] && (forall i | 0 <= i < |names| :: ',' !in names[i]) && names[|names| - 1] != ""
    ensures Split(Joined(names), ',') == names
  {
    if |names| > 1 {
      var rest := Joined(names[1..]);
      SplitJoined(names[1..]);
      FirstOf(names[0], ',', rest);
      var s := names[0] + "," + rest;
      assert s[..|names[0]|] == names[0] && s[|names[0]| + 1..] == rest;
      assert [names[0]] + names[1..] == names;
    }
  }

  function Bares(names: seq<string>): (r: seq<string>)
    ensures |r| == |names| && forall i | 0 <= i < |names| :: r[i] == Without(names[i], '`')
  {
    seq(|names|, i requires 0 <= i < |names| => Without(names[i], '`'))
  }

  lemma {:induction false} StrippedJoined(names: seq<string>)
    ensures Without(Joined(names), '`') == Joined(Bares(names))
  {
    if |names| > 1 {
      StrippedJoined(names[1..]);
      WithoutAppend(names[0] + ",", Joined(names[1..]), '`');
      WithoutAppend(names[0], ",", '`');
      WithoutNothing(",", '`');
      assert Bares(names)[1..] == Bares(names[1..]);
    }
  }

  lemma GroupedIsJoined(fields: seq<string>)
    requires fields != [] && forall i | 0 <= i < |fields| :: fields[i] != ""
    ensures Grouped("", fields) == Joined(Spellings(fields))
  {
    hide Normalized, RemoveQuotes, Grouped, Spellings, Listed;
    GroupedSoFar("", fields, |fields|);
    assert fields[..|fields|] == fields;
    ListedIsJoined(Spellings(fields));
    var g, j := Grouped("", fields), Joined(Spellings(fields));
    assert g + "," == j + ",";
    assert g == (g + ",")[..|g + ","| - 1] && j == (j + ",")[..|j + ","| - 1];
  }

  /** One GroupBy over restorable names comes back as it was. */
  lemma GroupRestored(fields: seq<string>)
    requires fields != [] && Groupable(fields)
    ensures Regrouped(Grouped("", fields)) == Grouped("", fields) != ""
  {
    hide Normalized, RemoveQuotes, Grouped, Without, Split, Restorable, Joined, Groupable;
    var names := Spellings(fields);
    var bares := Bares(names);
    BaresAreClean(fields);
    FieldsAreGiven(fields);
    GroupedIsJoined(fields);
    StrippedJoined(names);
    SplitJoined(bares);
    GroupedIsJoined(bares);
    assert Spellings(bares) == names;
    JoinedNotEmpty(bares);
    if Joined(names) == "" { WithoutNothing("", '`'); }
  }

  lemma FieldsAreGiven(fields: seq<string>)
    requires Groupable(fields)
    ensures forall i | 0 <= i < |fields| :: fields[i] != ""
  {
  }

  lemma BaresAreClean(fields: seq<string>)
    requires Groupable(fields)
    ensures var bares := Bares(Spellings(fields));
      forall i | 0 <= i < |fields| ::
        bares[i] != "" && ',' !in bares[i] && Normalized(RemoveQuotes(bares[i])) == Spellings(fields)[i]
  {
    hide Normalized, RemoveQuotes, Without, Split, Restorable;
    var bares := Bares(Spellings(fields));
    forall i | 0 <= i < |fields|
      ensures bares[i] != "" && ',' !in bares[i] && Normalized(RemoveQuotes(bares[i])) == Spellings(fields)[i]
    {
      RemoveQuotesLacks(fields[i]);
      BareIsClean(RemoveQuotes(fields[i]));
    }
  }

  lemma JoinedNotEmpty(names: seq<string>)
    requires names != [] && names[0] != ""
    ensures Joined(names) != ""
  {
  }

  // ---------------------------------------------------------------- every predicates object built by calls

  datatype Setting =
    | Where(call: Call) | Order(field: string, ending: string) | MakeDistinct | SetLimit(value: int)
    | SetOffset(value: int) | GroupOn(fields: seq<string>) | IndexOn(name: string)

  function Set(q: Query, s: Setting): Query {
    match s
    case Where(call) => Called(q, call)
    case Order(field, ending) => OrderedBy(q, field, ending)
    case MakeDistinct => q.(distinct := true)
    case SetLimit(value) => Limited(q, value)
    case SetOffset(value) => Displaced(q, value)
    case GroupOn(fields) => q.(group := Grouped(q.group, fields))
    case IndexOn(name) => Indexed(q, name)
  }

  /** The object after some calls, on a raw selection or, for an empty one, from scratch. */
  function Made(selection: string, settings: seq<Setting>): Query {
    if settings == [] then BLANK.(clause := BLANK.clause.(text := selection))
    else Set(Made(selection, settings[..|settings| - 1]), settings[|settings| - 1])
  }

  /** How many of the calls are a GroupBy that names fields. */
  function Groupings(settings: seq<Setting>): nat {
    if settings == [] then 0
    else
      var s := settings[|settings| - 1];
      Groupings(settings[..|settings| - 1]) + if s.GroupOn? && s.fields != [] then 1 else 0
  }

  ghost predicate GroupsAreRestorable(settings: seq<Setting>) {
    Groupings(settings) <= 1 && forall s | s in settings && s.GroupOn? :: Groupable(s.fields)
  }

  ghost predicate IsGrouping(group: string, fields: seq<string>) {
    fields != [] && Groupable(fields) && group == Grouped("", fields)
  }

  /** Limits are unset or positive, the index holds no quotes, the group is empty or one restorable GroupBy. */
  ghost predicate Portable(q: Query) {
    && (q.limit == -1 || q.limit >= 1) && (q.offset == -1 || q.offset >= 1)
    && '`' !in q.index && '\'' !in q.index && '\"' !in q.index
    && (q.group == "" || exists fields :: IsGrouping(q.group, fields))
  }

  lemma SetKeepsPortable(q: Query, s: Setting)
    requires Portable(q) && (s.GroupOn? && s.fields != [] ==> Groupable(s.fields) && q.group == "")
    ensures Portable(Set(q, s))
    ensures (s.GroupOn? && s.fields != []) || Set(q, s).group == q.group
  {
    hide Apply, Normalized, Groupable;
    if s.GroupOn? && s.fields != [] {
      assert IsGrouping(Set(q, s).group, s.fields);
    } else if s.IndexOn? {
      RemoveQuotesLacks(s.name);
    } else if s.GroupOn? {
      EmptyGroup(q.group);
    }
  }

  lemma {:induction false} MadeIsPortable(selection: string, settings: seq<Setting>)
    requires GroupsAreRestorable(settings)
    ensures Portable(Made(selection, settings)) && (Groupings(settings) == 0 ==> Made(selection, settings).group == "")
  {
    hide Set, Groupable, Portable;
    if settings == [] {
      BlankIsPortable(selection);
    } else {
      MadeIsPortable(selection, settings[..|settings| - 1]);
      SetKeepsPortable(Made(selection, settings[..|settings| - 1]), settings[|settings| - 1]);
    }
  }

  lemma BlankIsPortable(selection: string)
    ensures Portable(BLANK.(clause := BLANK.clause.(text := selection)))
  {
  }

  /** The rebuilt object has everything but the two flags that say how to continue the clause and the order. */
  lemma RebuiltPreserves(raw: bool, q: Query)
    requires Portable(q)
    ensures Rebuilt(LoadOf(raw, q)) == q.(clause := q.clause.(needAnd := false), sorted := false)
  {
    hide Regrouped, Grouped, Groupable, RemoveQuotes;
    RemoveQuotesNothing(q.index);
    if q.group != "" {
      var fields :| IsGrouping(q.group, fields);
      GroupRestored(fields);
    }
  }

  /** Marshal, then unmarshal: raw flag, where clause, arguments, distinct, index, group, order, limit and offset
      come back, whatever else the parcel holds, for every object built with at most one GroupBy. */
  lemma ParcelRoundTrip(items: seq<Item>, pos: nat, raw: bool, selection: string, settings: seq<Setting>)
    requires GroupsAreRestorable(settings)
    requires Lies(items, pos, Items(LoadOf(raw, Made(selection, settings))))
    ensures var q := Made(selection, settings);
      && LoadFrom(items, pos) == (LoadOf(raw, q), pos + |Items(LoadOf(raw, q))|)
      && Rebuilt(LoadFrom(items, pos).0) == q.(clause := q.clause.(needAnd := false), sorted := false)
  {
    hide Lies, Items, LoadFrom, Rebuilt, Made, Portable;
    MadeIsPortable(selection, settings);
    LoadRoundTrip(items, pos, LoadOf(raw, Made(selection, settings)));
    RebuiltPreserves(raw, Made(selection, settings));
  }

  // ---------------------------------------------------------------- where the trip changes the group

  lemma GroupedOne(group: string, field: string)
    requires field != ""
    ensures Grouped(group, [field]) == group + Normalized(RemoveQuotes(field))
  {
    hide Normalized, RemoveQuotes;
    var name := Normalized(RemoveQuotes(field));
    GroupedSoFar(group, [field], 1);
    assert [field][..1] == [field];
    assert Spellings([field]) == [name];
    ListedIsJoined([name]);
    hide Grouped, Listed, Spellings;
    var g := Grouped(group, [field]);
    assert g + "," == group + name + ",";
    assert g == (g + ",")[..|g + ","| - 1] && group + name == (group + name + ",")[..|group + name + ","| - 1];
  }

  lemma TidyGroup(a: string)
    requires Tidy(a)
    ensures Grouped("", [a]) == "`" + a + "`" && Without("`" + a + "`", '`') == a
    ensures RemoveQuotes(a) == a && Normalized(a) == "`" + a + "`"
  {
    RemoveQuotesNothing(a);
    GroupedOne("", a);
    BareQuoted(a);
  }

  lemma TidyJoin(a: string, middle: string, b: string)
    requires Tidy(a) && Tidy(b) && (middle == "" || middle == ",")
    ensures Tidy(a + middle + b)
  {
  }

  lemma SplitNothing(s: string)
    requires s != "" && ',' !in s
    ensures Split(s, ',') == [s]
  {
  }

  /** Two calls of GroupBy come back as one name: the first one's last comma was dropped. */
  lemma TwoGroupBysMerge(a: string, b: string)
    requires Tidy(a) && Tidy(b) && ',' !in a && ',' !in b
    ensures var group := Grouped(Grouped("", [a]), [b]);
      group == "`" + a + "``" + b + "`" && Regrouped(group) == "`" + a + b + "`" != group
  {
    hide Grouped, Without, RemoveQuotes, Split, Normalized;
    TidyGroup(a);
    TidyGroup(b);
    GroupedOne(Grouped("", [a]), b);
    WithoutAppend("`" + a + "`", "`" + b + "`", '`');
    var group := "`" + a + "``" + b + "`";
    assert "`" + a + "`" + ("`" + b + "`") == group;
    TidyJoin(a, "", b);
    assert a + "" + b == a + b;
    SplitNothing(a + b);
    TidyGroup(a + b);
    assert "`" + (a + b) + "`" == "`" + a + b + "`" && |"`" + a + b + "`"| < |group|;
  }

  /** A name with a comma comes back as two names. */
  lemma CommaSplitsName(a: string, b: string)
    requires Tidy(a) && Tidy(b) && ',' !in a && ',' !in b
    ensures var group := Grouped("", [a + "," + b]);
      group == "`" + a + "," + b + "`" && Regrouped(group) == "`" + a + "`,`" + b + "`" != group
  {
    hide Grouped, Without, RemoveQuotes, Split, Tidy, Normalized, Spellings;
    TidyJoin(a, ",", b);
    TidyGroup(a + "," + b);
    assert "`" + (a + "," + b) + "`" == "`" + a + "," + b + "`";
    PairGrouped(a, b);
    assert |"`" + a + "`,`" + b + "`"| > |"`" + a + "," + b + "`"|;
  }

  lemma PairGrouped(a: string, b: string)
    requires Tidy(a) && Tidy(b) && ',' !in a && ',' !in b
    ensures Grouped("", Split(a + "," + b, ',')) == "`" + a + "`,`" + b + "`"
  {
    hide Grouped, Without, RemoveQuotes, Split, Normalized;
    TidyGroup(a);
    TidyGroup(b);
    SplitJoined([a, b]);
    GroupedIsJoined([a, b]);
    hide Tidy;
    var names := ["`" + a + "`", "`" + b + "`"];
    assert Spellings([a, b]) == names;
    assert [a, b][1..] == [b] && names[1..] == ["`" + b + "`"];
  }
}
