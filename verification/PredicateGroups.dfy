/** Exactly which groups come back from a parcel. */
module PredicateGroups {
  import opened Options
  import opened FieldNames
  import Predicates
  import opened PredicateBuilder
  import opened PredicateParcel

  // ---------------------------------------------------------------- comma-separated pieces

  /** All pieces between commas, empty ones included. */
  function Pieces(s: string): (r: seq<string>)
    ensures |r| >= 1
    decreases |s|
  {
    if ',' !in s then [s] else var p := First(s, ','); [s[..p]] + Pieces(s[p + 1..])
  }

  predicate CommaFree(names: seq<string>) { forall i | 0 <= i < |names| :: ',' !in names[i] }

  lemma {:induction false} PiecesAreCommaFree(s: string)
    ensures CommaFree(Pieces(s))
    decreases |s|
  {
    if ',' in s { PiecesAreCommaFree(s[First(s, ',') + 1..]); }
  }

  lemma {:induction false} JoinedPieces(s: string)
    ensures Joined(Pieces(s)) == s
    decreases |s|
  {
    if ',' in s {
      var p := First(s, ',');
      var rest := Pieces(s[p + 1..]);
      JoinedPieces(s[p + 1..]);
      assert ([s[..p]] + rest)[1..] == rest;
      assert s == s[..p] + "," + s[p + 1..];
    }
  }

  lemma {:induction false} PiecesJoined(names: seq<string>)
    requires names != [] && CommaFree(names)
    ensures Pieces(Joined(names)) == names
  {
    if |names| > 1 {
      var rest := Joined(names[1..]);
      PiecesJoined(names[1..]);
      FirstOf(names[0], ',', rest);
      var s := names[0] + "," + rest;
      assert s[..|names[0]|] == names[0] && s[|names[0]| + 1..] == rest && ',' in s;
      assert [names[0]] + names[1..] == names;
    }
  }

  /** getline yields the pieces, without an empty last one. */
  function Trimmed(names: seq<string>): seq<string> {
    if names != [] && names[|names| - 1] == "" then names[..|names| - 1] else names
  }

  lemma {:induction false} SplitIsTrimmed(s: string)
    ensures Split(s, ',') == Trimmed(Pieces(s))
    decreases |s|
  {
    hide Split, Pieces, Trimmed;
    SplitStep(s, ',');
    if ',' in s {
      var p := First(s, ',');
      SplitIsTrimmed(s[p + 1..]);
      TrimmedMore(s[..p], Pieces(s[p + 1..]));
      PiecesStep(s);
    } else {
      PiecesStep(s);
      TrimmedOne(s);
    }
  }

  lemma PiecesStep(s: string)
    ensures Pieces(s) == if ',' !in s then [s] else [s[..First(s, ',')]] + Pieces(s[First(s, ',') + 1..])
  {
  }

  lemma TrimmedOne(s: string)
    ensures Trimmed([s]) == if s == "" then [] else [s]
  {
  }

  lemma TrimmedMore(x: string, rest: seq<string>)
    requires rest != []
    ensures Trimmed([x] + rest) == [x] + Trimmed(rest)
  {
    assert ([x] + rest)[|rest|] == rest[|rest| - 1];
    assert ([x] + rest)[..|rest|] == [x] + rest[..|rest| - 1];
  }

  // ---------------------------------------------------------------- spellings

  /** A piece of a group that reads back as itself. */
  predicate Stable(piece: string) { piece != "" && Normalized(RemoveQuotes(piece)) == piece }

  lemma {:induction false} WithoutTwice(s: string, c: char, d: char)
    ensures Without(Without(s, c), d) == Without(Without(s, d), c)
  {
    if s != "" {
      WithoutTwice(s[1..], c, d);
      WithoutAppend([s[0]], s[1..], c);
      WithoutAppend([s[0]], s[1..], d);
      assert [s[0]] + s[1..] == s;
      WithoutAppend(Without([s[0]], c), Without(s[1..], c), d);
      WithoutAppend(Without([s[0]], d), Without(s[1..], d), c);
      WithoutSingle(s[0], c);
      WithoutSingle(s[0], d);
    }
  }

  lemma WithoutSingle(x: char, c: char)
    ensures Without([x], c) == if x == c then "" else [x]
    ensures Without("", c) == ""
  {
    assert [x][1..] == "";
  }

  lemma StrippedUnquoted(s: string)
    ensures RemoveQuotes(Without(s, '`')) == RemoveQuotes(s)
  {
    var a := Without(s, '\'');
    var b := Without(a, '\"');
    WithoutTwice(s, '`', '\'');
    WithoutTwice(a, '`', '\"');
    WithoutNothing(Without(b, '`'), '`');
  }

  lemma NormalizedIsCommaFree(s: string)
    requires ',' !in s
    ensures ',' !in Normalized(s)
  {
    hide Split;
    if '.' in s && |Split(s, '.')| == 2 {
      PieceLacks(s, '.', 0, ',');
      PieceLacks(s, '.', 1, ',');
    }
  }

  lemma UnquotedIsCommaFree(s: string)
    requires ',' !in s
    ensures ',' !in RemoveQuotes(s)
  {
    var a := Without(s, '\'');
    WithoutKeeps(s, '\'', ',');
    WithoutKeeps(a, '\"', ',');
    WithoutKeeps(Without(a, '\"'), '`', ',');
  }

  lemma SpellingsAreCommaFree(names: seq<string>)
    requires CommaFree(names)
    ensures CommaFree(Spellings(names))
  {
    hide Normalized, RemoveQuotes;
    forall i | 0 <= i < |names| ensures ',' !in Spellings(names)[i] {
      UnquotedIsCommaFree(names[i]);
      NormalizedIsCommaFree(RemoveQuotes(names[i]));
    }
  }

  // ---------------------------------------------------------------- any group text

  lemma EmptyIsRegrouped()
    ensures Regrouped("") == ""
  {
    hide Grouped;
    WithoutNothing("", '`');
    SplitStep("", ',');
    EmptyGroup("");
  }

  /** What the reading side makes of the pieces of the text. */
  lemma RegroupedPieces(g: string)
    ensures Regrouped(g) == Grouped("", Trimmed(Bares(Pieces(g)))) && CommaFree(Bares(Pieces(g)))
  {
    hide Grouped, Split, Without, Pieces;
    var q := Pieces(g);
    PiecesAreCommaFree(g);
    JoinedPieces(g);
    StrippedJoined(q);
    forall i | 0 <= i < |q| ensures ',' !in Bares(q)[i] { WithoutKeeps(q[i], '`', ','); }
    PiecesJoined(Bares(q));
    SplitIsTrimmed(Without(g, '`'));
  }

  lemma StableIsRestored(g: string)
    requires forall i | 0 <= i < |Pieces(g)| :: Stable(Pieces(g)[i])
    ensures Regrouped(g) == g
  {
    hide Grouped, Normalized, RemoveQuotes, Pieces, Without, Joined, Regrouped;
    var q := Pieces(g);
    var b := Bares(q);
    RegroupedPieces(g);
    forall i | 0 <= i < |q| ensures b[i] != "" && Normalized(RemoveQuotes(b[i])) == q[i] {
      StrippedUnquoted(q[i]);
      if b[i] == "" { EmptyIsNormal(); }
    }
    GroupedIsJoined(b);
    assert Spellings(b) == q;
    JoinedPieces(g);
  }

  lemma EmptyIsNormal()
    ensures Normalized(RemoveQuotes("")) == ""
  {
    RemoveQuotesNothing("");
  }

  lemma RestoredIsStable(g: string)
    requires Regrouped(g) == g != ""
    ensures forall i | 0 <= i < |Pieces(g)| :: Stable(Pieces(g)[i])
  {
    hide Grouped, Normalized, RemoveQuotes, Pieces, Without, Joined, Regrouped, Listed;
    var q := Pieces(g);
    var b := Bares(q);
    var p := Trimmed(b);
    RegroupedPieces(g);
    SpellingsAreCommaFree(p);
    if p == [] {
      EmptyGroup("");
    } else if Leading(p) < |p| {
      StoppedGroupDiffers(q);
    } else {
      GroupedIsJoined(p);
      PiecesJoined(Spellings(p));
      assert q == Spellings(p);
      forall i | 0 <= i < |q| ensures Stable(q[i]) {
        StrippedUnquoted(q[i]);
        if q[i] == "" { WithoutNothing("", '`'); }
      }
    }
  }

  /** A GroupBy that an empty piece ends early leaves another text. */
  lemma StoppedGroupDiffers(q: seq<string>)
    requires CommaFree(Bares(q)) && Leading(Trimmed(Bares(q))) < |Trimmed(Bares(q))|
    ensures Pieces(Grouped("", Trimmed(Bares(q)))) != q
  {
    hide Grouped, Normalized, RemoveQuotes, Pieces, Without, Listed;
    var p := Trimmed(Bares(q));
    var k := Leading(p);
    GroupedSoFar("", p, k);
    SpellingsAreCommaFree(p[..k]);
    ListedPieces(Spellings(p[..k]));
    assert "" + Listed(Spellings(p[..k])) == Listed(Spellings(p[..k]));
    WithoutNothing("", '`');
    var r := Spellings(p[..k]) + [""];
    assert |r| == k + 1 && r[k] == "";
  }

  lemma {:induction false} ListedPieces(names: seq<string>)
    requires CommaFree(names)
    ensures Pieces(Listed(names)) == names + [""]
  {
    hide Pieces;
    ListedJoined(names);
    PiecesJoined(names + [""]);
  }

  lemma {:induction false} ListedJoined(names: seq<string>)
    ensures Listed(names) == Joined(names + [""])
  {
    if names != [] {
      ListedJoined(names[1..]);
      assert (names + [""])[1..] == names[1..] + [""];
    }
  }

  /** For every group text, however it was built: it comes back exactly if it is empty or each of its comma-separated
      pieces is spelled as its own unquoted name would be. */
  lemma RegroupedIff(g: string)
    ensures Regrouped(g) == g <==> g == "" || forall i | 0 <= i < |Pieces(g)| :: Stable(Pieces(g)[i])
  {
    hide Regrouped, Pieces, Stable;
    if g == "" {
      EmptyIsRegrouped();
    } else if Regrouped(g) == g {
      RestoredIsStable(g);
    } else if forall i | 0 <= i < |Pieces(g)| :: Stable(Pieces(g)[i]) {
      StableIsRestored(g);
    }
  }

  // ---------------------------------------------------------------- one GroupBy of names without commas

  lemma NormalizedIsEmptyIff(name: string)
    ensures Normalized(name) == "" <==> name == ""
  {
  }

  /** The spelling of a name comes back exactly if the name is restorable. */
  lemma SpellingIsStableIff(name: string)
    requires '`' !in name && '\'' !in name && '\"' !in name && ',' !in name
    ensures Stable(Normalized(name)) <==> Restorable(name)
  {
    hide Split;
    NormalizedIsEmptyIff(name);
    SpellingUnquoted(name);
    RespelledIff(name);
    SplitStep(name, '.');
    hide Normalized, RemoveQuotes;
  }

  lemma SpellingUnquoted(name: string)
    requires '`' !in name && '\'' !in name && '\"' !in name
    ensures RemoveQuotes(Normalized(name)) == Bare(name)
  {
    hide Split;
    var n := Normalized(name);
    assert '\'' !in n && '\"' !in n by {
      if '.' in name && |Split(name, '.')| == 2 {
        SplitPiece(name, '.', 0);
        SplitPiece(name, '.', 1);
      }
    }
    hide Normalized;
    WithoutNothing(n, '\'');
    WithoutNothing(n, '\"');
  }

  ghost predicate Given(fields: seq<string>) {
    fields != [] && (forall i | 0 <= i < |fields| :: fields[i] != "" && ',' !in RemoveQuotes(fields[i]))
  }

  lemma SpellingsOfGiven(fields: seq<string>)
    requires Given(fields)
    ensures CommaFree(Spellings(fields))
    ensures forall i | 0 <= i < |fields| :: Stable(Spellings(fields)[i]) <==> Restorable(RemoveQuotes(fields[i]))
  {
    hide Normalized, RemoveQuotes, Stable, Restorable;
    forall i | 0 <= i < |fields|
      ensures ',' !in Spellings(fields)[i] && (Stable(Spellings(fields)[i]) <==> Restorable(RemoveQuotes(fields[i])))
    {
      RemoveQuotesLacks(fields[i]);
      NormalizedIsCommaFree(RemoveQuotes(fields[i]));
      SpellingIsStableIff(RemoveQuotes(fields[i]));
    }
  }

  /** One GroupBy of fields whose names hold no comma comes back exactly if every name is restorable, or the group is
      empty. */
  lemma GroupRestoredIff(fields: seq<string>)
    requires Given(fields)
    ensures var g := Grouped("", fields);
      Regrouped(g) == g <==> g == "" || forall i | 0 <= i < |fields| :: Restorable(RemoveQuotes(fields[i]))
  {
    hide Regrouped, Grouped, Pieces, Stable, Restorable, RemoveQuotes, Joined;
    SpellingsOfGiven(fields);
    GroupedIsJoined(fields);
    PiecesJoined(Spellings(fields));
    RegroupedIff(Grouped("", fields));
  }

  // ---------------------------------------------------------------- names with commas

  /** A name that is written as it is: neither plain nor of two parts. */
  predicate IsRaw(name: string) { '.' in name && |Split(name, '.')| != 2 }

  function Ticks(s: string): int { |s| - |Without(s, '`')| }

  lemma TicksAppend(a: string, b: string)
    ensures Ticks(a + b) == Ticks(a) + Ticks(b)
  {
    WithoutAppend(a, b, '`');
  }

  lemma TicksOfQuoted(s: string)
    requires '`' !in s
    ensures Ticks(Quoted(s)) == (if s == "" then 0 else 2) && Ticks(s) == 0 && Ticks("`") == 1 && Ticks(".") == 0
  {
    BareQuoted(s);
    WithoutNothing(s, '`');
    WithoutNothing(".", '`');
    WithoutSingle('`', '`');
  }

  /** Every spelling has its backticks in pairs. */
  lemma SpellingHasPairs(name: string)
    requires '`' !in name
    ensures Ticks(Normalized(name)) % 2 == 0
    ensures Ticks(Normalized(name)) == 0 && name != "" ==> IsRaw(name) || Normalized(name) == "."
  {
    hide Split, Quoted, Ticks;
    TicksOfQuoted(name);
    if '.' in name && |Split(name, '.')| == 2 {
      var a, b := Split(name, '.')[0], Split(name, '.')[1];
      SplitPiece(name, '.', 0);
      SplitPiece(name, '.', 1);
      TicksOfQuoted(a);
      TicksOfQuoted(b);
      TicksAppend(Quoted(a) + ".", Quoted(b));
      TicksAppend(Quoted(a), ".");
      if a == "" && b == "" { assert Quoted(a) + "." + Quoted(b) == "." by { EmptyQuotes(); } }
    }
  }

  lemma EmptyQuotes()
    ensures Quoted("") == ""
  {
  }

  /** A name is spelled as itself exactly if it is raw. */
  lemma NormalIff(name: string)
    requires name != "" && '`' !in name
    ensures Normalized(name) == name <==> IsRaw(name)
  {
    SpellingHasPairs(name);
    TicksOfQuoted(name);
  }

  lemma FirstPiece(a: string, b: string)
    requires ',' !in a
    ensures Pieces(a + "," + b)[0] == a
  {
    FirstOf(a, ',', b);
    assert (a + "," + b)[..|a|] == a && ',' in a + "," + b;
  }

  /** In the spelling of a name that is not raw, the first comma stands inside backticks. */
  lemma FirstPieceIsOpen(name: string)
    requires '`' !in name && ',' in name && !IsRaw(name)
    ensures Ticks(Pieces(Normalized(name))[0]) % 2 == 1
  {
    hide Ticks, Pieces, Split, Quoted;
    TicksOfQuoted("");
    if '.' !in name {
      OpenQuote("", name, "");
      assert "" + Quoted(name) + "" == Quoted(name);
    } else {
      var a, b := Split(name, '.')[0], Split(name, '.')[1];
      SplitPiece(name, '.', 0);
      SplitPiece(name, '.', 1);
      TicksOfQuoted(a);
      if ',' in a {
        OpenQuote("", a, "." + Quoted(b));
        assert "" + Quoted(a) + ("." + Quoted(b)) == Quoted(a) + "." + Quoted(b);
      } else {
        CommaIsInPieces(name, a, b);
        TicksAppend(Quoted(a), ".");
        assert ',' !in Quoted(a) + "." by { QuotedIsCommaFree(a); }
        OpenQuote(Quoted(a) + ".", b, "");
        assert Quoted(a) + "." + Quoted(b) + "" == Quoted(a) + "." + Quoted(b);
      }
    }
  }

  lemma CommaIsInPieces(name: string, a: string, b: string)
    requires Split(name, '.') == [a, b] && ',' in name && '.' in name
    ensures ',' in a || ',' in b
  {
    hide Split;
    TwoParts(name);
    assert name == a + "." + b || name == a + "." + b + ".";
  }

  /** What two parts are parts of. */
  lemma TwoParts(name: string)
    requires '.' in name && |Split(name, '.')| == 2
    ensures var parts := Split(name, '.');
      name == parts[0] + "." + parts[1] || name == parts[0] + "." + parts[1] + "."
  {
    hide Split;
    var p := First(name, '.');
    var rest := name[p + 1..];
    SplitStep(name, '.');
    assert Split(name, '.')[1..] == Split(rest, '.');
    assert name == name[..p] + "." + rest;
    OnePart(rest);
  }

  lemma OnePart(rest: string)
    requires |Split(rest, '.')| == 1
    ensures rest == Split(rest, '.')[0] || rest == Split(rest, '.')[0] + "."
  {
    hide Split;
    SplitStep(rest, '.');
    if '.' in rest {
      var q := First(rest, '.');
      assert Split(rest, '.')[1..] == Split(rest[q + 1..], '.');
      SplitStep(rest[q + 1..], '.');
      assert rest == rest[..q] + "." + rest[q + 1..];
    }
  }

  lemma QuotedIsCommaFree(s: string)
    requires ',' !in s
    ensures ',' !in Quoted(s)
  {
  }

  lemma OpenQuote(before: string, name: string, after: string)
    requires ',' !in before && ',' in name && '`' !in name && Ticks(before) % 2 == 0
    ensures Ticks(Pieces(before + Quoted(name) + after)[0]) % 2 == 1
  {
    hide Ticks, Pieces, Quoted;
    var p := First(name, ',');
    var head := "`" + name[..p];
    QuotedAround(name, p);
    Around(before, head, name[p + 1..] + "`", after);
    FirstPiece(before + head, name[p + 1..] + "`" + after);
    TicksAppend(before, head);
    TicksAppend("`", name[..p]);
    TicksOfQuoted(name[..p]);
  }

  lemma QuotedAround(name: string, p: nat)
    requires p < |name| && name[p] == ','
    ensures Quoted(name) == "`" + name[..p] + "," + (name[p + 1..] + "`")
  {
    assert name == name[..p] + "," + name[p + 1..];
  }

  lemma Around(a: string, b: string, c: string, d: string)
    ensures a + (b + "," + c) + d == a + b + "," + (c + d)
  {
  }

  /** A single field whose name holds commas comes back exactly if the name, and each of its comma-separated pieces,
      is raw. */
  lemma CommaNameRestoredIff(field: string)
    requires ',' in RemoveQuotes(field)
    ensures var name, g := RemoveQuotes(field), Grouped("", [field]);
      Regrouped(g) == g <==> IsRaw(name) && forall i | 0 <= i < |Pieces(name)| :: IsRaw(Pieces(name)[i])
  {
    hide Regrouped, Grouped, Pieces, IsRaw, Normalized, Ticks, RemoveQuotes;
    var name := RemoveQuotes(field);
    RemoveQuotesLacks(field);
    if field == "" { RemoveQuotesNothing(""); }
    GroupedOne("", field);
    assert "" + Normalized(name) == Normalized(name);
    NormalizedIsEmptyIff(name);
    RegroupedIff(Normalized(name));
    if IsRaw(name) {
      NormalIff(name);
      RawPieces(name);
    } else {
      FirstPieceIsOpen(name);
      UnstableOpen(Pieces(Normalized(name))[0]);
    }
  }

  lemma UnstableOpen(piece: string)
    requires Ticks(piece) % 2 == 1
    ensures !Stable(piece)
  {
    hide Ticks, Normalized, RemoveQuotes;
    RemoveQuotesLacks(piece);
    SpellingHasPairs(RemoveQuotes(piece));
  }

  lemma RawPieces(name: string)
    requires '`' !in name && '\'' !in name && '\"' !in name
    ensures forall i | 0 <= i < |Pieces(name)| :: Stable(Pieces(name)[i]) <==> IsRaw(Pieces(name)[i])
  {
    hide Normalized, RemoveQuotes, Pieces, Split;
    forall i | 0 <= i < |Pieces(name)| ensures Stable(Pieces(name)[i]) <==> IsRaw(Pieces(name)[i]) {
      var q := Pieces(name)[i];
      PieceOf(name, i, '`');
      PieceOf(name, i, '\'');
      PieceOf(name, i, '\"');
      RemoveQuotesNothing(q);
      if q != "" { NormalIff(q); }
    }
  }

  lemma {:induction false} PieceOf(s: string, i: nat, d: char)
    requires i < |Pieces(s)| && d !in s
    ensures d !in Pieces(s)[i]
    decreases |s|
  {
    if ',' in s && i > 0 { PieceOf(s[First(s, ',') + 1..], i - 1, d); }
  }

  // ---------------------------------------------------------------- repeated calls of GroupBy

  lemma GroupedAppends(group: string, fields: seq<string>)
    requires fields != [] && forall i | 0 <= i < |fields| :: fields[i] != ""
    ensures Grouped(group, fields) == group + Joined(Spellings(fields))
  {
    hide Normalized, RemoveQuotes, Grouped, Spellings, Listed, Joined;
    GroupedSoFar(group, fields, |fields|);
    assert fields[..|fields|] == fields;
    ListedIsJoined(Spellings(fields));
    var g, j := Grouped(group, fields), group + Joined(Spellings(fields));
    assert g + "," == j + ",";
    assert g == (g + ",")[..|g + ","| - 1] && j == (j + ",")[..|j + ","| - 1];
  }

  /** The last name of one call and the first of the next have no comma between them. */
  function Merged(a: seq<string>, b: seq<string>): seq<string>
    requires a != [] && b != []
  {
    a[..|a| - 1] + [a[|a| - 1] + b[0]] + b[1..]
  }

  lemma {:induction false} JoinedMerged(a: seq<string>, b: seq<string>)
    requires a != [] && b != []
    ensures Joined(a) + Joined(b) == Joined(Merged(a, b))
  {
    if |a| > 1 {
      JoinedMerged(a[1..], b);
      assert Merged(a, b)[1..] == Merged(a[1..], b) && Merged(a, b)[0] == a[0];
    } else {
      assert Merged(a, b) == [a[0] + b[0]] + b[1..];
      assert ([a[0] + b[0]] + b[1..])[1..] == b[1..];
    }
  }

  predicate Meet(f: seq<string>, h: seq<string>)
    requires f != [] && h != []
  {
    && (forall i | 0 <= i < |f| - 1 :: Restorable(RemoveQuotes(f[i])))
    && Stable(Normalized(RemoveQuotes(f[|f| - 1])) + Normalized(RemoveQuotes(h[0])))
    && (forall i | 1 <= i < |h| :: Restorable(RemoveQuotes(h[i])))
  }

  /** Two calls of GroupBy, of fields whose names hold no comma, come back exactly if the group is empty, or every
      name is restorable except the two that meet, and those together are spelled as one name would be. */
  lemma RepeatedGroupByIff(f: seq<string>, h: seq<string>)
    requires Given(f) && Given(h)
    ensures var g := Grouped(Grouped("", f), h);
      Regrouped(g) == g <==> (g == "" || Meet(f, h))
  {
    hide Regrouped, Grouped, Pieces, Stable, Restorable, RemoveQuotes, Joined, Normalized;
    var a, b := Spellings(f), Spellings(h);
    var m := Merged(a, b);
    SpellingsOfGiven(f);
    SpellingsOfGiven(h);
    GroupedIsJoined(f);
    GroupedAppends(Joined(a), h);
    JoinedMerged(a, b);
    PiecesJoined(m);
    RegroupedIff(Joined(m));
    assert m[|a| - 1] == a[|a| - 1] + b[0];
    assert forall i | 0 <= i < |a| - 1 :: m[i] == a[i];
    assert forall i | 1 <= i < |b| :: m[|a| - 1 + i] == b[i];
    assert forall i | |a| <= i < |m| :: m[i] == b[i - |a| + 1];
  }

  /** Two single raw names come back from two calls exactly if put together they are raw. */
  lemma RawRepeatedIff(a: string, b: string)
    requires IsRaw(a) && IsRaw(b) && RemoveQuotes(a) == a && RemoveQuotes(b) == b && ',' !in a && ',' !in b
    ensures var g := Grouped(Grouped("", [a]), [b]); g == a + b && (Regrouped(g) == g <==> IsRaw(a + b))
  {
    hide Regrouped, Grouped, Split, RemoveQuotes, Restorable;
    RemoveQuotesLacks(a);
    RemoveQuotesLacks(b);
    GroupedOne("", a);
    GroupedOne(Grouped("", [a]), b);
    assert "" + a == a;
    RepeatedGroupByIff([a], [b]);
    RemoveQuotesNothing(a + b);
    NormalIff(a + b);
  }

  // ---------------------------------------------------------------- every object built by calls

  ghost predicate Sane(q: Query) {
    && (q.limit == -1 || q.limit >= 1) && (q.offset == -1 || q.offset >= 1)
    && '`' !in q.index && '\'' !in q.index && '\"' !in q.index
  }

  lemma {:induction false} MadeIsSane(selection: string, settings: seq<Setting>)
    ensures Sane(Made(selection, settings))
  {
    if settings != [] {
      MadeIsSane(selection, settings[..|settings| - 1]);
      SetKeepsSane(Made(selection, settings[..|settings| - 1]), settings[|settings| - 1]);
    }
  }

  lemma SetKeepsSane(q: Query, s: Setting)
    requires Sane(q)
    ensures Sane(Set(q, s))
  {
    hide Predicates.Apply, Normalized, Grouped;
    if s.IndexOn? { RemoveQuotesLacks(s.name); }
  }

  /** Marshal, then unmarshal, for every object built by any calls: everything but the two flags comes back exactly if
      the group is empty or each of its pieces is stable; all but the group comes back in any case. */
  lemma ParcelRoundTripIff(raw: bool, selection: string, settings: seq<Setting>)
    ensures var q := Made(selection, settings);
      && Rebuilt(LoadOf(raw, q)).(group := q.group) == q.(clause := q.clause.(needAnd := false), sorted := false)
      && (Rebuilt(LoadOf(raw, q)).group == q.group <==>
            q.group == "" || forall i | 0 <= i < |Pieces(q.group)| :: Stable(Pieces(q.group)[i]))
  {
    hide Made, Regrouped, Pieces, Stable, RemoveQuotes;
    var q := Made(selection, settings);
    MadeIsSane(selection, settings);
    RemoveQuotesNothing(q.index);
    RegroupedIff(q.group);
  }
}
