/** When a LIKE pattern matches a text (section 8.5 of ISO/IEC 9075:1992); as in SQLite, the case of ASCII letters does
    not matter. */
module Patterns {
  function Fold(c: char): char { if 'A' <= c <= 'Z' then c - 'A' + 'a' else c }

  /** A percent sign stands for any characters, an underscore for one. */
  predicate Matches(pattern: string, text: string)
    decreases |pattern| + |text|
  {
    if pattern == "" then text == ""
    else if pattern[0] == '%' then Matches(pattern[1..], text) || (text != "" && Matches(pattern, text[1..]))
    else text != "" && (pattern[0] == '_' || Fold(pattern[0]) == Fold(text[0])) && Matches(pattern[1..], text[1..])
  }

  predicate SameText(a: string, b: string) { |a| == |b| && forall i | 0 <= i < |a| :: Fold(a[i]) == Fold(b[i]) }

  predicate Plain(s: string) { '%' !in s && '_' !in s }

  /** A text without wildcards matches itself and nothing else. */
  lemma {:induction false} PlainMatchesItself(v: string, text: string)
    requires Plain(v)
    ensures Matches(v, text) <==> SameText(v, text)
    decreases |v|
  {
    if v != "" && text != "" {
      PlainMatchesItself(v[1..], text[1..]);
      assert SameText(v, text) ==> SameText(v[1..], text[1..]);
      assert v == [v[0]] + v[1..] && text == [text[0]] + text[1..];
    }
  }

  lemma {:induction false} AnythingMatches(text: string)
    ensures Matches("%", text)
    decreases |text|
  {
    assert "%"[1..] == "";
    if text != "" { AnythingMatches(text[1..]); }
  }

  /** Some text from the start, to the end, or in the middle, that the pattern matches. */
  predicate MatchesStart(pattern: string, text: string) { exists i: nat | i <= |text| :: Matches(pattern, text[..i]) }

  predicate MatchesEnd(pattern: string, text: string) { exists i: nat | i <= |text| :: Matches(pattern, text[i..]) }

  predicate MatchesPart(pattern: string, text: string) { exists i: nat | i <= |text| :: MatchesStart(pattern, text[i..]) }

  lemma StartStep(p: string, text: string)
    requires p != ""
    ensures MatchesStart(p, text) <==>
      if p[0] == '%' then MatchesStart(p[1..], text) || (text != "" && MatchesStart(p, text[1..]))
      else text != "" && (p[0] == '_' || Fold(p[0]) == Fold(text[0])) && MatchesStart(p[1..], text[1..])
  {
    forall i: nat | 0 < i <= |text| ensures text[..i][1..] == text[1..][..i - 1] && text[..i][0] == text[0] {}
    if text != "" {
      forall i: nat | i <= |text[1..]| && Matches(p, text[1..][..i]) && p[0] == '%' ensures MatchesStart(p, text) {
        assert text[..i + 1][1..] == text[1..][..i];
        assert Matches(p, text[..i + 1]);
      }
      forall i: nat | i <= |text[1..]| && Matches(p[1..], text[1..][..i]) && p[0] != '%'
                      && (p[0] == '_' || Fold(p[0]) == Fold(text[0])) ensures MatchesStart(p, text) {
        assert text[..i + 1][1..] == text[1..][..i];
        assert Matches(p, text[..i + 1]);
      }
    }
  }

  lemma {:induction false} WildcardAfter(p: string, text: string)
    ensures Matches(p + "%", text) <==> MatchesStart(p, text)
    decreases |p| + |text|
  {
    if p == "" {
      AnythingMatches(text);
      assert p + "%" == "%";
      assert text[..0] == "" && Matches(p, text[..0]);
    } else {
      assert (p + "%")[1..] == p[1..] + "%" && (p + "%")[0] == p[0];
      StartStep(p, text);
      if p[0] == '%' {
        WildcardAfter(p[1..], text);
        if text != "" { WildcardAfter(p, text[1..]); }
      } else if text != "" {
        WildcardAfter(p[1..], text[1..]);
      }
    }
  }

  lemma {:induction false} WildcardBefore(p: string, text: string)
    ensures Matches("%" + p, text) <==> MatchesEnd(p, text)
    decreases |text|
  {
    assert ("%" + p)[1..] == p;
    assert text[0..] == text;
    if text != "" {
      WildcardBefore(p, text[1..]);
      forall i: nat | 0 < i <= |text| ensures text[i..] == text[1..][i - 1..] {}
      forall i: nat | i <= |text[1..]| && Matches(p, text[1..][i..]) ensures MatchesEnd(p, text) {
        assert text[1..][i..] == text[i + 1..];
      }
    }
  }

  lemma WildcardsAround(p: string, text: string)
    ensures Matches("%" + p + "%", text) <==> MatchesPart(p, text)
  {
    WildcardBefore(p + "%", text);
    assert "%" + (p + "%") == "%" + p + "%";
    forall i: nat | i <= |text| ensures Matches(p + "%", text[i..]) <==> MatchesStart(p, text[i..]) {
      WildcardAfter(p, text[i..]);
    }
  }

  /** Up to the case of letters, the value is a prefix, a suffix, a substring. */
  predicate IsPrefix(v: string, text: string) { |v| <= |text| && SameText(v, text[..|v|]) }

  predicate IsSuffix(v: string, text: string) { |v| <= |text| && SameText(v, text[|text| - |v|..]) }

  predicate IsSubstring(v: string, text: string) { exists i: nat | i <= |text| :: IsPrefix(v, text[i..]) }

  lemma PlainStart(v: string, text: string)
    requires Plain(v)
    ensures MatchesStart(v, text) <==> IsPrefix(v, text)
  {
    forall i: nat | i <= |text| ensures Matches(v, text[..i]) <==> SameText(v, text[..i]) { PlainMatchesItself(v, text[..i]); }
    hide Matches;
    if MatchesStart(v, text) {
      var i: nat :| i <= |text| && Matches(v, text[..i]);
      assert i == |v|;
    }
  }

  lemma PlainEnd(v: string, text: string)
    requires Plain(v)
    ensures MatchesEnd(v, text) <==> IsSuffix(v, text)
  {
    forall i: nat | i <= |text| ensures Matches(v, text[i..]) <==> SameText(v, text[i..]) { PlainMatchesItself(v, text[i..]); }
    hide Matches;
    if MatchesEnd(v, text) {
      var i: nat :| i <= |text| && Matches(v, text[i..]);
      assert i == |text| - |v|;
    }
  }

  lemma PlainPart(v: string, text: string)
    requires Plain(v)
    ensures MatchesPart(v, text) <==> IsSubstring(v, text)
  {
    forall i: nat | i <= |text| ensures MatchesStart(v, text[i..]) <==> IsPrefix(v, text[i..]) { PlainStart(v, text[i..]); }
    hide MatchesStart, IsPrefix;
  }

  /** The pattern matches exactly the texts of which a prefix, a suffix, a part matches the value; for a value without
      wildcards, those that have it as prefix, suffix, substring. */
  ghost predicate FindsPrefix(p: string, v: string) {
    && (forall text :: Matches(p, text) <==> MatchesStart(v, text))
    && (Plain(v) ==> forall text :: Matches(p, text) <==> IsPrefix(v, text))
  }

  ghost predicate FindsSuffix(p: string, v: string) {
    && (forall text :: Matches(p, text) <==> MatchesEnd(v, text))
    && (Plain(v) ==> forall text :: Matches(p, text) <==> IsSuffix(v, text))
  }

  ghost predicate FindsSubstring(p: string, v: string) {
    && (forall text :: Matches(p, text) <==> MatchesPart(v, text))
    && (Plain(v) ==> forall text :: Matches(p, text) <==> IsSubstring(v, text))
  }

  lemma PatternsFind(v: string)
    ensures FindsPrefix(v + "%", v) && FindsSuffix("%" + v, v) && FindsSubstring("%" + v + "%", v)
  {
    hide Matches, MatchesStart, MatchesEnd, MatchesPart, IsPrefix, IsSuffix, IsSubstring, Plain;
    forall text
      ensures Matches(v + "%", text) <==> MatchesStart(v, text)
      ensures Matches("%" + v, text) <==> MatchesEnd(v, text)
      ensures Matches("%" + v + "%", text) <==> MatchesPart(v, text)
      ensures Plain(v) ==>
        && (MatchesStart(v, text) <==> IsPrefix(v, text)) && (MatchesEnd(v, text) <==> IsSuffix(v, text))
        && (MatchesPart(v, text) <==> IsSubstring(v, text))
    {
      WildcardAfter(v, text);
      WildcardBefore(v, text);
      WildcardsAround(v, text);
      if Plain(v) { PlainStart(v, text); PlainEnd(v, text); PlainPart(v, text); }
    }
  }
}
