/**
 SQLite's LIKE operator with the escape character `\`, and the escaping the
 intake filter applies to a substring before it becomes a LIKE pattern.
 */
module Like {

  /** LIKE folds the 26 ASCII letters and nothing else. */
  function Fold(c: char): char {
    if 'A' <= c <= 'Z' then (c as int + 32) as char else c
  }

  predicate IsUpper(c: char) { 'A' <= c <= 'Z' }

  /** Two characters fold alike when they are the same, or the two cases of one ASCII letter. */
  lemma FoldMeans(a: char, b: char)
    ensures Fold(a) == Fold(b) <==>
      a == b || (IsUpper(a) && b as int == a as int + 32) || (IsUpper(b) && a as int == b as int + 32)
  {
  }

  predicate SameUpToCase(a: string, b: string) {
    |a| == |b| && forall k :: 0 <= k < |a| ==> Fold(a[k]) == Fold(b[k])
  }

  /** The text holds the needle somewhere, letters compared without ASCII case. */
  predicate ContainsUpToCase(text: string, needle: string) {
    exists k :: 0 <= k <= |text| && OccursAt(text, needle, k)
  }

  predicate OccursAt(text: string, needle: string, k: nat) {
    k + |needle| <= |text| && SameUpToCase(needle, text[k..k + |needle|])
  }

  /** `text LIKE pattern ESCAPE '\'`. A pattern that ends in the escape matches nothing. */
  predicate Matches(pattern: string, text: string)
    decreases |pattern| + |text|
  {
    if pattern == "" then text == ""
    else if pattern[0] == '%' then
      Matches(pattern[1..], text) || (text != "" && Matches(pattern, text[1..]))
    else if pattern[0] == '_' then
      text != "" && Matches(pattern[1..], text[1..])
    else if pattern[0] == '\\' then
      |pattern| > 1 && text != "" && Fold(pattern[1]) == Fold(text[0]) && Matches(pattern[2..], text[1..])
    else
      text != "" && Fold(pattern[0]) == Fold(text[0]) && Matches(pattern[1..], text[1..])
  }

  predicate IsMeta(c: char) {
    c == '%' || c == '_' || c == '\\'
  }

  function Escaped(s: string): string {
    if s == "" then ""
    else (if IsMeta(s[0]) then ['\\', s[0]] else [s[0]]) + Escaped(s[1..])
  }

  method LikeEscape(s: string) returns (out: string)
    ensures out == Escaped(s)
  {
    out := "";
    for i := 0 to |s|
      invariant out + Escaped(s[i..]) == Escaped(s)
    {
      assert s[i..][1..] == s[i + 1..];
      if IsMeta(s[i]) {
        out := out + "\\";
      }
      out := out + [s[i]];
    }
  }

  /** The pattern a substring predicate is bound to. */
  function SubstringPattern(needle: string): string {
    "%" + Escaped(needle) + "%"
  }

  lemma {:induction false} PercentMatchesEverything(text: string)
    ensures Matches("%", text)
    decreases |text|
  {
    if text != "" {
      PercentMatchesEverything(text[1..]);
    }
  }

  /** A leading `%` lets the rest of the pattern start anywhere. */
  lemma {:induction false} LeadingPercent(rest: string, text: string)
    ensures Matches("%" + rest, text) <==> exists k :: 0 <= k <= |text| && Matches(rest, text[k..])
    decreases |text|
  {
    var p := "%" + rest;
    assert p[1..] == rest && text[0..] == text;
    if text != "" {
      var tail := text[1..];
      LeadingPercent(rest, tail);
      if Matches(p, tail) {
        var k :| 0 <= k <= |tail| && Matches(rest, tail[k..]);
        assert text[k + 1..] == tail[k..];
      }
      if k :| 0 < k <= |text| && Matches(rest, text[k..]) {
        assert tail[k - 1..] == text[k..];
      }
    }
  }

  /** An escaped needle followed by `%` matches exactly the texts that open with the needle. */
  lemma {:induction false} EscapedPrefix(needle: string, text: string)
    ensures Matches(Escaped(needle) + "%", text)
       <==> |needle| <= |text| && SameUpToCase(needle, text[..|needle|])
    decreases |needle|
  {
    var p := Escaped(needle) + "%";
    if needle == "" {
      assert p == "%";
      PercentMatchesEverything(text);
    } else {
      var rest := Escaped(needle[1..]) + "%";
      if IsMeta(needle[0]) {
        assert p == ['\\', needle[0]] + rest;
        assert p[2..] == rest;
      } else {
        assert p == [needle[0]] + rest;
        assert p[1..] == rest;
      }
      if text != "" {
        EscapedPrefix(needle[1..], text[1..]);
        if |needle| <= |text| {
          var a, b := needle[1..], text[1..][..|needle| - 1];
          assert forall k :: 0 <= k < |a| ==> a[k] == needle[k + 1] && b[k] == text[..|needle|][k + 1];
          assert SameUpToCase(needle, text[..|needle|]) <==>
                 Fold(needle[0]) == Fold(text[0]) && SameUpToCase(a, b) by {
            if Fold(needle[0]) == Fold(text[0]) && SameUpToCase(a, b) {
              forall k | 0 <= k < |needle| ensures Fold(needle[k]) == Fold(text[..|needle|][k]) {
                if k > 0 { assert Fold(a[k - 1]) == Fold(b[k - 1]); }
              }
            }
          }
        }
      }
    }
  }

  /** Escaping is exact, for needles holding `%`, `_` and `\` as well. */
  lemma EscapingIsExact(needle: string, text: string)
    ensures Matches(SubstringPattern(needle), text) <==> ContainsUpToCase(text, needle)
  {
    var rest := Escaped(needle) + "%";
    assert SubstringPattern(needle) == "%" + rest;
    LeadingPercent(rest, text);
    forall k | 0 <= k <= |text|
      ensures Matches(rest, text[k..]) <==> OccursAt(text, needle, k)
    {
      EscapedPrefix(needle, text[k..]);
      if k <= |text| - |needle| {
        assert text[k..][..|needle|] == text[k..k + |needle|];
      }
    }
  }
}
