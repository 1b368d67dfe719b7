/** `EscapeLike` of query/query.go and the pattern language it defeats: LIKE with escape character `!`
    (PostgreSQL manual, section 9.7.1). A case-insensitive match compares folded characters. */
module Like {

  const ESCAPE := '!'

  /** The replacer `!` to `!!`, `%` to `!%`, `_` to `!_`. */
  function EscapeLike(value: string): string {
    if value == "" then ""
    else (if value[0] in "!%_" then [ESCAPE, value[0]] else [value[0]]) + EscapeLike(value[1..])
  }

  type Fold = char -> char

  /** Whether `text` matches `pattern`. A pattern that ends in a bare escape character is invalid and matches nothing. */
  predicate Matches(fold: Fold, pattern: string, text: string)
    decreases |pattern|, |text|
  {
    if pattern == "" then text == ""
    else if pattern[0] == '%' then
      Matches(fold, pattern[1..], text) || (text != "" && Matches(fold, pattern, text[1..]))
    else if pattern[0] == '_' then text != "" && Matches(fold, pattern[1..], text[1..])
    else if pattern[0] == ESCAPE then
      |pattern| > 1 && text != "" && fold(pattern[1]) == fold(text[0]) && Matches(fold, pattern[2..], text[1..])
    else
      text != "" && fold(pattern[0]) == fold(text[0]) && Matches(fold, pattern[1..], text[1..])
  }

  predicate SameFolded(fold: Fold, a: string, b: string) {
    |a| == |b| && forall i :: 0 <= i < |a| ==> fold(a[i]) == fold(b[i])
  }

  /** `s` occurs in `t` at position `i`, up to folding. */
  predicate OccursAt(fold: Fold, s: string, t: string, i: nat) {
    i + |s| <= |t| && SameFolded(fold, s, t[i..i + |s|])
  }

  lemma {:induction false} EscapedMatchesItself(fold: Fold, s: string, pattern: string, t: string)
    ensures Matches(fold, EscapeLike(s) + pattern, t)
            <==> |s| <= |t| && SameFolded(fold, s, t[..|s|]) && Matches(fold, pattern, t[|s|..])
    decreases |s|
  {
    if s == "" {
      assert EscapeLike(s) + pattern == pattern && t[0..] == t;
    } else {
      var rest := EscapeLike(s[1..]) + pattern;
      var p := EscapeLike(s) + pattern;
      if s[0] in "!%_" {
        assert p == [ESCAPE, s[0]] + rest && p[2..] == rest;
      } else {
        assert p == [s[0]] + rest && p[1..] == rest;
      }
      if t != "" {
        EscapedMatchesItself(fold, s[1..], pattern, t[1..]);
        assert |s| <= |t| ==> t[1..][|s| - 1..] == t[|s|..] && t[..|s|] == [t[0]] + t[1..][..|s| - 1];
        assert s == [s[0]] + s[1..];
        assert |s| <= |t| ==> (SameFolded(fold, s, t[..|s|])
               <==> fold(s[0]) == fold(t[0]) && SameFolded(fold, s[1..], t[1..][..|s| - 1])) by {
          if |s| <= |t| {
            FoldedStep(fold, s, t[..|s|]);
          }
        }
      }
    }
  }

  lemma FoldedStep(fold: Fold, a: string, b: string)
    requires |a| == |b| && a != ""
    ensures SameFolded(fold, a, b) <==> fold(a[0]) == fold(b[0]) && SameFolded(fold, a[1..], b[1..])
  {
    if fold(a[0]) == fold(b[0]) && SameFolded(fold, a[1..], b[1..]) {
      forall i | 0 <= i < |a| ensures fold(a[i]) == fold(b[i]) {
        assert i > 0 ==> a[1..][i - 1] == a[i] && b[1..][i - 1] == b[i];
      }
    }
  }

  lemma {:induction false} PercentMatchesAll(fold: Fold, t: string)
    ensures Matches(fold, "%", t)
    decreases |t|
  {
    if t != "" {
      PercentMatchesAll(fold, t[1..]);
    }
  }

  lemma {:induction false} PercentSearches(fold: Fold, pattern: string, t: string)
    ensures Matches(fold, "%" + pattern, t) <==> exists i :: 0 <= i <= |t| && Matches(fold, pattern, t[i..])
    decreases |t|
  {
    var p := "%" + pattern;
    assert p[1..] == pattern && t[0..] == t;
    if t != "" {
      PercentSearches(fold, pattern, t[1..]);
      forall i | 1 <= i <= |t| ensures t[i..] == t[1..][i - 1..] {
      }
      if Matches(fold, p, t[1..]) {
        var i :| 0 <= i <= |t[1..]| && Matches(fold, pattern, t[1..][i..]);
        assert t[1..][i..] == t[i + 1..];
      }
      if exists i :: 1 <= i <= |t| && Matches(fold, pattern, t[i..]) {
        var i :| 1 <= i <= |t| && Matches(fold, pattern, t[i..]);
        assert t[1..][i - 1..] == t[i..];
      }
    }
  }

  lemma EscapedMatchesAt(fold: Fold, s: string, t: string, i: nat)
    requires i <= |t|
    ensures Matches(fold, EscapeLike(s) + "%", t[i..]) <==> OccursAt(fold, s, t, i)
  {
    hide Matches, EscapeLike;
    EscapedMatchesItself(fold, s, "%", t[i..]);
    assert i + |s| <= |t| ==> t[i..][..|s|] == t[i..i + |s|];
    if i + |s| <= |t| {
      PercentMatchesAll(fold, t[i..][|s|..]);
    }
  }

  /** The pattern built for `contains` and for search matches exactly the texts in which the value occurs literally. */
  lemma EscapedPatternIsContainment(fold: Fold, s: string, t: string)
    ensures Matches(fold, "%" + EscapeLike(s) + "%", t) <==> exists i: nat :: OccursAt(fold, s, t, i)
  {
    hide Matches, EscapeLike, SameFolded;
    var pattern := EscapeLike(s) + "%";
    assert "%" + EscapeLike(s) + "%" == "%" + pattern;
    PercentSearches(fold, pattern, t);
    forall i: nat | i <= |t| ensures Matches(fold, pattern, t[i..]) <==> OccursAt(fold, s, t, i) {
      EscapedMatchesAt(fold, s, t, i);
    }
    if exists i: nat :: OccursAt(fold, s, t, i) {
      var i: nat :| OccursAt(fold, s, t, i);
      assert Matches(fold, pattern, t[i..]);
    }
    if Matches(fold, "%" + EscapeLike(s) + "%", t) {
      var i :| 0 <= i <= |t| && Matches(fold, pattern, t[i..]);
      assert OccursAt(fold, s, t, i);
    }
  }

  /** Without the escaping, a value with a wildcard would match more than itself. */
  lemma {:induction false} UnescapedWildcardsMatchMore(fold: Fold)
    requires fold('a') != fold('%')
    ensures Matches(fold, "%" + "%" + "%", "a") && !exists i: nat :: OccursAt(fold, "%", "a", i)
  {
    assert "%" + "%" + "%" == "%%%" && "%%%"[1..] == "%%" && "%%"[1..] == "%";
    PercentMatchesAll(fold, "a");
    assert Matches(fold, "%%", "a");
    forall i: nat ensures !OccursAt(fold, "%", "a", i) {
      if i == 0 {
        assert "a"[0..1] == "a" && !SameFolded(fold, "%", "a");
      }
    }
  }
}
