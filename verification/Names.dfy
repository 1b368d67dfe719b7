/** The name grammar of generate/schema.go: words, snake case, exported names and plurals,
    over ASCII text. */
module Names {
  import opened Text

  predicate IsAscii(s: string) {
    forall i :: 0 <= i < |s| ==> s[i] < '\U{0080}'
  }

  type Ascii = s: string | IsAscii(s)

  predicate IsUpper(c: char) { 'A' <= c <= 'Z' }

  predicate IsLower(c: char) { 'a' <= c <= 'z' }

  predicate IsDigit(c: char) { '0' <= c <= '9' }

  predicate IsWordChar(c: char) { IsUpper(c) || IsLower(c) || IsDigit(c) }

  function ToLower(c: char): char {
    if IsUpper(c) then (c as int + 32) as char else c
  }

  function ToUpper(c: char): char {
    if IsLower(c) then (c as int - 32) as char else c
  }

  /** A word as `wordsOf` returns it: not empty, lower-case letters and digits. */
  predicate IsWord(w: string) {
    w != "" && forall i :: 0 <= i < |w| ==> IsLower(w[i]) || IsDigit(w[i])
  }

  predicate AllWords(words: seq<string>) {
    forall i :: 0 <= i < |words| ==> IsWord(words[i])
  }

  function Flush(current: string): seq<string> {
    if current == "" then [] else [current]
  }

  /** Whether an upper-case letter at the front of `s`, after `previous`, starts a new word. */
  predicate Breaks(previous: char, s: string)
    requires s != ""
  {
    IsUpper(s[0]) && (IsLower(previous) || IsDigit(previous) || (|s| > 1 && IsLower(s[1])))
  }

  /** The words of `s` when `current` has been collected and `previous` is the character before `s`. */
  function Words(previous: char, s: string, current: string): seq<string>
    decreases |s|
  {
    if s == "" then Flush(current)
    else if !IsWordChar(s[0]) then Flush(current) + Words(s[0], s[1..], "")
    else if current != "" && Breaks(previous, s) then Flush(current) + Words(s[0], s[1..], [ToLower(s[0])])
    else Words(s[0], s[1..], current + [ToLower(s[0])])
  }

  /** The specification of `wordsOf`. */
  function WordsOf(raw: Ascii): seq<string> {
    Words(' ', Trim(raw), "")
  }

  lemma TrimAscii(raw: string)
    requires IsAscii(raw)
    ensures IsAscii(Trim(raw))
  {
    var left, right := TrimSplit(raw);
    assert forall i :: 0 <= i < |Trim(raw)| ==> Trim(raw)[i] == raw[|left| + i];
  }

  /** One iteration of the loop, `found` being the words so far. */
  lemma NextWord(found: seq<string>, previous: char, s: string, current: string)
    requires s != ""
    ensures found + Words(previous, s, current) ==
            if !IsWordChar(s[0]) then found + Flush(current) + Words(s[0], s[1..], "")
            else if current != "" && Breaks(previous, s)
            then found + Flush(current) + Words(s[0], s[1..], [ToLower(s[0])])
            else found + Words(s[0], s[1..], current + [ToLower(s[0])])
  {
  }

  lemma NoMoreWords(previous: char, current: string)
    ensures Words(previous, "", current) == Flush(current)
  {
  }

  method WordsOfLoop(raw: Ascii) returns (result: seq<string>)
    ensures result == WordsOf(raw)
  {
    var characters := Trim(raw);
    result := [];
    var current := "";
    var index := 0;
    ghost var before := ' ';
    assert characters[0..] == characters;
    hide Words, ToLower, Trim;
    while index < |characters|
      invariant 0 <= index <= |characters|
      invariant index == 0 ==> current == ""
      invariant index > 0 ==> before == characters[index - 1]
      invariant WordsOf(raw) == result + Words(before, characters[index..], current)
    {
      var character := characters[index];
      NextWord(result, before, characters[index..], current);
      assert characters[index..][1..] == characters[index + 1..];
      assert "" + [ToLower(character)] == [ToLower(character)];
      assert result + Flush("") == result;
      if !IsWordChar(character) {
        if current != "" {
          result := result + [current];
          current := "";
        }
        index, before := index + 1, character;
        continue;
      }
      if current != "" && IsUpper(character) {
        var previous := characters[index - 1];
        var nextLower := index + 1 < |characters| && IsLower(characters[index + 1]);
        if IsLower(previous) || IsDigit(previous) || nextLower {
          result := result + [current];
          current := "";
        }
      }
      current := current + [ToLower(character)];
      index, before := index + 1, character;
    }
    NoMoreWords(before, current);
    assert characters[index..] == "";
    if current != "" {
      result := result + [current];
    }
  }

  // ---- Names

  datatype Name = Name(singular: string, snake: string, plural: string, table: string)

  function Capital(word: string): (capital: string)
    requires word != ""
    ensures |capital| == |word|
  {
    [ToUpper(word[0])] + word[1..]
  }

  /** `exportedName`. */
  function Exported(words: seq<string>): string
    requires AllWords(words)
  {
    if words == [] then "" else Capital(words[0]) + Exported(words[1..])
  }

  predicate EndsWith(s: string, suffix: string) {
    |suffix| <= |s| && s[|s| - |suffix|..] == suffix
  }

  /** `pluralize`. */
  function Pluralize(value: string): string {
    if EndsWith(value, "y") && |value| > 1 && value[|value| - 2] !in "aeiou" then value[..|value| - 1] + "ies"
    else if EndsWith(value, "s") || EndsWith(value, "x") || EndsWith(value, "z")
            || EndsWith(value, "ch") || EndsWith(value, "sh") then value + "es"
    else value + "s"
  }

  /** `^[A-Z][A-Za-z0-9]*$`. */
  predicate IsGoName(s: string) {
    s != "" && IsUpper(s[0]) && forall i :: 0 <= i < |s| ==> IsWordChar(s[i])
  }

  function NameOf(words: seq<string>): Name
    requires AllWords(words)
  {
    var snake := Join(words, "_");
    JoinedWordsAscii(words);
    WordsAreWords(' ', Trim(Pluralize(snake)), "");
    Name(Exported(words), snake, Exported(WordsOf(Pluralize(snake))), Pluralize(snake))
  }

  /** `ParseName`; `None` is its error. */
  function ParseName(raw: Ascii): Option<Name> {
    TrimAscii(raw);
    WordsAreWords(' ', Trim(raw), "");
    var words := WordsOf(raw);
    if words == [] || !IsGoName(Exported(words)) then None else Some(NameOf(words))
  }

  // ---- Laws of words

  lemma {:induction false} WordsAreWords(previous: char, s: string, current: string)
    requires current == "" || IsWord(current)
    ensures AllWords(Words(previous, s, current))
    decreases |s|
  {
    if s != "" {
      var c := [ToLower(s[0])];
      WordsAreWords(s[0], s[1..], "");
      if IsWordChar(s[0]) {
        WordsAreWords(s[0], s[1..], c);
        WordsAreWords(s[0], s[1..], current + c);
      }
    }
  }

  function LowerLetters(s: string): string {
    if s == "" then "" else (if IsWordChar(s[0]) then [ToLower(s[0])] else "") + LowerLetters(s[1..])
  }

  function Concat(words: seq<string>): string {
    if words == [] then "" else words[0] + Concat(words[1..])
  }

  /** Splitting into words loses no letter or digit, adds none and keeps their order. */
  lemma {:induction false} WordsConserve(previous: char, s: string, current: string)
    ensures Concat(Words(previous, s, current)) == current + LowerLetters(s)
    decreases |s|
  {
    if s == "" {
      assert current + "" == current;
      if current != "" {
        assert [current][1..] == [] && current + "" == current;
      }
    } else {
      var c := [ToLower(s[0])];
      if !IsWordChar(s[0]) {
        WordsConserve(s[0], s[1..], "");
        ConcatFlush(current, Words(s[0], s[1..], ""));
        assert "" + LowerLetters(s[1..]) == LowerLetters(s[1..]);
      } else if current != "" && Breaks(previous, s) {
        WordsConserve(s[0], s[1..], c);
        ConcatFlush(current, Words(s[0], s[1..], c));
      } else {
        WordsConserve(s[0], s[1..], current + c);
        assert current + c + LowerLetters(s[1..]) == current + (c + LowerLetters(s[1..]));
      }
    }
  }

  lemma ConcatFlush(current: string, words: seq<string>)
    ensures Concat(Flush(current) + words) == current + Concat(words)
  {
    if current == "" {
      assert Flush(current) + words == words;
    } else {
      assert (Flush(current) + words)[1..] == words;
    }
  }

  lemma {:induction false} JoinedWordsAscii(words: seq<string>)
    requires AllWords(words)
    ensures IsAscii(Join(words, "_")) && IsAscii(Pluralize(Join(words, "_")))
    ensures IsAscii(Trim(Pluralize(Join(words, "_"))))
  {
    JoinedChars(words);
    TrimAscii(Pluralize(Join(words, "_")));
  }

  predicate IsSnakeChar(c: char) { IsLower(c) || IsDigit(c) || c == '_' }

  lemma {:induction false} JoinedChars(words: seq<string>)
    requires AllWords(words)
    ensures forall i :: 0 <= i < |Join(words, "_")| ==> IsSnakeChar(Join(words, "_")[i])
  {
    if words != [] {
      JoinedChars(words[1..]);
    }
  }

  // ---- Snake case parses back

  lemma {:induction false} WordsLower(previous: char, w: string, rest: string, current: string)
    requires w == "" || IsWord(w)
    ensures Words(previous, w + rest, current)
            == Words(if w == "" then previous else w[|w| - 1], rest, current + w)
    decreases |w|
  {
    if w == "" {
      assert w + rest == rest && current + w == current;
    } else {
      assert (w + rest)[0] == w[0] && (w + rest)[1..] == w[1..] + rest;
      assert w[1..] != "" ==> w[1..][|w[1..]| - 1] == w[|w| - 1];
      WordsLower(w[0], w[1..], rest, current + [w[0]]);
      assert current + [w[0]] + w[1..] == current + w;
    }
  }

  lemma {:induction false} WordsOfSnake(previous: char, words: seq<string>)
    requires AllWords(words)
    ensures Words(previous, Join(words, "_"), "") == words
    decreases |words|
  {
    if |words| == 1 {
      var w := words[0];
      WordsLower(previous, w, "", "");
      assert w + "" == w && "" + w == w;
    } else if |words| > 1 {
      var w, rest := words[0], Join(words[1..], "_");
      assert Join(words, "_") == w + ("_" + rest) && ("_" + rest)[1..] == rest;
      WordsLower(previous, w, "_" + rest, "");
      assert "" + w == w;
      WordsOfSnake('_', words[1..]);
      assert [w] + words[1..] == words;
    }
  }

  lemma SnakeIsTrimmed(words: seq<string>)
    requires AllWords(words)
    ensures Trim(Join(words, "_")) == Join(words, "_")
  {
    JoinedChars(words);
    var s := Join(words, "_");
    assert "" + s + "" == s;
    TrimUnique("", s, "");
  }

  /** The snake name of every accepted name parses to that name again. */
  lemma ParseSnake(raw: Ascii)
    requires ParseName(raw).Some?
    ensures IsAscii(ParseName(raw).value.snake)
    ensures ParseName(ParseName(raw).value.snake) == ParseName(raw)
  {
    hide Words, Exported, Pluralize;
    TrimAscii(raw);
    WordsAreWords(' ', Trim(raw), "");
    var words := WordsOf(raw);
    JoinedWordsAscii(words);
    SnakeIsTrimmed(words);
    WordsOfSnake(' ', words);
  }

  // ---- Exported names parse back exactly when their words stay apart

  /** Whether the capital of `word` starts a new word after `before` in an exported name. */
  predicate Apart(before: string, word: string)
    requires before != "" && word != ""
  {
    IsLower(word[0]) && (|before| > 1 || IsDigit(before[0]) || (|word| > 1 && IsLower(word[1])))
  }

  /** Every word begins with a letter and no one-letter word is directly followed by a word that
      is one character long or has a digit second. */
  predicate Separable(words: seq<string>)
    requires AllWords(words)
  {
    forall i :: 0 < i < |words| ==> Apart(words[i - 1], words[i])
  }

  function Last(s: string): char
    requires s != ""
  {
    s[|s| - 1]
  }

  lemma BreaksIsApart(before: string, words: seq<string>)
    requires AllWords(words) && words != [] && IsWord(before)
    ensures Exported(words) != ""
    ensures Breaks(Last(Capital(before)), Exported(words)) <==> Apart(before, words[0])
  {
    var s, w := Exported(words), words[0];
    assert s[0] == ToUpper(w[0]);
    if |w| > 1 {
      assert s[1] == w[1];
    } else if |words| > 1 {
      assert s[1] == Capital(words[1])[0] == ToUpper(words[1][0]);
    }
    assert Last(Capital(before)) == if |before| > 1 then Last(before) else ToUpper(before[0]);
  }

  /** The words found in an exported name, `current` being collected after the word `before`. */
  function Regroup(before: string, current: string, words: seq<string>): (groups: seq<string>)
    requires AllWords(words) && IsWord(before) && current != ""
    ensures |groups| <= 1 + |words|
    decreases |words|
  {
    if words == [] then [current]
    else if Apart(before, words[0]) then [current] + Regroup(words[0], words[0], words[1..])
    else Regroup(words[0], current + words[0], words[1..])
  }

  /** Reading one capitalised word, which starts a new word or continues `current`. */
  lemma WordsOfCapital(previous: char, w: string, rest: string, current: string)
    requires IsWord(w)
    ensures var s := Capital(w) + rest;
            Words(previous, s, current) ==
            if current != "" && Breaks(previous, s) then [current] + Words(Last(Capital(w)), rest, w)
            else Words(Last(Capital(w)), rest, current + w)
  {
    hide Words, Breaks;
    var s := Capital(w) + rest;
    assert s == [ToUpper(w[0])] + (w[1..] + rest) && s[1..] == w[1..] + rest;
    assert ToLower(s[0]) == w[0] && IsWordChar(s[0]);
    assert Last(Capital(w)) == if w[1..] == "" then s[0] else w[1..][|w[1..]| - 1];
    NextWord([], previous, s, current);
    WordsLower(s[0], w[1..], rest, [w[0]]);
    WordsLower(s[0], w[1..], rest, current + [w[0]]);
    assert [w[0]] + w[1..] == w && current + [w[0]] + w[1..] == current + w;
    assert [] + Words(previous, s, current) == Words(previous, s, current);
    assert [] + Words(s[0], s[1..], current + [w[0]]) == Words(s[0], s[1..], current + [w[0]]);
  }

  lemma {:induction false} WordsOfExported(before: string, current: string, words: seq<string>)
    requires AllWords(words) && IsWord(before) && current != ""
    ensures Words(Last(Capital(before)), Exported(words), current) == Regroup(before, current, words)
    decreases |words|
  {
    hide Words, Breaks, Apart, Capital;
    if words != [] {
      var w := words[0];
      BreaksIsApart(before, words);
      WordsOfCapital(Last(Capital(before)), w, Exported(words[1..]), current);
      WordsOfExported(w, if Apart(before, w) then w else current + w, words[1..]);
    } else {
      NoMoreWords(Last(Capital(before)), current);
    }
  }

  lemma {:induction false} RegroupKeeps(before: string, current: string, words: seq<string>)
    requires AllWords(words) && IsWord(before) && current != ""
    ensures Separable([before] + words) ==> Regroup(before, current, words) == [current] + words
    ensures !Separable([before] + words) ==> |Regroup(before, current, words)| < 1 + |words|
    decreases |words|
  {
    hide Apart, Separable;
    if words == [] {
      AloneIsSeparable(before);
    } else {
      assert [words[0]] + words[1..] == words;
      SeparableStep(before, words);
      RegroupKeeps(words[0], words[0], words[1..]);
    }
  }

  lemma AloneIsSeparable(word: string)
    requires IsWord(word)
    ensures Separable([word] + [])
  {
  }

  lemma SeparableStep(before: string, words: seq<string>)
    requires AllWords(words) && IsWord(before) && words != []
    ensures Separable([before] + words) <==> Apart(before, words[0]) && Separable(words)
  {
    var all := [before] + words;
    if Separable(all) {
      assert Apart(all[0], all[1]);
      forall i | 0 < i < |words| ensures Apart(words[i - 1], words[i]) {
        assert Apart(all[i], all[i + 1]);
      }
    }
    if Apart(before, words[0]) && Separable(words) {
      forall i | 0 < i < |all| ensures Apart(all[i - 1], all[i]) {
        if i > 1 {
          assert Apart(words[i - 2], words[i - 1]);
        }
      }
    }
  }

  lemma ExportedWords(words: seq<string>)
    requires AllWords(words) && words != [] && IsGoName(Exported(words))
    ensures Words(' ', Exported(words), "") == Regroup(words[0], words[0], words[1..])
  {
    hide Words, Breaks, Capital;
    var w := words[0];
    WordsOfCapital(' ', w, Exported(words[1..]), "");
    assert "" + w == w;
    WordsOfExported(w, w, words[1..]);
  }

  lemma {:induction false} ExportedChars(words: seq<string>)
    requires AllWords(words)
    ensures forall i :: 0 <= i < |Exported(words)| ==> IsWordChar(Exported(words)[i])
  {
    if words != [] {
      ExportedChars(words[1..]);
    }
  }

  lemma GoNameIsAscii(s: string)
    requires IsGoName(s)
    ensures IsAscii(s) && Trim(s) == s
  {
    assert "" + s + "" == s;
    TrimUnique("", s, "");
  }

  /** Joining words with underscores can be undone, so equal snake names have equal words. */
  lemma SnakeInjective(a: seq<string>, b: seq<string>)
    requires AllWords(a) && AllWords(b) && Join(a, "_") == Join(b, "_")
    ensures a == b
  {
    WordsOfSnake(' ', a);
    WordsOfSnake(' ', b);
  }

  /** Parsing the exported name of an accepted name again gives the same name exactly when its words stay apart. */
  lemma ParseSingular(raw: Ascii)
    requires ParseName(raw).Some?
    ensures IsAscii(ParseName(raw).value.singular)
    ensures AllWords(WordsOf(raw))
    ensures ParseName(ParseName(raw).value.singular) == ParseName(raw) <==> Separable(WordsOf(raw))
  {
    hide Words, Exported, Pluralize, Regroup, Separable;
    TrimAscii(raw);
    WordsAreWords(' ', Trim(raw), "");
    var words := WordsOf(raw);
    var singular := Exported(words);
    GoNameIsAscii(singular);
    ExportedWords(words);
    RegroupKeeps(words[0], words[0], words[1..]);
    assert [words[0]] + words[1..] == words;
    var again := WordsOf(singular);
    WordsAreWords(' ', Trim(singular), "");
    if again != words && again != [] && IsGoName(Exported(again)) {
      assert NameOf(again).snake != NameOf(words).snake by {
        if Join(again, "_") == Join(words, "_") {
          SnakeInjective(again, words);
        }
      }
    }
  }

  lemma ParseWords(words: seq<string>)
    requires AllWords(words) && words != [] && IsGoName(Exported(words))
    ensures IsAscii(Join(words, "_")) && WordsOf(Join(words, "_")) == words
    ensures ParseName(Join(words, "_")) == Some(NameOf(words))
  {
    hide Words, Exported, Pluralize;
    JoinedWordsAscii(words);
    SnakeIsTrimmed(words);
    WordsOfSnake(' ', words);
  }

  /** The condition fails for a real name. Both lists of words make acceptable names with the Go name
      `Foo1`; the first has table `foo_1s`, and reading its marker back gives the second, with table `foo1s`. */
  lemma NumberedNameIsNotRestored(n: Name, m: Name)
    requires n == NameOf(["foo", "1"]) && m == NameOf(["foo1"])
    ensures IsAscii(n.snake) && ParseName(n.snake) == Some(n)
    ensures IsAscii(n.singular) && ParseName(n.singular) == Some(m) && n.table != m.table
  {
    hide Words, NameOf, ParseName, WordsOf, Pluralize;
    var first, second := ["foo", "1"], ["foo1"];
    assert first[1..] == ["1"] && Exported(["1"]) == "1" && Exported(first) == "Foo1";
    assert second[1..] == [] && Exported(second) == "Foo1";
    assert Join(first, "_") == "foo_1" && Join(second, "_") == "foo1";
    ParseWords(first);
    ParseWords(second);
    NameParts(first);
    NameParts(second);
    assert Separable(second);
    ParseSingular(m.snake);
    PluralOfOne("foo_1");
    PluralOfOne("foo1");
  }

  lemma PluralOfOne(value: string)
    requires value != "" && value[|value| - 1] == '1'
    ensures |Pluralize(value)| == |value| + 1
  {
    assert forall suffix: string | suffix in ["y", "s", "x", "z", "ch", "sh"] ::
        suffix[|suffix| - 1] != '1' && (|suffix| <= |value| ==> value[|value| - |suffix|..][|suffix| - 1] == '1');
  }

  lemma NameParts(words: seq<string>)
    requires AllWords(words)
    ensures NameOf(words).singular == Exported(words) && NameOf(words).snake == Join(words, "_")
    ensures NameOf(words).table == Pluralize(Join(words, "_"))
  {
  }

  // ---- Plurals

  /** How a plural is formed, by the ending: a `y` after a consonant becomes `ies`, a hissing ending takes `es`, and anything
      else, also a `y` after a vowel, takes `s`. */
  lemma PluralsByEnding(stem: string, c: char)
    ensures c in "aeiou" ==> Pluralize(stem + [c] + "y") == stem + [c] + "ys"
    ensures c !in "aeiou" ==> Pluralize(stem + [c] + "y") == stem + [c] + "ies"
    ensures c in "sxz" ==> Pluralize(stem + [c]) == stem + [c] + "es"
    ensures Pluralize(stem + "ch") == stem + "ches" && Pluralize(stem + "sh") == stem + "shes"
    ensures c !in "ysxzh" ==> Pluralize(stem + [c]) == stem + [c] + "s"
    ensures c !in "cs" ==> Pluralize(stem + [c] + "h") == stem + [c] + "hs"
  {
    PluralOfY(stem, c);
    PluralOfHiss(stem, c);
    PluralOfH(stem, c);
  }

  lemma PluralOfY(stem: string, c: char)
    ensures Pluralize(stem + [c] + "y") == if c in "aeiou" then stem + [c] + "ys" else stem + [c] + "ies"
  {
    var s := stem + [c] + "y";
    assert s[|s| - 2] == c && s[..|s| - 1] == stem + [c] && s[|s| - 1..] == "y";
    assert !EndsWith(s, "s") && !EndsWith(s, "x") && !EndsWith(s, "z");
    assert s[|s| - 2..] == [c] + "y" && ([c] + "y")[1] == 'y';
    assert s + "s" == stem + [c] + "ys";
  }

  lemma PluralOfHiss(stem: string, c: char)
    ensures c in "sxz" ==> Pluralize(stem + [c]) == stem + [c] + "es"
    ensures c !in "ysxzh" ==> Pluralize(stem + [c]) == stem + [c] + "s"
  {
    var s := stem + [c];
    assert s[|s| - 1..] == [c];
    assert |s| >= 2 ==> s[|s| - 2..][1] == c;
  }

  lemma PluralOfH(stem: string, c: char)
    ensures Pluralize(stem + "ch") == stem + "ches" && Pluralize(stem + "sh") == stem + "shes"
    ensures c !in "cs" ==> Pluralize(stem + [c] + "h") == stem + [c] + "hs"
  {
    var a, b, d := stem + "ch", stem + "sh", stem + [c] + "h";
    assert a[|a| - 2..] == "ch" && a[|a| - 1..] == "h" && a + "es" == stem + "ches";
    assert b[|b| - 2..] == "sh" && b[|b| - 1..] == "h" && b + "es" == stem + "shes";
    assert d[|d| - 2..] == [c] + "h" && d[|d| - 1..] == "h" && ([c] + "h")[0] == c && d + "s" == stem + [c] + "hs";
  }
}
