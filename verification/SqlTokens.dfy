/** What a migration script consists of, said without the lexer: tokens with their literal openers and closers. Every text
    is the text of some tokens, and its tokens alone decide how it is split. */
module SqlTokens {
  import opened Text
  import opened SqlLexer
  import opened SqlRoundTrip

  datatype Token =
    | Plain(c: char)
    | Semicolon
    | Quoted(quote: char, text: string)
    | Dollar(name: string, text: string)
    | LineComment(text: string)
    | BlockComment(text: string)

  /** How a text ends: between tokens, or inside one that nothing closes. */
  datatype Ending = Done | OpenLine(text: string) | OpenBlock(text: string) | OpenQuote(quote: char, text: string) | OpenDollar(name: string, text: string)

  /** Every quote in a quoted text is written twice. */
  function Doubled(quote: char, text: string): string {
    if text == "" then "" else (if text[0] == quote then [quote, quote] else [text[0]]) + Doubled(quote, text[1..])
  }

  function Delimiter(name: string): string {
    "$" + name + "$"
  }

  function Written(token: Token): string {
    match token
    case Plain(c) => [c]
    case Semicolon => ";"
    case Quoted(quote, text) => [quote] + Doubled(quote, text) + [quote]
    case Dollar(name, text) => Delimiter(name) + text + Delimiter(name)
    case LineComment(text) => "--" + text + "\n"
    case BlockComment(text) => "/*" + text + "*/"
  }

  function WrittenEnding(ending: Ending): string {
    match ending
    case Done => ""
    case OpenLine(text) => "--" + text
    case OpenBlock(text) => "/*" + text
    case OpenQuote(quote, text) => [quote] + Doubled(quote, text)
    case OpenDollar(name, text) => Delimiter(name) + text
  }

  /** The text of some tokens and an ending. */
  function TextOf(tokens: seq<Token>, ending: Ending): string {
    if tokens == [] then WrittenEnding(ending) else Written(tokens[0]) + TextOf(tokens[1..], ending)
  }

  // ------------------------------------------------------------------------------------ well-formed texts

  predicate IsName(name: string) {
    forall i :: 0 <= i < |name| ==>
      name[i] == '_' || 'a' <= name[i] <= 'z' || 'A' <= name[i] <= 'Z' || '0' <= name[i] <= '9'
  }

  /** After a `$`: a name and another `$`. */
  predicate CompletesDelimiter(next: string) {
    exists k :: 0 <= k < |next| && next[k] == '$' && IsName(next[..k])
  }

  /** `text` followed by `closer` has no earlier copy of it. */
  predicate ClosesOnce(text: string, closer: string) {
    forall i :: 0 <= i < |text| ==> !(closer <= text[i..] + closer)
  }

  predicate HasNone(text: string, closer: string) {
    forall i :: 0 <= i <= |text| ==> !(closer <= text[i..])
  }

  /** The token is what it is when `next` follows it. */
  predicate Fits(token: Token, next: string) {
    match token
    case Plain(c) =>
      c != ';' && c != '\'' && c != '"'
      && !(c == '-' && "-" <= next) && !(c == '/' && "*" <= next) && !(c == '$' && CompletesDelimiter(next))
    case Semicolon => true
    case Quoted(quote, _) => (quote == '\'' || quote == '"') && !([quote] <= next)
    case Dollar(name, text) => IsName(name) && ClosesOnce(text, Delimiter(name))
    case LineComment(text) => '\n' !in text
    case BlockComment(text) => ClosesOnce(text, "*/")
  }

  predicate EndingFits(ending: Ending) {
    match ending
    case Done => true
    case OpenLine(text) => '\n' !in text
    case OpenBlock(text) => HasNone(text, "*/")
    case OpenQuote(quote, _) => quote == '\'' || quote == '"'
    case OpenDollar(name, text) => IsName(name) && HasNone(text, Delimiter(name))
  }

  predicate WellFormed(tokens: seq<Token>, ending: Ending) {
    if tokens == [] then EndingFits(ending)
    else Fits(tokens[0], TextOf(tokens[1..], ending)) && WellFormed(tokens[1..], ending)
  }

  // ------------------------------------------------------------------------------------------- the lexer

  lemma {:induction false} DoubledCloses(quote: char, text: string, next: string)
    requires !([quote] <= next)
    ensures QuoteBody(quote, Doubled(quote, text) + [quote] + next) == Closed(|Doubled(quote, text)| + 1)
  {
    var s := Doubled(quote, text) + [quote] + next;
    if text == "" {
      assert s == [quote] + next;
      assert next != "" ==> s[1] == next[0] && next[..1] == [next[0]];
    } else {
      var rest := Doubled(quote, text[1..]) + [quote] + next;
      DoubledCloses(quote, text[1..], next);
      if text[0] == quote {
        assert s == [quote, quote] + rest && s[2..] == rest;
      } else {
        assert s == [text[0]] + rest && s[1..] == rest;
      }
    }
  }

  lemma {:induction false} DoubledStaysOpen(quote: char, text: string)
    ensures QuoteBody(quote, Doubled(quote, text)) == Open
  {
    if text != "" {
      DoubledStaysOpen(quote, text[1..]);
      var s, rest := Doubled(quote, text), Doubled(quote, text[1..]);
      if text[0] == quote {
        assert s == [quote, quote] + rest && s[2..] == rest;
      } else {
        assert s == [text[0]] + rest && s[1..] == rest;
      }
    }
  }

  lemma ClosesOnceTail(text: string, closer: string)
    requires text != "" && ClosesOnce(text, closer)
    ensures ClosesOnce(text[1..], closer) && !(closer <= text + closer)
  {
    assert text[0..] == text;
    assert forall i :: 0 <= i < |text[1..]| ==> text[1..][i..] == text[i + 1..];
  }

  lemma HasNoneTail(text: string, closer: string)
    requires HasNone(text, closer)
    ensures !(closer <= text) && (text != "" ==> HasNone(text[1..], closer))
  {
    assert text[0..] == text;
    assert text != "" ==> forall i :: 0 <= i <= |text[1..]| ==> text[1..][i..] == text[i + 1..];
  }

  lemma StartsSame(closer: string, a: string, b: string)
    requires |closer| <= |a| && |closer| <= |b| && a[..|closer|] == b[..|closer|]
    ensures closer <= a <==> closer <= b
  {
  }

  lemma {:induction false} DollarCloses(tag: string, text: string, next: string)
    requires tag != "" && ClosesOnce(text, tag)
    ensures DollarBody(tag, text + tag + next) == Closed(|text| + |tag|)
  {
    var s := text + tag + next;
    if text == "" {
      assert s == tag + next;
    } else {
      ClosesOnceTail(text, tag);
      StartsSame(tag, s, text + tag);
      assert s[1..] == text[1..] + tag + next;
      DollarCloses(tag, text[1..], next);
    }
  }

  lemma {:induction false} DollarStaysOpen(tag: string, text: string)
    requires tag != "" && HasNone(text, tag)
    ensures DollarBody(tag, text) == Open
  {
    HasNoneTail(text, tag);
    if text != "" {
      DollarStaysOpen(tag, text[1..]);
    }
  }

  lemma BlockStarts(s: string)
    ensures "*/" <= s <==> |s| >= 2 && s[0] == '*' && s[1] == '/'
  {
  }

  lemma {:induction false} BlockCloses(text: string, next: string)
    requires ClosesOnce(text, "*/")
    ensures BlockBody(text + "*/" + next) == Closed(|text| + 2)
  {
    var s := text + "*/" + next;
    BlockStarts(s);
    if text == "" {
      assert s == "*/" + next;
    } else {
      ClosesOnceTail(text, "*/");
      StartsSame("*/", s, text + "*/");
      assert s[1..] == text[1..] + "*/" + next;
      BlockCloses(text[1..], next);
    }
  }

  lemma {:induction false} BlockStaysOpen(text: string)
    requires HasNone(text, "*/")
    ensures BlockBody(text) == Open
  {
    HasNoneTail(text, "*/");
    BlockStarts(text);
    if text != "" {
      BlockStaysOpen(text[1..]);
    }
  }

  lemma {:induction false} LineCloses(text: string, next: string)
    requires '\n' !in text
    ensures LineBody(text + "\n" + next) == |text| + 1 && LineBody(text) == |text|
  {
    assert text + "\n" + next == text + ("\n" + next);
    LineBodyAt(text, "\n" + next);
    LineBodyAt(text, "");
    assert text + "" == text;
  }

  lemma {:induction false} RunOfName(name: string, next: string)
    requires IsName(name) && next != "" && next[0] == '$'
    ensures TagRun(name + next) == |name|
  {
    if name == "" {
      assert name + next == next;
    } else {
      assert (name + next)[1..] == name[1..] + next;
      RunOfName(name[1..], next);
    }
  }

  lemma DelimiterStarts(name: string, next: string)
    requires IsName(name)
    ensures StartsTag(Delimiter(name) + next) && Tag(Delimiter(name) + next) == Delimiter(name)
  {
    var s := Delimiter(name) + next;
    assert s[1..] == name + ("$" + next);
    RunOfName(name, "$" + next);
    assert s[..|name| + 2] == Delimiter(name);
  }

  lemma NoDelimiterStarts(next: string)
    requires !CompletesDelimiter(next)
    ensures !StartsTag("$" + next)
  {
    var s := "$" + next;
    assert s[1..] == next;
    var k := TagRun(next);
    if k < |next| && next[k] == '$' {
      assert IsName(next[..k]);
    }
  }

  /** Each opener, written out, opens what it is said to open; and what is no opener opens nothing. */
  lemma TokenLexeme(token: Token, next: string)
    requires Fits(token, next)
    ensures Written(token) != "" && Lexeme(Written(token) + next) == Closed(|Written(token)|)
    ensures Written(token)[0] == ';' <==> token.Semicolon?
  {
    hide Lexeme, CompletesDelimiter, ClosesOnce, IsName;
    match token
    case Plain(c) => PlainLexeme(c, next);
    case Semicolon => LexemeOfSemicolon(";" + next);
    case Quoted(quote, text) => QuotedLexeme(quote, text, next);
    case Dollar(name, text) => DollarLexeme(name, text, next);
    case LineComment(text) => LineLexeme(text, next);
    case BlockComment(text) => BlockLexeme(text, next);
  }

  lemma QuotedLexeme(quote: char, text: string, next: string)
    requires (quote == '\'' || quote == '"') && !([quote] <= next)
    ensures var written := [quote] + Doubled(quote, text) + [quote];
            Lexeme(written + next) == Closed(|written|)
  {
    hide Lexeme, QuoteBody;
    var rest := Doubled(quote, text) + [quote] + next;
    DoubledCloses(quote, text, next);
    QuoteOpens(quote, rest);
    assert [quote] + Doubled(quote, text) + [quote] + next == [quote] + rest;
  }

  lemma DollarLexeme(name: string, text: string, next: string)
    requires IsName(name) && ClosesOnce(text, Delimiter(name))
    ensures var written := Delimiter(name) + text + Delimiter(name);
            Lexeme(written + next) == Closed(|written|)
  {
    hide Lexeme, DollarBody, StartsTag, Tag, ClosesOnce, IsName;
    var rest := text + Delimiter(name) + next;
    var s := Delimiter(name) + rest;
    assert s[|Delimiter(name)|..] == rest && Delimiter(name) + text + Delimiter(name) + next == s;
    DelimiterStarts(name, rest);
    LexemeOfTag(s);
    DollarCloses(Delimiter(name), text, next);
  }

  lemma LineLexeme(text: string, next: string)
    requires '\n' !in text
    ensures Lexeme("--" + text + "\n" + next) == Closed(|text| + 3)
  {
    hide Lexeme, LineBody;
    LineCloses(text, next);
    LineOpens(text + "\n" + next);
    assert "--" + text + "\n" + next == "--" + (text + "\n" + next);
  }

  lemma BlockLexeme(text: string, next: string)
    requires ClosesOnce(text, "*/")
    ensures Lexeme("/*" + text + "*/" + next) == Closed(|text| + 4)
  {
    hide Lexeme, BlockBody, ClosesOnce;
    BlockCloses(text, next);
    BlockOpens(text + "*/" + next);
    assert "/*" + text + "*/" + next == "/*" + (text + "*/" + next);
  }

  lemma PlainLexeme(c: char, next: string)
    requires Fits(Plain(c), next)
    ensures Lexeme([c] + next) == Closed(1)
  {
    var s := [c] + next;
    assert s[0] == c && s[1..] == next;
    assert next != "" ==> next[..1] == [next[0]] && s[1] == next[0];
    if c == '$' {
      NoDelimiterStarts(next);
    }
  }

  lemma QuoteOpens(quote: char, rest: string)
    requires quote == '\'' || quote == '"'
    ensures Lexeme([quote] + rest) == Shift(1, QuoteBody(quote, rest))
  {
    var s := [quote] + rest;
    assert s[0] == quote && s[1..] == rest;
  }

  lemma LineOpens(rest: string)
    ensures Lexeme("--" + rest) == Closed(2 + LineBody(rest))
  {
    assert ("--" + rest)[2..] == rest;
  }

  lemma BlockOpens(rest: string)
    ensures Lexeme("/*" + rest) == Shift(2, BlockBody(rest))
  {
    var s := "/*" + rest;
    assert s[2..] == rest && s[0] == '/';
  }

  /** A construct that is never closed is never left. */
  lemma EndingLexeme(ending: Ending)
    requires EndingFits(ending) && !ending.Done?
    ensures WrittenEnding(ending) != "" && WrittenEnding(ending)[0] != ';'
    ensures Lexeme(WrittenEnding(ending)) == if ending.OpenLine? then Closed(|WrittenEnding(ending)|) else Open
  {
    var s := WrittenEnding(ending);
    match ending
    case OpenLine(text) =>
      LineCloses(text, "");
      LineOpens(text);
    case OpenBlock(text) =>
      BlockStaysOpen(text);
      BlockOpens(text);
    case OpenQuote(quote, text) =>
      DoubledStaysOpen(quote, text);
      QuoteOpens(quote, Doubled(quote, text));
    case OpenDollar(name, text) =>
      assert s[|Delimiter(name)|..] == text;
      DelimiterStarts(name, text);
      LexemeOfTag(s);
      DollarStaysOpen(Delimiter(name), text);
  }

  // ------------------------------------------------------------------------------------ tokens, then split

  /** The texts between the semicolon tokens. */
  function Segments(tokens: seq<Token>, ending: Ending): (segments: seq<string>)
    ensures segments != []
  {
    if tokens == [] then [WrittenEnding(ending)]
    else
      var later := Segments(tokens[1..], ending);
      if tokens[0].Semicolon? then [""] + later else [Written(tokens[0]) + later[0]] + later[1..]
  }

  predicate Unclosed(ending: Ending) {
    ending.OpenBlock? || ending.OpenQuote? || ending.OpenDollar?
  }

  lemma {:induction false} PiecesOfTokens(tokens: seq<Token>, ending: Ending)
    requires WellFormed(tokens, ending)
    ensures Pieces(TextOf(tokens, ending)) == if Unclosed(ending) then None else Some(Segments(tokens, ending))
    decreases |tokens|
  {
    hide Lexeme, Fits, EndingFits, Written, WrittenEnding;
    if tokens == [] {
      PiecesOfEnding(ending);
    } else {
      var next := TextOf(tokens[1..], ending);
      var s := Written(tokens[0]) + next;
      TokenLexeme(tokens[0], next);
      PiecesOfTokens(tokens[1..], ending);
      assert s[0] == Written(tokens[0])[0] && s[..|Written(tokens[0])|] == Written(tokens[0]) && s[|Written(tokens[0])|..] == next;
    }
  }

  lemma PiecesOfEnding(ending: Ending)
    requires EndingFits(ending)
    ensures Pieces(WrittenEnding(ending)) == if Unclosed(ending) then None else Some([WrittenEnding(ending)])
  {
    hide EndingFits, WrittenEnding;
    if ending.Done? {
      NothingWritten();
    } else {
      EndingLexeme(ending);
      PiecesOfOne(WrittenEnding(ending));
    }
  }

  lemma PiecesOfOne(s: string)
    requires s != "" && s[0] != ';'
    ensures Lexeme(s) == Open ==> Pieces(s) == None
    ensures Lexeme(s) == Closed(|s|) ==> Pieces(s) == Some([s])
  {
    hide Lexeme;
    assert s[|s|..] == "" && s[..|s|] == s && s + "" == s;
    assert Pieces("") == Some([""]) && Onto(s, [""]) == [s];
  }

  /** Of the texts between the semicolons, trimmed, those that are not blank. */
  function Kept(segments: seq<string>): seq<string> {
    if segments == [] then []
    else (if Trim(segments[0]) == "" then [] else [Trim(segments[0])]) + Kept(segments[1..])
  }

  lemma {:induction false} KeptIs(segments: seq<string>)
    ensures KeepAll(segments) == Kept(segments)
  {
    hide Trim;
    if segments != [] {
      KeptIs(segments[1..]);
    }
  }

  /** The tokens of a script decide how it is split: an unclosed quote, dollar quote or block comment refuses it, text after
      the last semicolon refuses it, and otherwise the statements are the trimmed non-blank texts between the semicolons.
      Semicolons inside quotes, dollar quotes and comments count for nothing. */
  lemma TokensDecide(tokens: seq<Token>, ending: Ending)
    requires WellFormed(tokens, ending)
    ensures var segments := Segments(tokens, ending);
            SplitAll(TextOf(tokens, ending)) ==
            if Unclosed(ending) then Unterminated
            else if Trim(segments[|segments| - 1]) != "" then MissingSemicolon
            else Statements(Kept(segments[..|segments| - 1]))
  {
    hide SplitAll, Pieces, Trim, WellFormed;
    var segments := Segments(tokens, ending);
    PiecesOfTokens(tokens, ending);
    SplitAtBareSemicolons(TextOf(tokens, ending));
    KeptIs(segments[..|segments| - 1]);
  }

  // ------------------------------------------------------------------------------- every text has tokens

  lemma {:induction false} QuoteHasText(quote: char, s: string) returns (text: string)
    ensures var body := QuoteBody(quote, s);
            if body.Open? then s == Doubled(quote, text)
            else s[..body.length] == Doubled(quote, text) + [quote] && !([quote] <= s[body.length..])
    decreases |s|
  {
    hide Doubled;
    text := "";
    DoubledStep(quote, '?', "");
    if s != "" {
      if s[0] != quote {
        var rest := QuoteHasText(quote, s[1..]);
        text := [s[0]] + rest;
        DoubledStep(quote, s[0], rest);
        QuoteGrows(quote, s, 1, [s[0]], Doubled(quote, rest));
      } else if |s| > 1 && s[1] == quote {
        var rest := QuoteHasText(quote, s[2..]);
        text := [quote] + rest;
        DoubledStep(quote, quote, rest);
        QuoteGrows(quote, s, 2, [quote, quote], Doubled(quote, rest));
      } else {
        assert s[..1] == "" + [quote] && (|s| > 1 ==> s[1..][0] == s[1]);
      }
    }
  }

  lemma DoubledStep(quote: char, c: char, text: string)
    ensures Doubled(quote, "") == ""
    ensures Doubled(quote, [c] + text) == (if c == quote then [quote, quote] else [c]) + Doubled(quote, text)
  {
    assert ([c] + text)[1..] == text;
  }

  lemma QuoteGrows(quote: char, s: string, k: nat, first: string, doubled: string)
    requires k <= |s| && s[..k] == first
    requires QuoteBody(quote, s) == Shift(k, QuoteBody(quote, s[k..]))
    requires var body := QuoteBody(quote, s[k..]);
             if body.Open? then s[k..] == doubled
             else s[k..][..body.length] == doubled + [quote] && !([quote] <= s[k..][body.length..])
    ensures var body := QuoteBody(quote, s);
            if body.Open? then s == first + doubled
            else s[..body.length] == first + doubled + [quote] && !([quote] <= s[body.length..])
  {
    hide QuoteBody;
    var body := QuoteBody(quote, s[k..]);
    assert s == s[..k] + s[k..];
    if body.Closed? {
      assert s[..k + body.length] == s[..k] + s[k..][..body.length] && s[k + body.length..] == s[k..][body.length..];
    }
  }

  /** What follows an opener, up to its first closer: `n` characters that end in it, or no closer at all. */
  predicate EndsAt(s: string, closer: string, n: nat) {
    |closer| <= n <= |s| && s[..n] == s[..n - |closer|] + closer && ClosesOnce(s[..n - |closer|], closer)
  }

  lemma EndsLater(s: string, closer: string, n: nat)
    requires s != "" && !(closer <= s) && EndsAt(s[1..], closer, n)
    ensures EndsAt(s, closer, n + 1)
  {
    var text := s[1..][..n - |closer|];
    var rest := s[1..][n..];
    assert s == [s[0]] + (s[1..][..n] + rest);
    assert s[..n + 1] == [s[0]] + s[1..][..n] && s[..n + 1 - |closer|] == [s[0]] + text;
    ClosesOnceCons(s[0], text, closer, rest, s);
  }

  lemma NoneLater(s: string, closer: string)
    requires s != "" && !(closer <= s) && HasNone(s[1..], closer)
    ensures HasNone(s, closer)
  {
    assert s[0..] == s;
    forall i | 0 < i <= |s| ensures !(closer <= s[i..]) {
      assert s[i..] == s[1..][i - 1..];
    }
  }

  lemma EndsNow(s: string, closer: string)
    requires closer <= s
    ensures EndsAt(s, closer, |closer|)
  {
    assert s[..0] == "" && s[..|closer|] == "" + closer;
  }

  lemma NothingInNothing(s: string, closer: string)
    requires |s| < |closer|
    ensures HasNone(s, closer)
  {
  }

  lemma {:induction false} DollarHasText(tag: string, s: string)
    requires tag != ""
    ensures var body := DollarBody(tag, s);
            if body.Open? then HasNone(s, tag) else EndsAt(s, tag, body.length)
    decreases |s|
  {
    hide EndsAt, HasNone;
    if tag <= s {
      EndsNow(s, tag);
    } else if s == "" {
      NothingInNothing(s, tag);
    } else {
      DollarHasText(tag, s[1..]);
      var body := DollarBody(tag, s[1..]);
      if body.Closed? {
        EndsLater(s, tag, body.length);
      } else {
        NoneLater(s, tag);
      }
    }
  }

  lemma ClosesOnceCons(c: char, text: string, closer: string, rest: string, s: string)
    requires ClosesOnce(text, closer) && s == [c] + (text + closer + rest) && !(closer <= s)
    ensures ClosesOnce([c] + text, closer)
  {
    var all := [c] + text;
    forall i | 0 <= i < |all| ensures !(closer <= all[i..] + closer) {
      if i == 0 {
        StartsSame(closer, all + closer, s);
        assert all[0..] == all;
      } else {
        assert all[i..] == text[i - 1..];
      }
    }
  }

  lemma {:induction false} BlockHasText(s: string)
    ensures var body := BlockBody(s);
            if body.Open? then HasNone(s, "*/") else EndsAt(s, "*/", body.length)
    decreases |s|
  {
    hide EndsAt, HasNone;
    BlockStarts(s);
    if |s| < 2 {
      NothingInNothing(s, "*/");
    } else if "*/" <= s {
      EndsNow(s, "*/");
    } else {
      BlockHasText(s[1..]);
      var body := BlockBody(s[1..]);
      if body.Closed? {
        EndsLater(s, "*/", body.length);
      } else {
        NoneLater(s, "*/");
      }
    }
  }

  lemma {:induction false} LineHasText(s: string)
    ensures var n := LineBody(s);
            if '\n' in s then n > 0 && s[..n] == s[..n - 1] + "\n" && '\n' !in s[..n - 1]
            else n == |s|
    decreases |s|
  {
    if s != "" && s[0] != '\n' {
      LineHasText(s[1..]);
      assert s == [s[0]] + s[1..];
      if '\n' in s {
        var n := LineBody(s[1..]);
        assert s[..n + 1] == [s[0]] + s[1..][..n] && s[..n] == [s[0]] + s[1..][..n - 1];
      }
    } else if s != "" {
      assert s[..1] == "" + "\n";
    }
  }

  lemma TagHasName(s: string)
    requires StartsTag(s)
    ensures var tag := Tag(s);
            var name := tag[1..|tag| - 1];
            IsName(name) && tag == Delimiter(name)
  {
    var tag := Tag(s);
    assert tag == [tag[0]] + tag[1..|tag| - 1] + [tag[|tag| - 1]];
  }

  lemma NotCompleted(s: string)
    requires s != "" && s[0] == '$' && !StartsTag(s)
    ensures !CompletesDelimiter(s[1..])
  {
    var next := s[1..];
    if CompletesDelimiter(next) {
      var k :| 0 <= k < |next| && next[k] == '$' && IsName(next[..k]);
      assert next == next[..k] + next[k..];
      RunOfName(next[..k], next[k..]);
      assert false;
    }
  }

  /** The first token of a text, or how the text ends. */
  lemma FirstToken(s: string) returns (token: Option<Token>, ending: Ending)
    requires s != ""
    ensures if token.Some? then Written(token.value) <= s && Written(token.value) != "" && Fits(token.value, s[|Written(token.value)|..])
            else EndingFits(ending) && WrittenEnding(ending) == s
  {
    ending := Done;
    if "--" <= s {
      token, ending := FirstLine(s);
    } else if "/*" <= s {
      token, ending := FirstBlock(s);
    } else if s[0] == '\'' || s[0] == '"' {
      token, ending := FirstQuote(s);
    } else if StartsTag(s) {
      token, ending := FirstDollar(s);
    } else if s[0] == ';' {
      token := Some(Semicolon);
    } else {
      token := Some(Plain(s[0]));
      PlainFits(s);
    }
  }

  lemma PlainFits(s: string)
    requires s != "" && s[0] != ';' && s[0] != '\'' && s[0] != '"' && !("--" <= s) && !("/*" <= s) && !StartsTag(s)
    ensures Fits(Plain(s[0]), s[1..])
  {
    assert |s| > 1 ==> s[1..][..1] == [s[1]] && s[..2] == [s[0], s[1]];
    if s[0] == '$' {
      NotCompleted(s);
    }
  }

  lemma FirstLine(s: string) returns (token: Option<Token>, ending: Ending)
    requires "--" <= s
    ensures if token.Some? then Written(token.value) <= s && Written(token.value) != "" && Fits(token.value, s[|Written(token.value)|..])
            else EndingFits(ending) && WrittenEnding(ending) == s
  {
    var rest := s[2..];
    assert s == "--" + rest;
    LineHasText(rest);
    if '\n' in rest {
      var text := rest[..LineBody(rest) - 1];
      token, ending := Some(LineComment(text)), Done;
      assert rest == rest[..LineBody(rest)] + rest[LineBody(rest)..];
      assert s == "--" + text + "\n" + rest[LineBody(rest)..];
    } else {
      token, ending := None, OpenLine(rest);
    }
  }

  lemma FirstBlock(s: string) returns (token: Option<Token>, ending: Ending)
    requires "/*" <= s
    ensures if token.Some? then Written(token.value) <= s && Written(token.value) != "" && Fits(token.value, s[|Written(token.value)|..])
            else EndingFits(ending) && WrittenEnding(ending) == s
  {
    hide BlockBody, ClosesOnce, HasNone;
    var rest := s[2..];
    assert s == "/*" + rest;
    BlockHasText(rest);
    var body := BlockBody(rest);
    if body.Closed? {
      var text := rest[..body.length - 2];
      token, ending := Some(BlockComment(text)), Done;
      assert rest == rest[..body.length] + rest[body.length..];
      assert s == "/*" + text + "*/" + rest[body.length..];
    } else {
      token, ending := None, OpenBlock(rest);
    }
  }

  lemma FirstQuote(s: string) returns (token: Option<Token>, ending: Ending)
    requires s != "" && (s[0] == '\'' || s[0] == '"')
    ensures if token.Some? then Written(token.value) <= s && Written(token.value) != "" && Fits(token.value, s[|Written(token.value)|..])
            else EndingFits(ending) && WrittenEnding(ending) == s
  {
    var quote, rest := s[0], s[1..];
    assert s == [quote] + rest;
    var text := QuoteHasText(quote, rest);
    var body := QuoteBody(quote, rest);
    if body.Closed? {
      token, ending := Some(Token.Quoted(quote, text)), Done;
      assert rest == rest[..body.length] + rest[body.length..];
      assert s == [quote] + Doubled(quote, text) + [quote] + rest[body.length..];
      assert s[|Written(token.value)|..] == rest[body.length..];
    } else {
      token, ending := None, OpenQuote(quote, text);
    }
  }

  lemma FirstDollar(s: string) returns (token: Option<Token>, ending: Ending)
    requires StartsTag(s)
    ensures if token.Some? then Written(token.value) <= s && Written(token.value) != "" && Fits(token.value, s[|Written(token.value)|..])
            else EndingFits(ending) && WrittenEnding(ending) == s
  {
    hide StartsTag, Tag, TagRun, DollarBody, ClosesOnce, HasNone, IsName, Doubled, CompletesDelimiter;
    var tag := Tag(s);
    var name, rest := tag[1..|tag| - 1], s[|tag|..];
    assert s == tag + rest;
    TagHasName(s);
    DollarHasText(tag, rest);
    var body := DollarBody(tag, rest);
    if body.Closed? {
      var text := rest[..body.length - |tag|];
      token, ending := Some(Dollar(name, text)), Done;
      assert rest == rest[..body.length] + rest[body.length..];
      assert s == tag + text + tag + rest[body.length..];
    } else {
      token, ending := None, OpenDollar(name, rest);
    }
  }

  /** Every text is the text of tokens, so that `TokensDecide` speaks of all of them. */
  lemma {:induction false} EveryTextHasTokens(s: string) returns (tokens: seq<Token>, ending: Ending)
    ensures WellFormed(tokens, ending) && TextOf(tokens, ending) == s
    decreases |s|
  {
    hide Written, WrittenEnding, Fits;
    if s == "" {
      tokens, ending := [], Done;
      assert WrittenEnding(Done) == "" by { NothingWritten(); }
    } else {
      var token;
      token, ending := FirstToken(s);
      if token.None? {
        tokens := [];
      } else {
        var n := |Written(token.value)|;
        tokens, ending := EveryTextHasTokens(s[n..]);
        tokens := [token.value] + tokens;
        assert s == s[..n] + s[n..];
      }
    }
  }

  lemma NothingWritten()
    ensures WrittenEnding(Done) == ""
  {
  }
}
