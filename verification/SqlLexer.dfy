/** The PostgreSQL lexical subset that the migration splitter recognises
    (PostgreSQL manual, sections 4.1.2.1, 4.1.2.4 and 4.1.5), as a function from
    the text to the extent of its first lexeme. Block comments do not nest,
    strings have no backslash escapes, and a dollar tag may begin with a digit. */
module SqlLexer {
  import opened Text

  /** The length of a lexeme, or `Open` when the text ends inside it. */
  datatype Extent = Closed(length: nat) | Open

  function Shift(n: nat, extent: Extent): Extent {
    if extent.Closed? then Closed(n + extent.length) else Open
  }

  predicate IsTagChar(c: char) {
    c == '_' || 'a' <= c <= 'z' || 'A' <= c <= 'Z' || '0' <= c <= '9'
  }

  predicate IsQuote(c: char) {
    c == '\'' || c == '"'
  }

  /** After `--`: up to and including the newline, or to the end of the text. */
  function LineBody(s: string): (n: nat)
    ensures n <= |s|
  {
    if s == "" then 0 else if s[0] == '\n' then 1 else 1 + LineBody(s[1..])
  }

  /** After a slash and a star: up to and including the first closer. */
  function BlockBody(s: string): (e: Extent)
    ensures e.Closed? ==> 2 <= e.length <= |s|
  {
    if |s| < 2 then Open
    else if s[0] == '*' && s[1] == '/' then Closed(2)
    else Shift(1, BlockBody(s[1..]))
  }

  /** After an opening quote: up to and including its closer; a doubled quote does not close. */
  function QuoteBody(q: char, s: string): (e: Extent)
    ensures e.Closed? ==> 1 <= e.length <= |s|
  {
    if s == "" then Open
    else if s[0] != q then Shift(1, QuoteBody(q, s[1..]))
    else if |s| > 1 && s[1] == q then Shift(2, QuoteBody(q, s[2..]))
    else Closed(1)
  }

  /** After an opening dollar tag: up to and including the next copy of the tag. */
  function DollarBody(tag: string, s: string): (e: Extent)
    ensures e.Closed? ==> |tag| <= e.length <= |s|
  {
    if tag <= s then Closed(|tag|)
    else if s == "" then Open
    else Shift(1, DollarBody(tag, s[1..]))
  }

  /** The number of tag characters `s` begins with. */
  function TagRun(s: string): (n: nat)
    ensures n <= |s| && (n < |s| ==> !IsTagChar(s[n]))
    ensures forall i :: 0 <= i < n ==> IsTagChar(s[i])
  {
    if s == "" || !IsTagChar(s[0]) then 0 else 1 + TagRun(s[1..])
  }

  /** Whether `s` begins with a dollar tag, `$`, tag characters, `$`. */
  predicate StartsTag(s: string) {
    s != "" && s[0] == '$' && 1 + TagRun(s[1..]) < |s| && s[1 + TagRun(s[1..])] == '$'
  }

  function Tag(s: string): (tag: string)
    requires StartsTag(s)
    ensures 2 <= |tag| <= |s| && tag <= s && tag[0] == '$' && tag[|tag| - 1] == '$'
    ensures forall i :: 0 < i < |tag| - 1 ==> IsTagChar(tag[i])
  {
    s[..TagRun(s[1..]) + 2]
  }

  /** The first lexeme of a non-empty text outside every quote and comment. */
  function Lexeme(s: string): (e: Extent)
    requires s != ""
    ensures e.Closed? ==> 1 <= e.length <= |s|
  {
    if "--" <= s then Closed(2 + LineBody(s[2..]))
    else if "/*" <= s then Shift(2, BlockBody(s[2..]))
    else if IsQuote(s[0]) then Shift(1, QuoteBody(s[0], s[1..]))
    else if StartsTag(s) then Shift(|Tag(s)|, DollarBody(Tag(s), s[|Tag(s)|..]))
    else Closed(1)
  }

  lemma LexemeOfSemicolon(s: string)
    requires s != "" && s[0] == ';'
    ensures Lexeme(s) == Closed(1)
  {
    assert !("--" <= s) && !("/*" <= s) && !StartsTag(s);
  }

  lemma LexemeOfTag(s: string)
    requires StartsTag(s)
    ensures Lexeme(s) == Shift(|Tag(s)|, DollarBody(Tag(s), s[|Tag(s)|..]))
  {
    assert !("--" <= s) && !("/*" <= s);
  }

  datatype Outcome = Statements(list: seq<string>) | Unterminated | MissingSemicolon

  /** The statements `before` followed by those of `outcome`; a blank statement is dropped. */
  function Prepend(before: seq<string>, outcome: Outcome): Outcome {
    if outcome.Statements? then Statements(before + outcome.list) else outcome
  }

  function Keep(segment: string): seq<string> {
    if Trim(segment) == "" then [] else [Trim(segment)]
  }

  /** Splits `s` lexeme by lexeme at its bare semicolons; `pending` is the text of the open segment. */
  function Split(pending: string, s: string): Outcome
    decreases |s|
  {
    if s == "" then
      if Trim(pending) == "" then Statements([]) else MissingSemicolon
    else
      match Lexeme(s)
      case Open => Unterminated
      case Closed(n) =>
        if s[0] == ';' then Prepend(Keep(pending), Split("", s[1..]))
        else Split(pending + s[..n], s[n..])
  }

  lemma SplitStep(pending: string, s: string, n: nat)
    requires s != "" && s[0] != ';' && Lexeme(s) == Closed(n)
    ensures Split(pending, s) == Split(pending + s[..n], s[n..])
  {
  }

  lemma SplitCut(pending: string, rest: string)
    ensures Split(pending, ";" + rest) == Prepend(Keep(pending), Split("", rest))
  {
    var s := ";" + rest;
    assert s[0] == ';' && s[1..] == rest;
    LexemeOfSemicolon(s);
  }

  lemma SplitSeparator(pending: string, c: char, rest: string)
    requires IsSpace(c)
    ensures Split(pending, [c] + rest) == Split(pending + [c], rest)
  {
    assert ([c] + rest)[0] == c && Lexeme([c] + rest) == Closed(1);
    assert ([c] + rest)[..1] == [c] && ([c] + rest)[1..] == rest;
  }

  /** The specification of splitting a whole source. */
  function SplitAll(source: string): Outcome {
    Split("", source)
  }
}
