/** `splitStatements` of migrate/files.go as the in-place loop it is, proved to
    compute `SqlLexer.SplitAll`. */
module SqlSplitter {
  import opened Text
  import opened SqlLexer

  /** What the loop variables say about the character at `index`. */
  datatype Mode = Normal | InLine | InBlock | InDollar(tag: string) | InQuote(quote: char)

  /** How much of `s` still belongs to the construct that `mode` is inside. */
  function Remaining(mode: Mode, s: string): (e: Extent)
    requires !mode.Normal?
    ensures e.Closed? ==> e.length <= |s|
  {
    match mode
    case InLine => Closed(LineBody(s))
    case InBlock => BlockBody(s)
    case InDollar(tag) => DollarBody(tag, s)
    case InQuote(quote) => QuoteBody(quote, s)
  }

  /** The outcome of the rest of the loop, `pending` being the open segment so far. */
  function Resume(mode: Mode, pending: string, s: string): Outcome {
    if mode.Normal? then Split(pending, s)
    else
      match Remaining(mode, s)
      case Open => Unterminated
      case Closed(n) => Split(pending + s[..n], s[n..])
  }

  /** `Resume` at a position of the source. */
  function ResumeAt(mode: Mode, source: string, start: nat, index: nat): Outcome
    requires start <= index <= |source|
  {
    Resume(mode, source[start..index], source[index..])
  }

  lemma Slices(source: string, start: nat, index: nat, k: nat, n: nat)
    requires start <= index && index + k + n <= |source|
    ensures source[start..index] + source[index..][..k] == source[start..index + k]
    ensures source[index..][k..] == source[index + k..]
    ensures source[start..index] + source[index..][..k + n] == source[start..index + k] + source[index + k..][..n]
    ensures source[index..][k + n..] == source[index + k..][n..]
  {
  }

  /** A step that stays inside a construct. */
  lemma Stay(mode: Mode, source: string, start: nat, index: nat, k: nat)
    requires !mode.Normal? && start <= index && index + k <= |source|
    requires Remaining(mode, source[index..]) == Shift(k, Remaining(mode, source[index + k..]))
    ensures ResumeAt(mode, source, start, index) == ResumeAt(mode, source, start, index + k)
  {
    hide Split, LineBody, BlockBody, DollarBody, QuoteBody;
    var rest := Remaining(mode, source[index + k..]);
    if rest.Closed? {
      Slices(source, start, index, k, rest.length);
    }
  }

  /** A step that ends a construct. */
  lemma Leave(mode: Mode, source: string, start: nat, index: nat, k: nat)
    requires !mode.Normal? && start <= index && index + k <= |source|
    requires Remaining(mode, source[index..]) == Closed(k)
    ensures ResumeAt(mode, source, start, index) == ResumeAt(Normal, source, start, index + k)
  {
    Slices(source, start, index, k, 0);
  }

  /** A step that opens a construct. */
  lemma Enter(mode: Mode, source: string, start: nat, index: nat, k: nat)
    requires !mode.Normal? && start <= index && 1 <= k && index + k <= |source|
    requires source[index] != ';'
    requires Lexeme(source[index..]) == Shift(k, Remaining(mode, source[index + k..]))
    ensures ResumeAt(Normal, source, start, index) == ResumeAt(mode, source, start, index + k)
  {
    var rest := Remaining(mode, source[index + k..]);
    if rest.Closed? {
      Slices(source, start, index, k, rest.length);
    }
  }

  /** A step over a single character outside every construct. */
  lemma Pass(source: string, start: nat, index: nat)
    requires start <= index < |source| && source[index] != ';'
    requires Lexeme(source[index..]) == Closed(1)
    ensures ResumeAt(Normal, source, start, index) == ResumeAt(Normal, source, start, index + 1)
  {
    Slices(source, start, index, 1, 0);
  }

  lemma {:induction false} Cut(source: string, start: nat, index: nat)
    requires start <= index < |source| && source[index] == ';'
    ensures ResumeAt(Normal, source, start, index)
            == Prepend(Keep(source[start..index]), ResumeAt(Normal, source, index + 1, index + 1))
  {
    Slices(source, start, index, 1, 0);
    assert source[index + 1..index + 1] == "";
  }

  lemma PrependTwice(a: seq<string>, b: seq<string>, outcome: Outcome)
    ensures Prepend(a, Prepend(b, outcome)) == Prepend(a + b, outcome)
  {
    if outcome.Statements? {
      assert a + (b + outcome.list) == (a + b) + outcome.list;
    }
  }

  /** One iteration inside a line comment. */
  lemma LineStep(source: string, start: nat, index: nat)
    requires start <= index < |source|
    ensures ResumeAt(InLine, source, start, index)
            == ResumeAt(if source[index] == '\n' then Normal else InLine, source, start, index + 1)
  {
    assert source[index..][1..] == source[index + 1..];
    if source[index] == '\n' {
      Leave(InLine, source, start, index, 1);
    } else {
      Stay(InLine, source, start, index, 1);
    }
  }

  /** The first two characters at `index`. */
  predicate Pair(source: string, index: nat, first: char, second: char) {
    index + 1 < |source| && source[index] == first && source[index + 1] == second
  }

  lemma BlockStep(source: string, start: nat, index: nat)
    requires start <= index < |source|
    ensures ResumeAt(InBlock, source, start, index)
            == if Pair(source, index, '*', '/') then ResumeAt(Normal, source, start, index + 2)
               else ResumeAt(InBlock, source, start, index + 1)
  {
    assert source[index..][1..] == source[index + 1..];
    if Pair(source, index, '*', '/') {
      Leave(InBlock, source, start, index, 2);
    } else {
      Stay(InBlock, source, start, index, 1);
    }
  }

  lemma DollarStep(source: string, start: nat, index: nat, tag: string)
    requires start <= index < |source|
    ensures ResumeAt(InDollar(tag), source, start, index)
            == if tag <= source[index..] then ResumeAt(Normal, source, start, index + |tag|)
               else ResumeAt(InDollar(tag), source, start, index + 1)
  {
    assert source[index..][1..] == source[index + 1..];
    if tag <= source[index..] {
      Leave(InDollar(tag), source, start, index, |tag|);
    } else {
      Stay(InDollar(tag), source, start, index, 1);
    }
  }

  lemma QuoteStep(source: string, start: nat, index: nat, quote: char)
    requires start <= index < |source|
    ensures ResumeAt(InQuote(quote), source, start, index)
            == if source[index] != quote then ResumeAt(InQuote(quote), source, start, index + 1)
               else if Pair(source, index, quote, quote) then ResumeAt(InQuote(quote), source, start, index + 2)
               else ResumeAt(Normal, source, start, index + 1)
  {
    if source[index] != quote {
      assert source[index..][1..] == source[index + 1..];
      Stay(InQuote(quote), source, start, index, 1);
    } else if Pair(source, index, quote, quote) {
      assert source[index..][2..] == source[index + 2..];
      Stay(InQuote(quote), source, start, index, 2);
    } else {
      Leave(InQuote(quote), source, start, index, 1);
    }
  }

  lemma OpenPair(source: string, start: nat, index: nat)
    requires start <= index < |source|
    ensures Pair(source, index, '-', '-') ==>
              ResumeAt(Normal, source, start, index) == ResumeAt(InLine, source, start, index + 2)
    ensures Pair(source, index, '/', '*') ==>
              ResumeAt(Normal, source, start, index) == ResumeAt(InBlock, source, start, index + 2)
  {
    var s := source[index..];
    if Pair(source, index, '-', '-') || Pair(source, index, '/', '*') {
      assert "--" <= s || "/*" <= s;
      assert s[2..] == source[index + 2..];
      Enter(if s[0] == '-' then InLine else InBlock, source, start, index, 2);
    }
  }

  lemma OpenQuote(source: string, start: nat, index: nat)
    requires start <= index < |source| && IsQuote(source[index])
    ensures ResumeAt(Normal, source, start, index) == ResumeAt(InQuote(source[index]), source, start, index + 1)
  {
    assert source[index..][1..] == source[index + 1..];
    Enter(InQuote(source[index]), source, start, index, 1);
  }

  lemma OpenDollar(source: string, start: nat, index: nat, tag: string)
    requires start <= index < |source| && StartsTag(source[index..]) && tag == Tag(source[index..])
    ensures index + |tag| <= |source|
    ensures ResumeAt(Normal, source, start, index) == ResumeAt(InDollar(tag), source, start, index + |tag|)
  {
    hide ResumeAt, Lexeme, DollarBody, Tag, TagRun;
    var s := source[index..];
    LexemeOfTag(s);
    assert tag[0] == s[0] == source[index];
    assert s[|tag|..] == source[index + |tag|..];
    Enter(InDollar(tag), source, start, index, |tag|);
  }

  /** A character that neither opens a construct nor is a semicolon. */
  lemma PassPlain(source: string, start: nat, index: nat)
    requires start <= index < |source| && source[index] != ';'
    requires !Pair(source, index, '-', '-') && !Pair(source, index, '/', '*')
    requires !IsQuote(source[index]) && !StartsTag(source[index..])
    ensures ResumeAt(Normal, source, start, index) == ResumeAt(Normal, source, start, index + 1)
  {
    var s := source[index..];
    assert !("--" <= s) && !("/*" <= s);
    Pass(source, start, index);
  }

  lemma NoTag(source: string, index: nat)
    requires index < |source|
    ensures source[index] != '$' ==> !StartsTag(source[index..])
  {
  }

  /** What the loop has established when it stands at `index`. */
  ghost predicate Reached(source: string, statements: seq<string>, mode: Mode, start: nat, index: nat) {
    start <= index <= |source| &&
    SplitAll(source) == Prepend(statements, ResumeAt(mode, source, start, index))
  }

  /** At most one construct is open at a time. */
  predicate AtMostOne(lineComment: bool, blockComment: bool, dollar: string, quote: char) {
    && (lineComment ==> !blockComment)
    && (lineComment || blockComment ==> dollar == "" && quote == '\0')
    && (dollar != "" ==> quote == '\0')
  }

  /** `strings.IndexByte`. */
  method IndexOf(s: string, c: char) returns (position: int)
    ensures -1 <= position < |s|
    ensures position == -1 ==> c !in s
    ensures position >= 0 ==> s[position] == c && c !in s[..position]
  {
    for i := 0 to |s|
      invariant c !in s[..i]
    {
      if s[i] == c {
        return i;
      }
    }
    return -1;
  }

  /** The tag check of the dollar branch: the text between the `$` at `index`
      and the next `$` must be made of tag characters. */
  method DollarTag(source: string, index: nat) returns (tag: string)
    requires index < |source| && source[index] == '$'
    ensures tag != "" <==> StartsTag(source[index..])
    ensures tag != "" ==> tag == Tag(source[index..])
  {
    var s := source[index..];
    tag := "";
    var end := IndexOf(source[index + 1..], '$');
    assert source[index + 1..] == s[1..];
    if end >= 0 {
      var candidate := source[index..index + end + 2];
      assert candidate == s[..end + 2];
      var valid := true;
      for i := 1 to |candidate| - 1
        invariant valid ==> forall j :: 1 <= j < i ==> IsTagChar(candidate[j])
      {
        if !IsTagChar(candidate[i]) {
          valid := false;
          assert !IsTagChar(s[1..][i - 1]);
          break;
        }
      }
      if valid {
        assert forall j :: 0 <= j < end ==> s[1..][j] == candidate[j + 1];
        assert TagRun(s[1..]) == end;
        tag := candidate;
      } else {
        assert exists i :: 0 <= i < end && !IsTagChar(s[1..][i]);
      }
    }
  }

  lemma Start(source: string)
    ensures SplitAll(source) == Prepend([], ResumeAt(Normal, source, 0, 0))
  {
    assert source[0..0] == "" && source[0..] == source;
    assert forall list: seq<string> :: [] + list == list;
  }

  lemma Stuck(source: string, start: nat, mode: Mode)
    requires start <= |source|
    ensures mode.InBlock? || mode.InQuote? || (mode.InDollar? && mode.tag != "")
            ==> ResumeAt(mode, source, start, |source|) == Unterminated
  {
  }

  lemma Finish(source: string, start: nat, lineComment: bool)
    requires start <= |source|
    ensures ResumeAt(if lineComment then InLine else Normal, source, start, |source|)
            == if Trim(source[start..]) == "" then Statements([]) else MissingSemicolon
  {
    assert source[start..|source|] == source[start..];
    assert source[|source|..] == "" && source[start..] + "" == source[start..];
  }

  /** The construct that the loop variables say is open. */
  ghost function ModeOf(lineComment: bool, blockComment: bool, dollar: string, quote: char): Mode {
    if lineComment then InLine else if blockComment then InBlock
    else if dollar != "" then InDollar(dollar)
    else if quote != '\0' then InQuote(quote) else Normal
  }

  /** The part of an iteration that runs inside a comment, dollar quote or quote. */
  method StepInside(source: string, ghost start: nat, index: nat,
                    lineComment: bool, blockComment: bool, dollar: string, quote: char)
    returns (next: nat, lineComment': bool, blockComment': bool, dollar': string, quote': char)
    requires start <= index < |source|
    requires !ModeOf(lineComment, blockComment, dollar, quote).Normal?
    requires AtMostOne(lineComment, blockComment, dollar, quote)
    ensures index < next <= |source|
    ensures AtMostOne(lineComment', blockComment', dollar', quote')
    ensures ResumeAt(ModeOf(lineComment, blockComment, dollar, quote), source, start, index)
            == ResumeAt(ModeOf(lineComment', blockComment', dollar', quote'), source, start, next)
  {
    var character := source[index];
    next := index + 1;
    lineComment', blockComment', dollar', quote' := lineComment, blockComment, dollar, quote;
    if lineComment {
      LineStep(source, start, index);
      if character == '\n' {
        lineComment' := false;
      }
    } else if blockComment {
      BlockStep(source, start, index);
      if character == '*' && index + 1 < |source| && source[index + 1] == '/' {
        blockComment' := false;
        next := index + 2;
      }
    } else if dollar != "" {
      DollarStep(source, start, index, dollar);
      if dollar <= source[index..] {
        next := index + |dollar|;
        dollar' := "";
      }
    } else {
      QuoteStep(source, start, index, quote);
      if character == quote {
        if index + 1 < |source| && source[index + 1] == quote {
          next := index + 2;
        } else {
          quote' := '\0';
        }
      }
    }
  }

  /** The part of an iteration that looks for the start of a construct; `next` is
      `index` when none starts there. */
  method StepOpening(source: string, ghost start: nat, index: nat)
    returns (next: nat, lineComment: bool, blockComment: bool, dollar: string, quote: char)
    requires start <= index < |source|
    ensures index <= next <= |source|
    ensures AtMostOne(lineComment, blockComment, dollar, quote)
    ensures index < next ==> ResumeAt(Normal, source, start, index)
                             == ResumeAt(ModeOf(lineComment, blockComment, dollar, quote), source, start, next)
    ensures index == next ==> ModeOf(lineComment, blockComment, dollar, quote).Normal?
    ensures index == next && source[index] != ';' ==>
              ResumeAt(Normal, source, start, index) == ResumeAt(Normal, source, start, index + 1)
  {
    hide ResumeAt, StartsTag, Tag;
    var character := source[index];
    next, lineComment, blockComment, dollar, quote := index, false, false, "", '\0';
    OpenPair(source, start, index);
    if character == '-' && index + 1 < |source| && source[index + 1] == '-' {
      return index + 2, true, false, "", '\0';
    }
    if character == '/' && index + 1 < |source| && source[index + 1] == '*' {
      return index + 2, false, true, "", '\0';
    }
    if character == '\'' || character == '"' {
      OpenQuote(source, start, index);
      return index + 1, false, false, "", character;
    }
    if character == '$' {
      dollar := DollarTag(source, index);
      next := index + |dollar|;
      if dollar != "" {
        OpenDollar(source, start, index, dollar);
        return;
      }
    }
    NoTag(source, index);
    if character != ';' {
      PassPlain(source, start, index);
    }
  }

  method SplitStatements(source: string) returns (outcome: Outcome)
    ensures outcome == SplitAll(source)
  {
    var statements: seq<string> := [];
    var start, index := 0, 0;
    var quote := '\0';
    var dollar := "";
    var lineComment, blockComment := false, false;
    Start(source);
    hide ResumeAt, SplitAll;
    while index < |source|
      invariant 0 <= start <= index <= |source|
      invariant AtMostOne(lineComment, blockComment, dollar, quote)
      invariant Reached(source, statements, ModeOf(lineComment, blockComment, dollar, quote), start, index)
      decreases |source| - index
    {
      if lineComment || blockComment || dollar != "" || quote != '\0' {
        index, lineComment, blockComment, dollar, quote :=
          StepInside(source, start, index, lineComment, blockComment, dollar, quote);
        continue;
      }
      var next;
      next, lineComment, blockComment, dollar, quote := StepOpening(source, start, index);
      if index < next {
        index := next;
        continue;
      }
      if source[index] == ';' {
        Cut(source, start, index);
        PrependTwice(statements, Keep(source[start..index]), ResumeAt(Normal, source, index + 1, index + 1));
        var statement := Trim(source[start..index]);
        if statement != "" {
          statements := statements + [statement];
        }
        start := index + 1;
      }
      index := index + 1;
    }
    Stuck(source, start, ModeOf(lineComment, blockComment, dollar, quote));
    if quote != '\0' || dollar != "" || blockComment {
      return Unterminated;
    }
    Finish(source, start, lineComment);
    if Trim(source[start..]) != "" {
      return MissingSemicolon;
    }
    return Statements(statements);
  }
}
