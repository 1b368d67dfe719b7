/** Splitting and printing SQL statements undo each other. */
module SqlRoundTrip {
  import opened Text
  import opened SqlLexer

  /** Characters that stand between statements: none of them continues or opens a lexeme. */
  predicate IsSeparator(c: char) {
    IsSpace(c) || c == ';'
  }

  predicate Separated(s: string) {
    s != "" && IsSeparator(s[0])
  }

  /** `statement` has no bare semicolon and, once a newline follows it, leaves no
      quote or comment open. */
  predicate Complete(statement: string)
    decreases |statement|
  {
    statement == "" ||
    match Lexeme(statement + "\n")
    case Open => false
    case Closed(n) => statement[0] != ';' && (n > |statement| || Complete(statement[n..]))
  }

  predicate Printable(statement: string) {
    statement != "" && Trimmed(statement) && Complete(statement)
  }

  /** Every statement on its own lines, each ended by a semicolon on a line of its own.
      The newline before the semicolon ends a final line comment. */
  function Print(statements: seq<string>): string {
    if statements == [] then "" else statements[0] + "\n;\n" + Print(statements[1..])
  }

  // ---- A lexeme that ends inside `a` does not depend on what follows the separator after `a`.

  lemma {:induction false} LineBodyAt(a: string, u: string)
    ensures LineBody(a + u) == if '\n' in a then LineBody(a) else |a| + LineBody(u)
    ensures '\n' in a ==> LineBody(a) <= |a|
  {
    if a == "" {
      assert a + u == u;
    } else {
      assert (a + u)[1..] == a[1..] + u;
      LineBodyAt(a[1..], u);
    }
  }

  lemma {:induction false} BlockBodyStable(a: string, u: string, v: string)
    requires BlockBody(a + u).Closed? && BlockBody(a + u).length <= |a|
    ensures BlockBody(a + v) == BlockBody(a + u)
  {
    assert (a + u)[0] == (a + v)[0] == a[0] && (a + u)[1] == (a + v)[1] == a[1];
    if !(a[0] == '*' && a[1] == '/') {
      assert (a + u)[1..] == a[1..] + u && (a + v)[1..] == a[1..] + v;
      BlockBodyStable(a[1..], u, v);
    }
  }

  lemma {:induction false} QuoteBodyStable(q: char, a: string, u: string, v: string)
    requires IsQuote(q) && Separated(u) && Separated(v)
    requires QuoteBody(q, a + u).Closed? && QuoteBody(q, a + u).length <= |a|
    ensures QuoteBody(q, a + v) == QuoteBody(q, a + u)
  {
    assert a != "";
    assert (a + u)[0] == (a + v)[0] == a[0];
    if a[0] != q {
      assert (a + u)[1..] == a[1..] + u && (a + v)[1..] == a[1..] + v;
      QuoteBodyStable(q, a[1..], u, v);
    } else if |a| > 1 {
      assert (a + u)[1] == (a + v)[1] == a[1];
      if a[1] == q {
        assert (a + u)[2..] == a[2..] + u && (a + v)[2..] == a[2..] + v;
        QuoteBodyStable(q, a[2..], u, v);
      }
    } else {
      assert (a + u)[1] == u[0] && (a + v)[1] == v[0];
    }
  }

  lemma PrefixInside(tag: string, a: string, u: string)
    requires |tag| <= |a|
    ensures tag <= a + u <==> tag <= a
  {
    assert (a + u)[..|tag|] == a[..|tag|];
  }

  lemma {:induction false} DollarBodyStable(tag: string, a: string, u: string, v: string)
    requires tag != ""
    requires DollarBody(tag, a + u).Closed? && DollarBody(tag, a + u).length <= |a|
    ensures DollarBody(tag, a + v) == DollarBody(tag, a + u)
  {
    PrefixInside(tag, a, u);
    PrefixInside(tag, a, v);
    if !(tag <= a + u) {
      assert (a + u)[1..] == a[1..] + u && (a + v)[1..] == a[1..] + v;
      DollarBodyStable(tag, a[1..], u, v);
    }
  }

  lemma {:induction false} TagRunAt(a: string, u: string)
    requires Separated(u)
    ensures TagRun(a + u) == TagRun(a)
  {
    if a == "" {
      assert a + u == u;
    } else {
      assert (a + u)[0] == a[0] && (a + u)[1..] == a[1..] + u;
      TagRunAt(a[1..], u);
    }
  }

  /** No dollar tag reaches across a separator. */
  lemma TagStable(a: string, u: string)
    requires a != "" && Separated(u)
    ensures StartsTag(a + u) <==> StartsTag(a)
    ensures StartsTag(a) ==> Tag(a + u) == Tag(a)
  {
    assert (a + u)[0] == a[0] && (a + u)[1..] == a[1..] + u;
    TagRunAt(a[1..], u);
    var n := 1 + TagRun(a[1..]);
    assert n < |a| ==> (a + u)[n] == a[n];
    assert n == |a| ==> (a + u)[n] == u[0];
    if StartsTag(a) {
      assert (a + u)[..n + 1] == a[..n + 1];
    }
  }

  lemma PairStable(pair: string, a: string, u: string)
    requires |pair| == 2 && !IsSeparator(pair[1]) && a != "" && Separated(u)
    ensures pair <= a + u <==> pair <= a
  {
    if |a| == 1 {
      assert (a + u)[1] == u[0];
    } else {
      PrefixInside(pair, a, u);
    }
  }

  lemma DropSum(a: string, u: string, k: nat)
    requires k <= |a|
    ensures (a + u)[k..] == a[k..] + u
  {
  }

  /** The kinds of first lexeme. */
  datatype Kind = Line | Block | Quoted | Dollared | Single

  function KindOf(s: string): Kind
    requires s != ""
  {
    if "--" <= s then Line else if "/*" <= s then Block
    else if IsQuote(s[0]) then Quoted else if StartsTag(s) then Dollared else Single
  }

  lemma KindStable(a: string, u: string)
    requires a != "" && Separated(u)
    ensures KindOf(a + u) == KindOf(a)
    ensures StartsTag(a) ==> Tag(a + u) == Tag(a)
  {
    PairStable("--", a, u);
    PairStable("/*", a, u);
    TagStable(a, u);
    assert (a + u)[0] == a[0];
  }

  lemma LexemeStable(a: string, u: string, v: string)
    requires a != "" && Separated(u) && Separated(v)
    requires Lexeme(a + u).Closed? && Lexeme(a + u).length <= |a|
    ensures Lexeme(a + v) == Lexeme(a + u)
  {
    KindStable(a, u);
    KindStable(a, v);
    match KindOf(a)
    case Line =>
      DropSum(a, u, 2);
      DropSum(a, v, 2);
      LineBodyAt(a[2..], u);
      LineBodyAt(a[2..], v);
    case Block =>
      DropSum(a, u, 2);
      DropSum(a, v, 2);
      BlockBodyStable(a[2..], u, v);
    case Quoted =>
      DropSum(a, u, 1);
      DropSum(a, v, 1);
      QuoteBodyStable(a[0], a[1..], u, v);
    case Dollared =>
      DropSum(a, u, |Tag(a)|);
      DropSum(a, v, |Tag(a)|);
      LexemeOfTag(a + u);
      LexemeOfTag(a + v);
      DollarBodyStable(Tag(a), a[|Tag(a)|..], u, v);
    case Single =>
  }

  // ---- Only a line comment can end in a separator beyond its first character.

  lemma {:induction false} BlockBodyLast(s: string)
    requires BlockBody(s).Closed?
    ensures s[BlockBody(s).length - 1] == '/'
  {
    if !(s[0] == '*' && s[1] == '/') {
      BlockBodyLast(s[1..]);
    }
  }

  lemma {:induction false} QuoteBodyLast(q: char, s: string)
    requires QuoteBody(q, s).Closed?
    ensures s[QuoteBody(q, s).length - 1] == q
  {
    if s[0] != q {
      QuoteBodyLast(q, s[1..]);
    } else if |s| > 1 && s[1] == q {
      QuoteBodyLast(q, s[2..]);
    }
  }

  lemma {:induction false} DollarBodyLast(tag: string, s: string)
    requires tag != "" && DollarBody(tag, s).Closed?
    ensures s[DollarBody(tag, s).length - 1] == tag[|tag| - 1]
  {
    if !(tag <= s) {
      DollarBodyLast(tag, s[1..]);
    }
  }

  /** A lexeme that runs past `a` into separators is a line comment that `a` opened. */
  lemma SpanIsLineComment(a: string, x: string)
    requires a != "" && x != "" && forall i :: 0 <= i < |x| ==> IsSeparator(x[i])
    requires Lexeme(a + x).Closed? && Lexeme(a + x).length > |a|
    ensures "--" <= a && '\n' !in a
  {
    hide TagRun, BlockBody, QuoteBody, DollarBody;
    var s := a + x;
    var n := Lexeme(s).length;
    assert IsSeparator(s[n - 1]) by {
      assert s[n - 1] == x[n - 1 - |a|];
    }
    KindStable(a, x);
    match KindOf(a)
    case Line =>
      DropSum(a, x, 2);
      LineBodyAt(a[2..], x);
      assert forall i :: 0 <= i < |a| ==> a[i] == if i < 2 then '-' else a[2..][i - 2];
    case Block =>
      BlockBodyLast(s[2..]);
      assert false;
    case Quoted =>
      QuoteBodyLast(s[0], s[1..]);
      assert false;
    case Dollared =>
      LexemeOfTag(s);
      DollarBodyLast(Tag(s), s[|Tag(s)|..]);
      assert false;
    case Single =>
      assert false;
  }

  lemma LineCommentAlone(a: string, u: string)
    requires "--" <= a && '\n' !in a
    ensures Lexeme(a + "\n" + u) == Closed(|a| + 1)
  {
    var s := a + "\n" + u;
    assert s == a + ("\n" + u);
    PrefixInside("--", a, "\n" + u);
    DropSum(a, "\n" + u, 2);
    LineBodyAt(a[2..], "\n" + u);
  }

  // ---- Print, then split.

  lemma {:induction false} SplitStatement(pending: string, a: string, rest: string)
    requires Complete(a)
    ensures Split(pending, a + "\n;" + rest) == Prepend(Keep(pending + a + "\n"), Split("", rest))
    decreases |a|
  {
    hide Split, Lexeme, Keep, Prepend;
    var s := a + "\n;" + rest;
    if a == "" {
      assert s == ['\n'] + (";" + rest) && pending + a + "\n" == pending + ['\n'];
      SplitSeparator(pending, '\n', ";" + rest);
      SplitCut(pending + ['\n'], rest);
    } else {
      assert s[0] == a[0];
      var n := Lexeme(a + "\n").length;
      if n > |a| {
        SpanIsLineComment(a, "\n");
        LineCommentAlone(a, ";" + rest);
        assert s == a + "\n" + (";" + rest);
        SplitStep(pending, s, |a| + 1);
        assert s[..|a| + 1] == a + "\n" && s[|a| + 1..] == ";" + rest;
        assert pending + (a + "\n") == pending + a + "\n";
        SplitCut(pending + a + "\n", rest);
      } else {
        assert s == a + ("\n;" + rest);
        LexemeStable(a, "\n", "\n;" + rest);
        SplitStep(pending, s, n);
        assert s[..n] == a[..n] && s[n..] == a[n..] + "\n;" + rest;
        SplitStatement(pending + a[..n], a[n..], rest);
        assert pending + a[..n] + a[n..] + "\n" == pending + a + "\n";
      }
    }
  }

  lemma {:induction false} SplitPrinted(pending: string, statements: seq<string>)
    requires Blank(pending) && forall a :: a in statements ==> Printable(a)
    ensures Split(pending, Print(statements)) == Statements(statements)
    decreases |statements|
  {
    hide Lexeme, Complete;
    if statements == [] {
      TrimUnique(pending, "", "");
      assert pending + "" + "" == pending;
    } else {
      hide Split;
      var a, rest := statements[0], Print(statements[1..]);
      assert Printable(a);
      assert Print(statements) == a + "\n;" + ("\n" + rest);
      SplitStatement(pending, a, "\n" + rest);
      TrimUnique(pending, a, "\n");
      assert "" + ['\n'] == "\n" && ['\n'] + rest == "\n" + rest;
      SplitSeparator("", '\n', rest);
      SplitPrinted("\n", statements[1..]);
      assert [a] + statements[1..] == statements;
    }
  }

  // ---- Every statement that splitting returns can be printed.

  lemma CompleteStep(s: string, n: nat, tail: string, rest: string)
    requires s != "" && s[0] != ';' && Lexeme(s) == Closed(n)
    requires s[n..] == tail + ";" + rest && Complete(tail)
    ensures Complete(s[..n] + tail)
  {
    hide Lexeme;
    var segment := s[..n] + tail;
    assert s == segment + (";" + rest);
    LexemeStable(segment, ";" + rest, "\n");
    assert segment[n..] == tail && segment[0] == s[0];
  }

  /** The text before the first bare semicolon is complete. */
  lemma {:induction false} FirstCut(pending: string, s: string) returns (cut: bool, segment: string, rest: string)
    requires Split(pending, s).Statements?
    ensures cut ==> s == segment + ";" + rest && Complete(segment)
                    && Split(pending, s) == Prepend(Keep(pending + segment), Split("", rest))
    ensures !cut ==> Split(pending, s) == Statements([])
    decreases |s|
  {
    hide Lexeme, Keep, Prepend;
    if s == "" {
      cut, segment, rest := false, "", "";
    } else if s[0] == ';' {
      cut, segment, rest := true, "", s[1..];
      assert s == ";" + s[1..] && pending + "" == pending;
      SplitCut(pending, rest);
    } else {
      var n := Lexeme(s).length;
      SplitStep(pending, s, n);
      hide Split;
      var tail;
      cut, tail, rest := FirstCut(pending + s[..n], s[n..]);
      segment := s[..n] + tail;
      if cut {
        assert s == segment + ";" + rest && pending + s[..n] + tail == pending + segment;
        CompleteStep(s, n, tail, rest);
      }
    }
  }

  lemma {:induction false} CompleteDropLeft(left: string, a: string)
    requires Blank(left) && Complete(left + a)
    ensures Complete(a)
  {
    if left == "" {
      assert left + a == a;
    } else {
      var s := left + a;
      assert s[0] == left[0] && IsSpace(s[0]) && (s + "\n")[0] == s[0];
      assert Lexeme(s + "\n") == Closed(1);
      assert s[1..] == left[1..] + a;
      CompleteDropLeft(left[1..], a);
    }
  }

  lemma {:induction false} CompleteDropRight(a: string, right: string)
    requires Blank(right) && Complete(a + right)
    ensures Complete(a)
    decreases |a|
  {
    if a != "" {
      var x := right + "\n";
      assert a + right + "\n" == a + x && (a + right)[0] == a[0];
      var n := Lexeme(a + x).length;
      if n > |a| {
        SpanIsLineComment(a, x);
        LineCommentAlone(a, "");
        assert a + "\n" + "" == a + "\n";
      } else {
        LexemeStable(a, x, "\n");
        assert (a + right)[n..] == a[n..] + right;
        if n == |a + right| {
          assert a[n..] == "";
        }
        CompleteDropRight(a[n..], right);
      }
    }
  }

  /** A complete text stays complete when its outer blanks are trimmed. */
  lemma CompleteTrim(segment: string)
    requires Complete(segment)
    ensures Complete(Trim(segment)) && Trimmed(Trim(segment))
  {
    hide Complete, Trim, IsSpace;
    var left, right := TrimSplit(segment);
    assert segment == left + (Trim(segment) + right);
    CompleteDropLeft(left, Trim(segment) + right);
    CompleteDropRight(Trim(segment), right);
  }

  lemma {:induction false} SplitIsPrintable(s: string)
    requires SplitAll(s).Statements?
    ensures forall a :: a in SplitAll(s).list ==> Printable(a)
    decreases |s|
  {
    hide Split, Lexeme, Complete, Trim;
    var cut, segment, rest := FirstCut("", s);
    if cut {
      assert "" + segment == segment;
      CompleteTrim(segment);
      SplitIsPrintable(rest);
    }
  }

  /** Splitting undoes printing exactly for the lists of trimmed, non-blank,
      lexically closed statements without a bare semicolon. */
  lemma SplitUndoesPrint(statements: seq<string>)
    ensures SplitAll(Print(statements)) == Statements(statements)
            <==> forall a :: a in statements ==> Printable(a)
  {
    if forall a :: a in statements ==> Printable(a) {
      SplitPrinted("", statements);
    } else if SplitAll(Print(statements)) == Statements(statements) {
      SplitIsPrintable(Print(statements));
      assert false;
    }
  }

  /** The statements of every accepted source survive being printed and split again. */
  lemma ResplitIsIdentity(source: string)
    requires SplitAll(source).Statements?
    ensures SplitAll(Print(SplitAll(source).list)) == SplitAll(source)
  {
    SplitIsPrintable(source);
    SplitUndoesPrint(SplitAll(source).list);
  }

  /** Printed without the newline, a statement that ends in a line comment swallows its own semicolon. */
  lemma NewlineIsNeeded()
    ensures Printable("--b") && SplitAll(Print(["--b"])) == Statements(["--b"])
    ensures SplitAll("--b" + ";\n") == MissingSemicolon
  {
    LineCommentAlone("--b", "");
    assert "--b\n" == "--b" + "\n" + "";
    SplitPrinted("", ["--b"]);
    var s := "--b" + ";\n";
    assert s == "--b;" + "\n" + "";
    LineCommentAlone("--b;", "");
    SplitStep("", s, 5);
    assert "" + s[..5] == "" + "--b;" + "\n" && s[5..] == "";
    TrimUnique("", "--b;", "\n");
  }

  // ---- The statements are the texts between the bare semicolons.

  /** `s` cut at every semicolon outside quotes and comments; `None` when a construct is left open. */
  function Pieces(s: string): (pieces: Option<seq<string>>)
    ensures pieces.Some? ==> pieces.value != []
    decreases |s|
  {
    if s == "" then Some([""])
    else
      match Lexeme(s)
      case Open => None
      case Closed(n) =>
        var later := Pieces(s[n..]);
        if later.None? then None
        else if s[0] == ';' then Some([""] + later.value)
        else Some(Onto(s[..n], later.value))
  }

  /** `text` put in front of the first piece. */
  function Onto(text: string, pieces: seq<string>): (result: seq<string>)
    requires pieces != []
    ensures |result| == |pieces| && result[0] == text + pieces[0] && result[1..] == pieces[1..]
  {
    [text + pieces[0]] + pieces[1..]
  }

  function KeepAll(pieces: seq<string>): seq<string> {
    if pieces == [] then [] else Keep(pieces[0]) + KeepAll(pieces[1..])
  }

  /** The outcome that a list of pieces amounts to: the last piece must be blank. */
  function Decide(pieces: Option<seq<string>>): Outcome
    requires pieces.Some? ==> pieces.value != []
  {
    if pieces.None? then Unterminated
    else if Trim(pieces.value[|pieces.value| - 1]) != "" then MissingSemicolon
    else Statements(KeepAll(pieces.value[..|pieces.value| - 1]))
  }

  function OntoOption(text: string, pieces: Option<seq<string>>): (result: Option<seq<string>>)
    requires pieces.Some? ==> pieces.value != []
    ensures result.Some? ==> result.value != []
  {
    if pieces.None? then None else Some(Onto(text, pieces.value))
  }

  lemma DecideCut(pending: string, later: seq<string>)
    requires later != []
    ensures Decide(Some([pending] + later)) == Prepend(Keep(pending), Decide(Some(later)))
  {
    var all := [pending] + later;
    assert all[|all| - 1] == later[|later| - 1];
    assert all[..|all| - 1] == [pending] + later[..|later| - 1];
    assert all[..|all| - 1][1..] == later[..|later| - 1];
  }

  lemma OntoTwice(a: string, b: string, pieces: seq<string>)
    requires pieces != []
    ensures Onto(a, Onto(b, pieces)) == Onto(a + b, pieces)
  {
    assert a + (b + pieces[0]) == a + b + pieces[0];
  }

  lemma {:induction false} SplitDecides(pending: string, s: string)
    ensures Split(pending, s) == Decide(OntoOption(pending, Pieces(s)))
    decreases |s|
  {
    hide Lexeme, Keep, Trim, Decide;
    if s == "" {
      assert Onto(pending, [""]) == [pending] && [pending][..0] == [] by {
        assert pending + "" == pending;
      }
      SplitEmpty(pending);
    } else if Lexeme(s).Open? {
      SplitOpen(pending, s);
    } else {
      var n := Lexeme(s).length;
      if s[0] == ';' {
        LexemeOfSemicolon(s);
        assert s == ";" + s[1..] && s[n..] == s[1..];
        SplitCut(pending, s[1..]);
        SplitDecides("", s[1..]);
        var later := Pieces(s[1..]);
        if later.Some? {
          assert Onto("", later.value) == later.value by { assert "" + later.value[0] == later.value[0]; }
          assert Onto(pending, [""] + later.value) == [pending] + later.value by { assert pending + "" == pending; }
          DecideCut(pending, later.value);
        } else {
          SplitOpen(pending, s);
        }
      } else {
        SplitStep(pending, s, n);
        SplitDecides(pending + s[..n], s[n..]);
        if Pieces(s[n..]).Some? {
          OntoTwice(pending, s[..n], Pieces(s[n..]).value);
        }
      }
    }
  }

  lemma SplitEmpty(pending: string)
    ensures Split(pending, "") == Decide(Some([pending]))
  {
    assert [pending][..0] == [];
  }

  lemma SplitOpen(pending: string, s: string)
    requires s != ""
    ensures Lexeme(s).Open? ==> Split(pending, s) == Decide(None)
    ensures Decide(None) == Unterminated && Prepend(Keep(pending), Unterminated) == Unterminated
  {
  }

  function JoinPieces(pieces: seq<string>): string
    requires pieces != []
  {
    if |pieces| == 1 then pieces[0] else pieces[0] + ";" + JoinPieces(pieces[1..])
  }

  /** The pieces make up `s`, and every piece but the last is complete. */
  predicate Partition(pieces: seq<string>, s: string)
    requires pieces != []
  {
    JoinPieces(pieces) == s && forall k :: 0 <= k < |pieces| - 1 ==> Complete(pieces[k])
  }

  lemma PartitionOnto(s: string, n: nat, later: seq<string>)
    requires s != "" && s[0] != ';' && Lexeme(s) == Closed(n)
    requires later != [] && Partition(later, s[n..])
    ensures Partition(Onto(s[..n], later), s)
  {
    hide Lexeme, Complete;
    var pieces := Onto(s[..n], later);
    assert s == s[..n] + s[n..];
    if |later| > 1 {
      var rest := JoinPieces(later[1..]);
      assert s[n..] == later[0] + ";" + rest;
      CompleteStep(s, n, later[0], rest);
      forall k | 0 < k < |pieces| - 1 ensures Complete(pieces[k]) {
        assert pieces[k] == pieces[1..][k - 1] == later[1..][k - 1] == later[k];
      }
    }
  }

  lemma PartitionCut(s: string, later: seq<string>)
    requires s != "" && s[0] == ';'
    requires later != [] && Partition(later, s[1..])
    ensures Partition([""] + later, s)
  {
    CompleteEmpty();
    assert ([""] + later)[1..] == later;
    assert s == "" + ";" + s[1..];
  }

  lemma {:induction false} PiecesPartition(s: string)
    requires Pieces(s).Some?
    ensures Partition(Pieces(s).value, s)
    decreases |s|
  {
    hide Lexeme, Partition;
    if s == "" {
      SinglePiece();
    } else {
      var n := Lexeme(s).length;
      var later := Pieces(s[n..]).value;
      PiecesPartition(s[n..]);
      if s[0] == ';' {
        LexemeOfSemicolon(s);
        PartitionCut(s, later);
      } else {
        PartitionOnto(s, n, later);
      }
    }
  }

  lemma SinglePiece()
    ensures Partition([""], "")
  {
  }

  lemma CompleteEmpty()
    ensures Complete("")
  {
  }

  /** A source is accepted exactly when no quote, dollar quote or block comment is left open and
      only blanks follow its last bare semicolon. The pieces between the bare semicolons make up
      the whole source, none hides a bare semicolon, and the statements are the pieces, trimmed,
      without the blank ones. */
  lemma SplitAtBareSemicolons(source: string)
    ensures SplitAll(source) == Decide(Pieces(source))
    ensures Pieces(source).Some? ==> Partition(Pieces(source).value, source)
  {
    SplitDecides("", source);
    if Pieces(source).Some? {
      var pieces := Pieces(source).value;
      assert Onto("", pieces) == pieces by { assert "" + pieces[0] == pieces[0]; }
      PiecesPartition(source);
    }
  }
}
