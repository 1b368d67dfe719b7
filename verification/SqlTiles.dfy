/** Texts that are made of whole lexemes and hide no bare semicolon, built piece by piece. */
module SqlTiles {
  import opened Text
  import opened SqlLexer
  import opened SqlRoundTrip
  import opened Names
  import opened Numbers
  import opened Fields

  /** `a` is whole lexemes without a bare semicolon, also when a semicolon follows. */
  predicate Tiles(a: string)
    decreases |a|
  {
    a == "" ||
    match Lexeme(a + ";")
    case Open => false
    case Closed(n) => a[0] != ';' && n <= |a| && Tiles(a[n..])
  }

  /** Characters that are a lexeme of their own wherever they stand. */
  predicate IsPlain(c: char) {
    !IsQuote(c) && c != '-' && c != '/' && c != '$' && c != ';'
  }

  predicate AllPlain(s: string) {
    forall i :: 0 <= i < |s| ==> IsPlain(s[i])
  }

  lemma TilesStep(a: string, n: nat)
    requires a != "" && a[0] != ';' && Lexeme(a + ";") == Closed(n) && n <= |a| && Tiles(a[n..])
    ensures Tiles(a)
  {
  }

  lemma {:induction false} TilesPlain(p: string, b: string)
    requires AllPlain(p) && Tiles(b)
    ensures Tiles(p + b)
    decreases |p|
  {
    if p == "" {
      assert p + b == b;
    } else {
      var s := p + b;
      assert s[0] == p[0] && s[1..] == p[1..] + b && (s + ";")[0] == p[0];
      TilesPlain(p[1..], b);
      hide Tiles;
      PlainLexeme(s + ";");
      TilesStep(s, 1);
    }
  }

  lemma PlainLexeme(s: string)
    requires s != "" && (IsPlain(s[0]) || (s[0] == '-' && |s| > 1 && s[1] != '-'))
    ensures Lexeme(s) == Closed(1)
  {
    assert !("--" <= s) && !("/*" <= s);
  }

  /** A number, or a float, never contains two dashes in a row. */
  predicate NumberShape(s: string) {
    forall i :: 0 <= i < |s| ==> (IsPlain(s[i]) || s[i] == '-') && (s[i] == '-' && i > 0 ==> s[i - 1] != '-')
  }

  lemma {:induction false} TilesNumber(v: string, b: string)
    requires NumberShape(v) && Tiles(b) && b != "" && b[0] != '-'
    ensures Tiles(v + b)
    decreases |v|
  {
    if v == "" {
      assert v + b == b;
    } else {
      var s := v + b;
      assert s[0] == v[0] && s[1..] == v[1..] + b;
      assert s[1] == if |v| > 1 then v[1] else b[0];
      assert forall i :: 0 <= i < |v[1..]| ==> v[1..][i] == v[i + 1];
      TilesNumber(v[1..], b);
      hide Tiles;
      assert (s + ";")[0] == s[0] && (s + ";")[1] == s[1];
      if s[0] == '-' {
        assert |v| > 1 ==> v[1] != '-';
      }
      PlainLexeme(s + ";");
      TilesStep(s, 1);
    }
  }

  lemma {:induction false} QuotedBody(d: string, b: string)
    requires b != "" && b[0] != '\''
    ensures QuoteBody('\'', DoubleQuotes(d) + "'" + b) == Closed(|DoubleQuotes(d)| + 1)
  {
    var s := DoubleQuotes(d) + "'" + b;
    if d == "" {
      assert s == "'" + b && s[1] == b[0];
    } else {
      var rest := DoubleQuotes(d[1..]) + "'" + b;
      QuotedBody(d[1..], b);
      if d[0] == '\'' {
        assert s == "''" + rest && s[2..] == rest && s[1] == '\'';
      } else {
        assert s == [d[0]] + rest && s[1..] == rest;
      }
    }
  }

  /** Whatever text a string literal holds, it is one lexeme. */
  lemma TilesQuoted(d: string, b: string)
    requires Tiles(b) && b != "" && b[0] != '\''
    ensures Tiles("'" + DoubleQuotes(d) + "'" + b)
  {
    hide Lexeme, Tiles, QuoteBody, DoubleQuotes;
    var quoted := "'" + DoubleQuotes(d) + "'";
    var s := quoted + b;
    var body := DoubleQuotes(d) + "'" + (b + ";");
    QuotedBody(d, b + ";");
    assert s + ";" == "'" + body && (s + ";")[1..] == body && (s + ";")[0] == '\'' == s[0];
    QuotedLexeme(s + ";");
    assert s[|quoted|..] == b;
    TilesStep(s, |quoted|);
  }

  lemma QuotedLexeme(s: string)
    requires s != "" && s[0] == '\''
    ensures Lexeme(s) == Shift(1, QuoteBody('\'', s[1..]))
  {
    assert !("--" <= s) && !("/*" <= s);
  }

  /** A tiled statement is cut at the semicolon that follows it. */
  lemma {:induction false} SplitTiles(pending: string, a: string, rest: string)
    requires Tiles(a)
    ensures Split(pending, a + ";" + rest) == Prepend(Keep(pending + a), Split("", rest))
    decreases |a|
  {
    hide Split, Lexeme, Keep, Prepend;
    var s := a + ";" + rest;
    if a == "" {
      assert s == ";" + rest && pending + a == pending;
      SplitCut(pending, rest);
    } else {
      var n := Lexeme(a + ";").length;
      assert s == a + (";" + rest) && s[0] == a[0];
      LexemeStable(a, ";", ";" + rest);
      SplitStep(pending, s, n);
      assert s[..n] == a[..n] && s[n..] == a[n..] + ";" + rest;
      SplitTiles(pending + a[..n], a[n..], rest);
      assert pending + a[..n] + a[n..] == pending + a;
    }
  }

  /** The rendered default of every field type is whole lexemes. */
  lemma TilesDefault(floats: Floats, kind: FieldType, value: string, b: string)
    requires FloatsAreShaped(floats)
    requires SqlDefault(floats, kind, value).Some?
    requires Tiles(b) && b != "" && (IsSpace(b[0]) || b[0] == ',')
    ensures Tiles(SqlDefault(floats, kind, value).value + b)
  {
    hide Tiles, DoubleQuotes, ParseInt64, NumberShape, FloatShape;
    var text := SqlDefault(floats, kind, value).value;
    match kind
    case BoolField => TilesPlain(text, b);
    case TimeField => TilesPlain(text, b);
    case IntField =>
      IntShape(value);
      TilesNumber(value, b);
    case FloatField =>
      FloatIsNumber(value);
      TilesNumber(value, b);
    case UuidField =>
    case JsonField =>
      TilesJson(b);
    case StringField => TilesQuoted(value, b);
    case TextField => TilesQuoted(value, b);
  }

  lemma TilesJson(b: string)
    requires Tiles(b)
    ensures Tiles("'{}'::jsonb" + b)
  {
    hide Tiles;
    TilesPlain("::jsonb", b);
    assert DoubleQuotes("{}") == "{}" by { assert "{}"[1..] == "}" && "}"[1..] == ""; }
    hide DoubleQuotes;
    TilesQuoted("{}", "::jsonb" + b);
    assert "'{}'::jsonb" + b == "'" + "{}" + "'" + ("::jsonb" + b);
  }

  lemma IntShape(value: string)
    requires ParseInt64(value).Some?
    ensures NumberShape(value)
  {
    if IsSigned(value) {
      assert forall i :: 0 < i < |value| ==> value[i] == value[1..][i - 1];
    }
  }

  lemma FloatIsNumber(value: string)
    requires FloatShape(value)
    ensures NumberShape(value)
  {
  }
}
