/** Field specifications as they are written, and what each of them becomes: the field, the SQL column and its default, and
    the statements of the migration that is generated and loaded. */
module FieldSpecifications {
  import opened Text
  import opened Names
  import opened Numbers
  import opened Fields
  import opened MigrationRender
  import opened MigrationFile
  import GeneratedMigration

  // ------------------------------------------------------------------------------------------ SQL literals

  /** The text that the inside of a SQL string literal stands for: a doubled quote is one, and no other quote may occur. */
  function Unquoted(s: string): Option<string> {
    if s == "" then Some("")
    else if s[0] != '\'' then
      var rest := Unquoted(s[1..]);
      if rest.None? then None else Some([s[0]] + rest.value)
    else if |s| > 1 && s[1] == '\'' then
      var rest := Unquoted(s[2..]);
      if rest.None? then None else Some(['\''] + rest.value)
    else None
  }

  /** What a SQL string literal denotes. */
  function ReadLiteral(s: string): Option<string> {
    if |s| < 2 || s[0] != '\'' || s[|s| - 1] != '\'' then None else Unquoted(s[1..|s| - 1])
  }

  lemma {:induction false} UnquotedDoubled(s: string)
    ensures Unquoted(DoubleQuotes(s)) == Some(s)
  {
    if s != "" {
      var d, rest := DoubleQuotes(s), DoubleQuotes(s[1..]);
      UnquotedDoubled(s[1..]);
      assert s == [s[0]] + s[1..];
      if s[0] == '\'' {
        assert d == "''" + rest && d[2..] == rest;
      } else {
        assert d == [s[0]] + rest && d[1..] == rest;
      }
    }
  }

  predicate IsTextKind(kind: FieldType) {
    kind.StringField? || kind.TextField?
  }

  /** A string default is rendered as the literal that denotes it, whatever it holds, unless it has a NUL or a line break. */
  lemma TextDefaultDenotes(floats: Floats, kind: FieldType, value: string)
    requires IsTextKind(kind)
    ensures SqlDefault(floats, kind, value).Some? <==> '\0' !in value && '\n' !in value && '\r' !in value
    ensures SqlDefault(floats, kind, value).Some? ==> ReadLiteral(SqlDefault(floats, kind, value).value) == Some(value)
  {
    var literal := "'" + DoubleQuotes(value) + "'";
    UnquotedDoubled(value);
    assert literal[1..|literal| - 1] == DoubleQuotes(value);
  }

  /** A default of another type: the words for flags, the number as given when it is one, the clock, and the empty object. */
  lemma OtherDefaultsDenote(floats: Floats, value: string)
    ensures SqlDefault(floats, BoolField, value) == Some("TRUE") <==> value == "true"
    ensures SqlDefault(floats, BoolField, value) == Some("FALSE") <==> value == "false"
    ensures SqlDefault(floats, BoolField, value).Some? <==> value == "true" || value == "false"
    ensures SqlDefault(floats, IntField, value) == (if ParseInt64(value).Some? then Some(value) else None)
    ensures SqlDefault(floats, FloatField, value) == (if floats(value) then Some(value) else None)
    ensures SqlDefault(floats, UuidField, value) == None
    ensures |value| == 3 && ToLower(value[0]) == 'n' && ToLower(value[1]) == 'o' && ToLower(value[2]) == 'w'
            <==> SqlDefault(floats, TimeField, value) == Some("NOW()")
    ensures SqlDefault(floats, TimeField, value).Some? ==> SqlDefault(floats, TimeField, value) == Some("NOW()")
    ensures SqlDefault(floats, JsonField, value) == if value == "{}" then Some("'{}'::jsonb") else None
  {
  }

  // ---------------------------------------------------------------------------------------- specifications

  /** One option as it is written. Everything from an equals sign on is ignored, but for a default. */
  datatype Clause = Index(ignored: string) | Unique(ignored: string) | Null(ignored: string) | Default(value: string)

  datatype Specification = Specification(name: string, word: string, clauses: seq<Clause>)

  function Key(clause: Clause): string {
    match clause
    case Index(_) => "index"
    case Unique(_) => "unique"
    case Null(_) => "null"
    case Default(_) => "default"
  }

  function Tail(clause: Clause): string {
    if clause.Default? then "=" + clause.value else clause.ignored
  }

  function ClauseText(clause: Clause): string {
    Key(clause) + Tail(clause)
  }

  function ClauseTexts(clauses: seq<Clause>): (texts: seq<string>)
    ensures |texts| == |clauses| && forall i :: 0 <= i < |texts| ==> texts[i] == ClauseText(clauses[i])
  {
    seq(|clauses|, i requires 0 <= i < |clauses| => ClauseText(clauses[i]))
  }

  /** `name:word:clause:clause` */
  function SpecificationText(specification: Specification): string {
    Join([specification.name, specification.word] + ClauseTexts(specification.clauses), ":")
  }

  predicate IsClause(clause: Clause) {
    ':' !in Tail(clause) && (if clause.Default? then clause.value != "" else clause.ignored == "" || clause.ignored[0] == '=')
  }

  predicate Clauses(clauses: seq<Clause>) {
    && (forall i :: 0 <= i < |clauses| ==> IsClause(clauses[i]))
    && forall i, j :: 0 <= i < j < |clauses| ==> Key(clauses[i]) != Key(clauses[j])
  }

  predicate HasIndex(clauses: seq<Clause>) {
    exists i :: 0 <= i < |clauses| && clauses[i].Index?
  }

  predicate HasUnique(clauses: seq<Clause>) {
    exists i :: 0 <= i < |clauses| && clauses[i].Unique?
  }

  predicate HasNull(clauses: seq<Clause>) {
    exists i :: 0 <= i < |clauses| && clauses[i].Null?
  }

  predicate HasDefault(clauses: seq<Clause>, value: string) {
    exists i :: 0 <= i < |clauses| && clauses[i] == Default(value)
  }

  /** The type word and the SQL type of its column. */
  predicate TypeWord(word: string, kind: FieldType, sql: string) {
    || (word == "string" && kind == StringField && sql == "VARCHAR(255)")
    || (word == "text" && kind == TextField && sql == "TEXT")
    || (word == "bool" && kind == BoolField && sql == "BOOLEAN")
    || (word == "uuid" && kind == UuidField && sql == "UUID")
    || (word == "int" && kind == IntField && sql == "BIGINT")
    || (word == "float" && kind == FloatField && sql == "DOUBLE PRECISION")
    || (word == "time" && kind == TimeField && sql == "TIMESTAMPTZ")
    || (word == "json" && kind == JsonField && sql == "JSONB")
  }

  /** The field is the one that the specification describes. */
  ghost predicate Describes(specification: Specification, field: Field) {
    && field.name == specification.name && ':' !in specification.name
    && TypeWord(specification.word, field.kind, SqlType(field.kind))
    && Clauses(specification.clauses)
    && (field.index <==> HasIndex(specification.clauses))
    && (field.unique <==> HasUnique(specification.clauses))
    && (field.nullable <==> HasNull(specification.clauses))
    && forall value :: field.default == Some(value) <==> HasDefault(specification.clauses, value)
  }

  // ---- Options

  lemma KeyOfClause(clause: Clause)
    requires IsClause(clause)
    ensures OptionKey(ClauseText(clause)) == Key(clause)
  {
    var key, tail := Key(clause), Tail(clause);
    assert '=' !in key;
    if tail == "" {
      assert key + tail == key;
      SplitOnPart(key, '=', "");
    } else {
      assert key + tail == key + ['='] + tail[1..];
      SplitOnPart(key, '=', tail[1..]);
    }
  }

  lemma OptionHasTail(option: string) returns (tail: string)
    ensures option == OptionKey(option) + tail && (tail == "" || tail[0] == '=')
  {
    JoinSplitOn(option, '=');
    var parts := SplitOn(option, '=');
    if |parts| == 1 {
      tail := "";
    } else {
      tail := "=" + Join(parts[1..], "=");
      assert option == parts[0] + ("=" + Join(parts[1..], "="));
    }
  }

  function WithClause(field: Field, clause: Clause): Field {
    match clause
    case Index(_) => field.(index := true)
    case Unique(_) => field.(unique := true)
    case Null(_) => field.(nullable := true)
    case Default(value) => field.(default := Some(value))
  }

  lemma ClauseApplies(field: Field, clause: Clause)
    requires IsClause(clause)
    ensures ApplyOption(field, ClauseText(clause)) == Ok(WithClause(field, clause))
  {
    KeyOfClause(clause);
    if clause.Default? {
      var text := ClauseText(clause);
      assert text == DEFAULT_PREFIX + clause.value && text[|DEFAULT_PREFIX|..] == clause.value;
    }
  }

  lemma OptionIsClause(field: Field, option: string) returns (clause: Clause)
    requires ApplyOption(field, option).Ok? && ':' !in option
    ensures IsClause(clause) && ClauseText(clause) == option
  {
    hide OptionKey, SplitOn;
    var tail := OptionHasTail(option);
    assert forall c :: c in tail ==> c in option;
    if OptionKey(option) == "index" {
      clause := Index(tail);
    } else if OptionKey(option) == "unique" {
      clause := Unique(tail);
    } else if OptionKey(option) == "null" {
      clause := Null(tail);
    } else {
      clause := DefaultOption(option);
    }
  }

  lemma DefaultOption(option: string) returns (clause: Clause)
    requires DEFAULT_PREFIX <= option && option != DEFAULT_PREFIX && ':' !in option
    ensures IsClause(clause) && ClauseText(clause) == option
  {
    var value := option[|DEFAULT_PREFIX|..];
    clause := Default(value);
    assert option == DEFAULT_PREFIX + value && DEFAULT_PREFIX == "default" + "=";
    assert forall c :: c in value ==> c in option;
    assert "default" + "=" + value == "default" + ("=" + value);
  }

  function WithClauses(field: Field, clauses: seq<Clause>): Field
    decreases |clauses|
  {
    if clauses == [] then field else WithClauses(WithClause(field, clauses[0]), clauses[1..])
  }

  predicate Unseen(clauses: seq<Clause>, seen: set<string>) {
    forall i :: 0 <= i < |clauses| ==> Key(clauses[i]) !in seen
  }

  lemma {:induction false} ClausesApply(field: Field, clauses: seq<Clause>, seen: set<string>)
    requires Clauses(clauses) && Unseen(clauses, seen)
    ensures ApplyOptions(field, ClauseTexts(clauses), seen) == Ok(WithClauses(field, clauses))
    decreases |clauses|
  {
    hide IsClause, ApplyOption, OptionKey, Key, ClauseText;
    if clauses != [] {
      ClauseApplies(field, clauses[0]);
      KeyOfClause(clauses[0]);
      assert ClauseTexts(clauses)[1..] == ClauseTexts(clauses[1..]);
      assert Clauses(clauses[1..]) && Unseen(clauses[1..], seen + {Key(clauses[0])});
      ClausesApply(WithClause(field, clauses[0]), clauses[1..], seen + {Key(clauses[0])});
    }
  }

  lemma {:induction false} OptionsAreClauses(field: Field, options: seq<string>, seen: set<string>) returns (clauses: seq<Clause>)
    requires ApplyOptions(field, options, seen).Ok? && forall i :: 0 <= i < |options| ==> ':' !in options[i]
    ensures Clauses(clauses) && Unseen(clauses, seen) && ClauseTexts(clauses) == options
    decreases |options|
  {
    hide IsClause, ApplyOption, OptionKey, Key, ClauseText;
    if options == [] {
      clauses := [];
    } else {
      var clause := OptionIsClause(field, options[0]);
      KeyOfClause(clause);
      var rest := OptionsAreClauses(ApplyOption(field, options[0]).value, options[1..], seen + {OptionKey(options[0])});
      clauses := [clause] + rest;
      ClausesCons(clause, rest);
      assert forall i :: 0 < i < |options| ==> ClauseTexts(clauses)[i] == ClauseTexts(rest)[i - 1];
    }
  }

  lemma ClausesCons(clause: Clause, rest: seq<Clause>)
    requires IsClause(clause) && Clauses(rest) && Unseen(rest, {Key(clause)})
    ensures Clauses([clause] + rest)
  {
    hide IsClause, Key;
    var all := [clause] + rest;
    assert forall i :: 0 < i < |all| ==> all[i] == rest[i - 1];
  }

  lemma {:induction false} ClausesMean(field: Field, clauses: seq<Clause>)
    requires Clauses(clauses) && (field.default.Some? ==> forall i :: 0 <= i < |clauses| ==> !clauses[i].Default?)
    ensures var changed := WithClauses(field, clauses);
            changed.name == field.name && changed.goName == field.goName && changed.kind == field.kind
            && (changed.index <==> field.index || HasIndex(clauses))
            && (changed.unique <==> field.unique || HasUnique(clauses))
            && (changed.nullable <==> field.nullable || HasNull(clauses))
            && forall value :: changed.default == Some(value) <==> field.default == Some(value) || HasDefault(clauses, value)
    decreases |clauses|
  {
    hide IsClause;
    if clauses != [] {
      var first, rest := clauses[0], clauses[1..];
      assert clauses == [first] + rest;
      assert forall i :: 0 <= i < |rest| ==> rest[i] == clauses[i + 1] && Key(rest[i]) != Key(first);
      assert forall i :: 0 <= i < |rest| && first.Default? ==> !rest[i].Default?;
      ClausesMean(WithClause(field, first), rest);
      HasStep(first, rest);
    }
  }

  lemma HasStep(first: Clause, rest: seq<Clause>)
    ensures HasIndex([first] + rest) <==> first.Index? || HasIndex(rest)
    ensures HasUnique([first] + rest) <==> first.Unique? || HasUnique(rest)
    ensures HasNull([first] + rest) <==> first.Null? || HasNull(rest)
    ensures forall value :: HasDefault([first] + rest, value) <==> first == Default(value) || HasDefault(rest, value)
  {
    var all := [first] + rest;
    assert all[0] == first;
    assert forall i :: 0 <= i < |rest| ==> all[i + 1] == rest[i];
    assert forall i :: 0 < i < |all| ==> all[i] == rest[i - 1];
  }

  // ---- Fields

  /** Each type word is read as its type, which has its SQL type. */
  lemma TypeWordIsRead(word: string, kind: FieldType, sql: string)
    ensures TypeWord(word, kind, sql) <==> ParseType(word) == Some(kind) && SqlType(kind) == sql
  {
  }

  lemma WordsOfTypes(word: string)
    ensures ParseType(word).Some? <==> exists kind, sql :: TypeWord(word, kind, sql)
    ensures ParseType(word).Some? ==> TypeWord(word, ParseType(word).value, SqlType(ParseType(word).value)) && ':' !in word
    ensures forall kind, sql :: TypeWord(word, kind, sql) ==> ParseType(word) == Some(kind) && SqlType(kind) == sql
  {
    assert ParseType(word).Some? ==> ':' !in word;
    hide ParseType, SqlType, TypeWord;
    forall kind, sql ensures TypeWord(word, kind, sql) <==> ParseType(word) == Some(kind) && SqlType(kind) == sql {
      TypeWordIsRead(word, kind, sql);
    }
    if ParseType(word).Some? {
      assert TypeWord(word, ParseType(word).value, SqlType(ParseType(word).value));
    }
  }

  lemma FieldNameHasNoColon(name: string)
    requires IsFieldName(name)
    ensures ':' !in name
  {
  }

  lemma PartsOf(specification: Specification)
    requires ':' !in specification.name && ':' !in specification.word && Clauses(specification.clauses)
    ensures var parts := SplitOn(SpecificationText(specification), ':');
            |parts| >= 2 && parts[0] == specification.name && parts[1] == specification.word
            && parts[2..] == ClauseTexts(specification.clauses)
  {
    var parts := [specification.name, specification.word] + ClauseTexts(specification.clauses);
    forall i | 0 <= i < |parts| ensures ':' !in parts[i] {
      if i >= 2 {
        ClauseHasNoColon(specification.clauses[i - 2]);
      }
    }
    SplitOnJoin(parts, ':');
  }

  lemma ClauseHasNoColon(clause: Clause)
    requires IsClause(clause)
    ensures ':' !in ClauseText(clause)
  {
  }

  /** The field before the options. */
  function Bare(name: string, kind: FieldType): Field
    requires IsFieldName(name)
  {
    FieldNamesParse(name);
    Field(name, ParseName(name).value.singular, kind, false, false, false, None)
  }

  lemma BareDescribes(name: string, kind: FieldType, clauses: seq<Clause>)
    requires IsFieldName(name) && Clauses(clauses)
    ensures var field := WithClauses(Bare(name, kind), clauses);
            field.name == name && field.kind == kind && field.goName == Bare(name, kind).goName
            && (field.index <==> HasIndex(clauses)) && (field.unique <==> HasUnique(clauses)) && (field.nullable <==> HasNull(clauses))
            && forall value :: field.default == Some(value) <==> HasDefault(clauses, value)
  {
    hide ParseName, Clauses;
    ClausesMean(Bare(name, kind), clauses);
  }

  /** What a specification must be to be accepted: a field name, a type word, options of which none is repeated, no default or
      uniqueness with `null`, and a default that its type allows. */
  ghost predicate Acceptable(floats: Floats, specification: Specification) {
    && IsFieldName(specification.name) && !HasDoubleUnderscore(specification.name)
    && (exists kind, sql :: TypeWord(specification.word, kind, sql))
    && Clauses(specification.clauses)
    && !(HasNull(specification.clauses) && HasUnique(specification.clauses))
    && forall value :: HasDefault(specification.clauses, value) ==>
         !HasNull(specification.clauses)
         && forall kind, sql :: TypeWord(specification.word, kind, sql) ==> SqlDefault(floats, kind, value).Some?
  }

  lemma DescribedIsAcceptable(floats: Floats, specification: Specification, field: Field)
    requires Describes(specification, field) && IsFieldName(field.name) && !HasDoubleUnderscore(field.name)
    ensures Acceptable(floats, specification) <==> CheckField(floats, field) == Ok(field)
  {
    hide SqlDefault, Clauses, HasDefault, IsFieldName, HasDoubleUnderscore;
    WordsOfTypes(specification.word);
    if field.default.Some? {
      assert HasDefault(specification.clauses, field.default.value);
    }
    assert forall value :: HasDefault(specification.clauses, value) ==> field.default == Some(value);
  }

  /** The specification's text becomes the field that it describes exactly when it is acceptable. */
  lemma SpecificationBecomes(floats: Floats, specification: Specification)
    requires IsFieldName(specification.name) && !HasDoubleUnderscore(specification.name)
    requires (exists kind, sql :: TypeWord(specification.word, kind, sql)) && Clauses(specification.clauses)
    ensures var outcome := FieldOf(floats, SpecificationText(specification));
            (outcome.Ok? <==> Acceptable(floats, specification)) && (outcome.Ok? ==> Describes(specification, outcome.value))
  {
    hide SqlDefault, Clauses, HasDefault, IsFieldName, HasDoubleUnderscore, ApplyOptions, SplitOn, SpecificationText, TypeWord, SqlType,
      ParseName, CheckField, Acceptable;
    WordsOfTypes(specification.word);
    FieldNameHasNoColon(specification.name);
    FieldNamesParse(specification.name);
    PartsOf(specification);
    var kind := ParseType(specification.word).value;
    var field := WithClauses(Bare(specification.name, kind), specification.clauses);
    ClausesApply(Bare(specification.name, kind), specification.clauses, {});
    BareDescribes(specification.name, kind, specification.clauses);
    assert Describes(specification, field);
    DescribedIsAcceptable(floats, specification, field);
    CheckKeeps(floats, field);
  }

  lemma CheckKeeps(floats: Floats, field: Field)
    ensures CheckField(floats, field).Ok? ==> CheckField(floats, field) == Ok(field)
  {
  }

  /** Every text that is accepted is that of an acceptable specification. */
  lemma AcceptedIsSpecification(floats: Floats, text: string) returns (specification: Specification)
    requires FieldOf(floats, text).Ok?
    ensures Acceptable(floats, specification) && SpecificationText(specification) == text
    ensures Describes(specification, FieldOf(floats, text).value)
  {
    hide SqlDefault, Clauses, HasDefault, IsFieldName, HasDoubleUnderscore, ApplyOptions, TypeWord, SqlType, ParseName, CheckField, Acceptable;
    var parts := SplitOn(text, ':');
    JoinSplitOn(text, ':');
    hide SplitOn;
    WordsOfTypes(parts[1]);
    FieldNamesParse(parts[0]);
    var clauses := OptionsAreClauses(Bare(parts[0], ParseType(parts[1]).value), parts[2..], {});
    specification := Specification(parts[0], parts[1], clauses);
    assert parts == [parts[0], parts[1]] + parts[2..];
    SpecificationBecomes(floats, specification);
  }

  // --------------------------------------------------------------------------------------------- columns

  /** The text of a column's default for a written value. */
  predicate DefaultText(kind: FieldType, value: string, text: string) {
    match kind
    case StringField => ReadLiteral(text) == Some(value)
    case TextField => ReadLiteral(text) == Some(value)
    case BoolField => (value == "true" && text == "TRUE") || (value == "false" && text == "FALSE")
    case IntField => text == value
    case FloatField => text == value
    case TimeField => text == "NOW()"
    case JsonField => value == "{}" && text == "'{}'::jsonb"
    case UuidField => false
  }

  /** The line of the column that a specification asks for, over the words of the specification. */
  ghost predicate ColumnLine(specification: Specification, line: string) {
    exists kind, sql ::
      TypeWord(specification.word, kind, sql)
      && var head := "    " + specification.name + " " + sql + (if HasNull(specification.clauses) then "" else " NOT NULL");
         if exists value :: HasDefault(specification.clauses, value) then
           head + " DEFAULT " <= line
           && forall value :: HasDefault(specification.clauses, value) ==> DefaultText(kind, value, line[|head + " DEFAULT "|..])
         else line == head
  }

  lemma DefaultIsText(floats: Floats, kind: FieldType, value: string)
    requires SqlDefault(floats, kind, value).Some?
    ensures DefaultText(kind, value, SqlDefault(floats, kind, value).value)
  {
    if IsTextKind(kind) {
      TextDefaultDenotes(floats, kind, value);
    }
  }

  lemma DescribedColumn(floats: Floats, specification: Specification, field: Field)
    requires Describes(specification, field) && DefaultRenders(floats, field)
    ensures ColumnLine(specification, Column(floats, field))
  {
    hide SqlDefault, SqlType, TypeWord, Clauses, HasDefault, DefaultText;
    var line := Column(floats, field);
    var head := ColumnHead(field);
    assert TypeWord(specification.word, field.kind, SqlType(field.kind));
    if field.default.Some? {
      var value := field.default.value;
      assert HasDefault(specification.clauses, value);
      DefaultIsText(floats, field.kind, value);
      assert line == head + " DEFAULT " + SqlDefault(floats, field.kind, value).value;
      assert line[|head + " DEFAULT "|..] == SqlDefault(floats, field.kind, value).value;
      assert forall other :: HasDefault(specification.clauses, other) ==> field.default == Some(other);
    } else {
      assert line == head + "";
      assert forall other :: HasDefault(specification.clauses, other) ==> field.default == Some(other);
    }
  }

  /** The index statement that a specification asks for. */
  function IndexText(table: string, specification: Specification): seq<string> {
    var name := specification.name;
    if HasUnique(specification.clauses) then
      ["CREATE UNIQUE INDEX " + table + "_" + name + "_unique ON " + table + " (" + name + ") WHERE deleted_at IS NULL"]
    else if HasIndex(specification.clauses) then
      ["CREATE INDEX " + table + "_" + name + "_idx ON " + table + " (" + name + ")"]
    else []
  }

  function IndexTexts(table: string, specifications: seq<Specification>): seq<string> {
    if specifications == [] then [] else IndexText(table, specifications[0]) + IndexTexts(table, specifications[1..])
  }

  ghost predicate AllDescribe(specifications: seq<Specification>, fields: seq<Field>) {
    |specifications| == |fields| && forall i :: 0 <= i < |fields| ==> Describes(specifications[i], fields[i])
  }

  lemma {:induction false} DescribedIndexes(table: string, specifications: seq<Specification>, fields: seq<Field>)
    requires AllDescribe(specifications, fields)
    ensures IndexStatements(table, fields) == IndexTexts(table, specifications)
    decreases |fields|
  {
    if fields != [] {
      DescribedIndex(table, specifications[0], fields[0]);
      hide Describes, IndexText, IndexStatement;
      DescribedIndexes(table, specifications[1..], fields[1..]);
    }
  }

  lemma DescribedIndex(table: string, specification: Specification, field: Field)
    requires Describes(specification, field)
    ensures IndexText(table, specification)
            == if IndexStatement(table, field).Some? then [IndexStatement(table, field).value] else []
  {
    hide TypeWord, SqlType, Clauses;
  }

  lemma {:induction false} DescribedColumns(floats: Floats, specifications: seq<Specification>, fields: seq<Field>)
    requires AllDescribe(specifications, fields) && AllRender(floats, fields)
    ensures forall i :: 0 <= i < |fields| ==> ColumnLine(specifications[i], FieldColumns(floats, fields)[i])
    decreases |fields|
  {
    hide Describes, Column, ColumnLine, DefaultRenders;
    if fields != [] {
      DescribedColumn(floats, specifications[0], fields[0]);
      DescribedColumns(floats, specifications[1..], fields[1..]);
      assert forall i :: 0 < i < |fields| ==> FieldColumns(floats, fields)[i] == FieldColumns(floats, fields[1..])[i - 1];
    }
  }

  lemma {:induction false} SpecificationsOf(floats: Floats, texts: seq<string>, fields: seq<Field>) returns (specifications: seq<Specification>)
    requires |texts| == |fields| && forall i :: 0 <= i < |texts| ==> FieldOf(floats, texts[i]) == Ok(fields[i])
    ensures |specifications| == |texts| && AllDescribe(specifications, fields)
    ensures forall i :: 0 <= i < |texts| ==> SpecificationText(specifications[i]) == texts[i] && Acceptable(floats, specifications[i])
    decreases |texts|
  {
    hide FieldOf, Describes, SpecificationText, Acceptable;
    if texts == [] {
      specifications := [];
    } else {
      var first := AcceptedIsSpecification(floats, texts[0]);
      var rest := SpecificationsOf(floats, texts[1..], fields[1..]);
      specifications := [first] + rest;
      forall i | 0 <= i < |texts|
        ensures Describes(specifications[i], fields[i]) && SpecificationText(specifications[i]) == texts[i] && Acceptable(floats, specifications[i])
      {
        assert i > 0 ==> specifications[i] == rest[i - 1] && texts[i] == texts[1..][i - 1] && fields[i] == fields[1..][i - 1];
      }
    }
  }

  // ---------------------------------------------------------------------------------- the loaded migration

  /** The lines that every table begins with. */
  predicate StandardLines(lines: seq<string>) {
    |lines| == 10 && FirstLines(lines) && LastLines(lines)
  }

  predicate FirstLines(lines: seq<string>)
    requires |lines| == 10
  {
    && lines[0] == "    id UUID PRIMARY KEY"
    && lines[1] == "    name VARCHAR(255) NOT NULL DEFAULT ''"
    && lines[2] == "    description TEXT NOT NULL DEFAULT ''"
    && lines[3] == "    metadata JSONB NOT NULL DEFAULT '{}'::jsonb"
    && lines[4] == "    created_at TIMESTAMPTZ NOT NULL DEFAULT NOW()"
  }

  predicate LastLines(lines: seq<string>)
    requires |lines| == 10
  {
    && lines[5] == "    updated_at TIMESTAMPTZ NOT NULL DEFAULT NOW()"
    && lines[6] == "    deleted_at TIMESTAMPTZ NULL"
    && lines[7] == "    created_by UUID NULL"
    && lines[8] == "    updated_by UUID NULL"
    && lines[9] == "    deleted_by UUID NULL"
  }

  lemma IdLine()
    ensures BaseColumn("id", "UUID PRIMARY KEY") == "    id UUID PRIMARY KEY"
  {
  }

  lemma NameLine()
    ensures BaseColumn("name", "VARCHAR(255) NOT NULL DEFAULT " + "''") == "    name VARCHAR(255) NOT NULL DEFAULT ''"
  {
  }

  lemma DescriptionLine()
    ensures BaseColumn("description", "TEXT NOT NULL DEFAULT " + "''") == "    description TEXT NOT NULL DEFAULT ''"
  {
  }

  lemma MetadataLine()
    ensures BaseColumn("metadata", "JSONB NOT NULL DEFAULT " + "'{}'::jsonb") == "    metadata JSONB NOT NULL DEFAULT '{}'::jsonb"
  {
  }

  lemma CreatedAtLine()
    ensures BaseColumn("created_at", "TIMESTAMPTZ NOT NULL DEFAULT NOW()") == "    created_at TIMESTAMPTZ NOT NULL DEFAULT NOW()"
  {
    assert "    " + "created_at" + " " == "    created_at ";
    assert "    created_at " + "TIMESTAMPTZ NOT NULL DEFAULT NOW()" == "    created_at TIMESTAMPTZ NOT NULL DEFAULT NOW()";
  }

  lemma UpdatedAtLine()
    ensures BaseColumn("updated_at", "TIMESTAMPTZ NOT NULL DEFAULT NOW()") == "    updated_at TIMESTAMPTZ NOT NULL DEFAULT NOW()"
  {
    assert "    " + "updated_at" + " " == "    updated_at ";
    assert "    updated_at " + "TIMESTAMPTZ NOT NULL DEFAULT NOW()" == "    updated_at TIMESTAMPTZ NOT NULL DEFAULT NOW()";
  }

  lemma DeletedAtLine()
    ensures BaseColumn("deleted_at", "TIMESTAMPTZ NULL") == "    deleted_at TIMESTAMPTZ NULL"
  {
  }

  lemma CreatedByLine()
    ensures BaseColumn("created_by", "UUID NULL") == "    created_by UUID NULL"
  {
  }

  lemma UpdatedByLine()
    ensures BaseColumn("updated_by", "UUID NULL") == "    updated_by UUID NULL"
  {
  }

  lemma DeletedByLine()
    ensures BaseColumn("deleted_by", "UUID NULL") == "    deleted_by UUID NULL"
  {
  }

  lemma BaseAreStandard()
    ensures StandardLines(BaseColumns())
  {
    hide BaseColumn;
    IdLine();
    NameLine();
    DescriptionLine();
    MetadataLine();
    CreatedAtLine();
    UpdatedAtLine();
    DeletedAtLine();
    CreatedByLine();
    UpdatedByLine();
    DeletedByLine();
  }

  /** What is loaded is the migration of the table that the specifications ask for. */
  ghost predicate IsMigrationFor(migration: Migration, table: string, specifications: seq<Specification>, lines: seq<string>) {
    && |lines| == 10 + |specifications| && StandardLines(lines[..10])
    && (forall i :: 0 <= i < |specifications| ==> ColumnLine(specifications[i], lines[10 + i]))
    && migration.up == ["CREATE TABLE " + table + " (\n" + Join(lines, ",\n") + "\n)"] + IndexTexts(table, specifications)
    && migration.down == ["DROP TABLE " + table]
  }

  const STANDARD_NAMES := ["id", "name", "description", "metadata", "created_at", "updated_at", "deleted_at",
                           "created_by", "updated_by", "deleted_by"]

  /** The names of all columns differ. */
  predicate ColumnsDiffer(specifications: seq<Specification>) {
    && (forall i :: 0 <= i < |specifications| ==> specifications[i].name !in STANDARD_NAMES)
    && (forall i, j :: 0 <= i < j < |specifications| ==> specifications[i].name != specifications[j].name)
  }

  lemma DescribedDiffer(floats: Floats, specifications: seq<Specification>, fields: seq<Field>)
    requires AllDescribe(specifications, fields) && ValidFields(floats, fields)
    ensures ColumnsDiffer(specifications)
  {
    hide ValidField;
    StandardAreBase();
    assert forall i :: 0 <= i < |fields| ==> Describes(specifications[i], fields[i]) && specifications[i].name == fields[i].name;
  }

  lemma StandardAreBase()
    ensures forall name :: name in STANDARD_NAMES ==> name in BASE_FIELDS
  {
  }

  /** A file is loaded under its name without the extension. */
  lemma LoadedName(name: string, contents: string)
    requires Load(name + ".sql", contents).Ok?
    ensures Load(name + ".sql", contents).value.name == name
  {
    hide Read, ScanAll;
    var base := name + ".sql";
    assert base[|base| - 4..] == ".sql" && base[..|base| - 4] == name;
  }

  /** From the accepted specification texts to the loaded statements: the generated migration loads as the table with the ten
      standard columns and then one for each specification, with the SQL type of its type word, its nullability and a default
      that denotes the one written, followed by the indexes asked for. */
  lemma SpecifiedMigrationLoads(floats: Floats, raw: Ascii, texts: seq<string>, base: string)
    returns (specifications: seq<Specification>, lines: seq<string>)
    requires FloatsAreShaped(floats) && ParseName(raw).Some? && FieldsFrom(floats, texts, []).Ok?
    ensures |specifications| == |texts| && ColumnsDiffer(specifications)
    ensures forall i :: 0 <= i < |texts| ==> SpecificationText(specifications[i]) == texts[i] && Acceptable(floats, specifications[i])
    ensures var table, fields := ParseName(raw).value.table, FieldsFrom(floats, texts, []).value;
            AllRender(floats, fields)
            && (TooLong !in ScanAll(MigrationText(floats, table, fields)) ==>
                  Load(base, MigrationText(floats, table, fields)).Ok?
                  && IsMigrationFor(Load(base, MigrationText(floats, table, fields)).value, table, specifications, lines))
  {
    hide FloatsAreShaped, ParseName, FieldsFrom, ScanAll, MigrationText, Load, FieldOf, SpecificationText, Acceptable, AllDescribe, IndexTexts,
      IndexStatements, BaseColumns, FieldColumns, ColumnLine, StandardLines;
    var table, fields := ParseName(raw).value.table, FieldsFrom(floats, texts, []).value;
    GeneratedMigration.GeneratedMigrationLoads(floats, raw, texts, base);
    FieldsAreValid(floats, texts, []);
    specifications := SpecificationsOf(floats, texts, fields);
    DescribedDiffer(floats, specifications, fields);
    DescribedIndexes(table, specifications, fields);
    DescribedColumns(floats, specifications, fields);
    BaseAreStandard();
    lines := BaseColumns() + FieldColumns(floats, fields);
    TenLines();
    assert lines[..10] == BaseColumns();
  }

  lemma TenLines()
    ensures |BaseColumns()| == 10
  {
  }
}
