/** The migration file that the generator renders is the one that the loader reads back. */
module GeneratedMigration {
  import opened Text
  import opened SqlLexer
  import opened SqlTiles
  import opened Names
  import opened Fields
  import opened MigrationRender
  import opened MigrationFile

  // ---- Every rendered statement is one statement to the splitter

  predicate AllSnake(s: string) {
    s != "" && forall i :: 0 <= i < |s| ==> IsSnakeChar(s[i])
  }

  lemma SnakeIsPlain(s: string)
    requires AllSnake(s)
    ensures AllPlain(s)
  {
  }

  lemma PlainConcat(a: string, b: string)
    requires AllPlain(a) && AllPlain(b)
    ensures AllPlain(a + b)
  {
  }

  lemma TypeIsPlain(kind: FieldType)
    ensures AllPlain(SqlType(kind))
  {
  }

  lemma HeadIsPlain(field: Field)
    requires IsFieldName(field.name)
    ensures AllPlain(ColumnHead(field))
  {
    hide AllPlain, SqlType;
    LiteralsArePlain();
    SnakeIsPlain(field.name);
    TypeIsPlain(field.kind);
    PlainConcat("    ", field.name);
    PlainConcat("    " + field.name, " ");
    PlainConcat("    " + field.name + " ", SqlType(field.kind));
    PlainConcat("    " + field.name + " " + SqlType(field.kind), if field.nullable then "" else " NOT NULL");
  }

  lemma LiteralsArePlain()
    ensures AllPlain("    ") && AllPlain(" ") && AllPlain("") && AllPlain(" NOT NULL") && AllPlain(" DEFAULT ")
    ensures AllPlain("CREATE TABLE ") && AllPlain(" (\n") && AllPlain(",\n") && AllPlain("\n)")
    ensures AllPlain("CREATE UNIQUE INDEX ") && AllPlain("_") && AllPlain("_unique ON ") && AllPlain(" (")
    ensures AllPlain(") WHERE deleted_at IS NULL") && AllPlain("CREATE INDEX ") && AllPlain("_idx ON ") && AllPlain(")")
    ensures AllPlain("DROP TABLE ")
  {
  }

  lemma TilesColumn(floats: Floats, field: Field, b: string)
    requires FloatsAreShaped(floats) && ValidField(floats, field)
    requires Tiles(b) && b != "" && (b[0] == '\n' || b[0] == ',')
    ensures Tiles(Column(floats, field) + b)
  {
    hide Tiles, FloatsAreShaped, SqlDefault, AllPlain, ColumnHead;
    var head := ColumnHead(field);
    HeadIsPlain(field);
    if field.default.None? {
      assert head + "" + b == head + b;
      TilesPlain(head, b);
    } else {
      var value := SqlDefault(floats, field.kind, field.default.value).value;
      TilesDefault(floats, field.kind, field.default.value, b);
      LiteralsArePlain();
      PlainConcat(head, " DEFAULT ");
      TilesPlain(head + " DEFAULT ", value + b);
      assert Column(floats, field) + b == head + " DEFAULT " + (value + b);
    }
  }

  /** A column text that stays whole lexemes in front of a comma or a newline. */
  ghost predicate IsColumn(column: string) {
    forall b :: Tiles(b) && b != "" && (b[0] == '\n' || b[0] == ',') ==> Tiles(column + b)
  }

  lemma PlainIsColumn(column: string)
    requires AllPlain(column)
    ensures IsColumn(column)
  {
    hide Tiles, AllPlain;
    forall b | Tiles(b) && b != "" && (b[0] == '\n' || b[0] == ',') ensures Tiles(column + b) {
      TilesPlain(column, b);
    }
  }

  lemma QuotedIsColumn(head: string)
    requires AllPlain(head)
    ensures IsColumn(head + "''")
  {
    hide Tiles, AllPlain;
    assert "'" + DoubleQuotes("") + "'" == "''";
    forall b | Tiles(b) && b != "" && (b[0] == '\n' || b[0] == ',') ensures Tiles(head + "''" + b) {
      TilesQuoted("", b);
      TilesPlain(head, "''" + b);
      assert head + "''" + b == head + ("''" + b);
    }
  }

  lemma JsonIsColumn(head: string)
    requires AllPlain(head)
    ensures IsColumn(head + "'{}'::jsonb")
  {
    hide Tiles, AllPlain;
    forall b | Tiles(b) && b != "" && (b[0] == '\n' || b[0] == ',') ensures Tiles(head + "'{}'::jsonb" + b) {
      TilesJson(b);
      TilesPlain(head, "'{}'::jsonb" + b);
      assert head + "'{}'::jsonb" + b == head + ("'{}'::jsonb" + b);
    }
  }

  lemma FieldIsColumn(floats: Floats, field: Field)
    requires FloatsAreShaped(floats) && ValidField(floats, field)
    ensures IsColumn(Column(floats, field))
  {
    hide Tiles;
    forall b | Tiles(b) && b != "" && (b[0] == '\n' || b[0] == ',') ensures Tiles(Column(floats, field) + b) {
      TilesColumn(floats, field, b);
    }
  }

  lemma DefinitionsArePlain()
    ensures AllPlain("UUID PRIMARY KEY") && AllPlain("TIMESTAMPTZ NOT NULL DEFAULT NOW()")
    ensures AllPlain("TIMESTAMPTZ NULL") && AllPlain("UUID NULL")
  {
  }

  lemma DefaultedArePlain()
    ensures AllPlain("VARCHAR(255) NOT NULL DEFAULT ") && AllPlain("TEXT NOT NULL DEFAULT ")
    ensures AllPlain("JSONB NOT NULL DEFAULT ")
  {
  }

  lemma PlainBaseColumn(name: string, definition: string)
    requires AllSnake(name) && AllPlain(definition)
    ensures AllPlain(BaseColumn(name, definition))
    ensures IsColumn(BaseColumn(name, definition))
    ensures IsColumn(BaseColumn(name, definition + "''"))
    ensures IsColumn(BaseColumn(name, definition + "'{}'::jsonb"))
  {
    hide AllPlain, IsColumn;
    LiteralsArePlain();
    SnakeIsPlain(name);
    PlainConcat("    ", name);
    PlainConcat("    " + name, " ");
    PlainConcat("    " + name + " ", definition);
    var head := BaseColumn(name, definition);
    PlainIsColumn(head);
    QuotedIsColumn(head);
    assert head + "''" == BaseColumn(name, definition + "''");
    JsonIsColumn(head);
    assert head + "'{}'::jsonb" == BaseColumn(name, definition + "'{}'::jsonb");
  }

  lemma BaseAreColumns()
    ensures |BaseColumns()| == 10 && forall i :: 0 <= i < 10 ==> IsColumn(BaseColumns()[i])
  {
    hide AllPlain, IsColumn, BaseColumn;
    DefinitionsArePlain();
    DefaultedArePlain();
    PlainBaseColumn("id", "UUID PRIMARY KEY");
    PlainBaseColumn("name", "VARCHAR(255) NOT NULL DEFAULT ");
    PlainBaseColumn("description", "TEXT NOT NULL DEFAULT ");
    PlainBaseColumn("metadata", "JSONB NOT NULL DEFAULT ");
    PlainBaseColumn("created_at", "TIMESTAMPTZ NOT NULL DEFAULT NOW()");
    PlainBaseColumn("updated_at", "TIMESTAMPTZ NOT NULL DEFAULT NOW()");
    PlainBaseColumn("deleted_at", "TIMESTAMPTZ NULL");
    PlainBaseColumn("created_by", "UUID NULL");
    PlainBaseColumn("updated_by", "UUID NULL");
    PlainBaseColumn("deleted_by", "UUID NULL");
  }

  lemma {:induction false} ColumnsTile(columns: seq<string>, b: string)
    requires forall i :: 0 <= i < |columns| ==> IsColumn(columns[i])
    requires Tiles(b) && b != "" && b[0] == '\n'
    ensures Tiles(Join(columns, ",\n") + b)
  {
    hide Tiles;
    if columns == [] {
      assert "" + b == b;
    } else if |columns| == 1 {
      assert IsColumn(columns[0]);
    } else {
      var rest := Join(columns[1..], ",\n") + b;
      ColumnsTile(columns[1..], b);
      assert AllPlain(",\n");
      TilesPlain(",\n", rest);
      assert IsColumn(columns[0]) && (",\n" + rest)[0] == ',';
      assert Join(columns, ",\n") + b == columns[0] + (",\n" + rest);
    }
  }

  /** A statement that the splitter returns as it is when a semicolon follows it. */
  predicate IsStatement(s: string) {
    s != "" && Trimmed(s) && Tiles(s)
  }

  lemma CreateIsStatement(table: string, columns: seq<string>)
    requires AllSnake(table) && forall i :: 0 <= i < |columns| ==> IsColumn(columns[i])
    ensures IsStatement(CreateStatement(table, columns))
  {
    hide Tiles, AllPlain, IsColumn;
    LiteralsArePlain();
    SnakeIsPlain(table);
    TilesEmpty();
    TilesPlain("\n)", "");
    assert "\n)" + "" == "\n)";
    ColumnsTile(columns, "\n)");
    var head := "CREATE TABLE " + table + " (\n";
    PlainConcat("CREATE TABLE ", table);
    PlainConcat("CREATE TABLE " + table, " (\n");
    TilesPlain(head, Join(columns, ",\n") + "\n)");
    var s := CreateStatement(table, columns);
    assert s == head + (Join(columns, ",\n") + "\n)");
    assert s[0] == 'C' && s[|s| - 1] == ')';
  }

  lemma TilesEmpty()
    ensures Tiles("")
  {
  }

  lemma PlainIsStatement(s: string)
    requires s != "" && AllPlain(s) && Trimmed(s)
    ensures IsStatement(s)
  {
    TilesPlain(s, "");
    assert s + "" == s;
  }

  lemma IndexIsStatement(table: string, field: Field)
    requires AllSnake(table) && IsFieldName(field.name) && IndexStatement(table, field).Some?
    ensures IsStatement(IndexStatement(table, field).value)
  {
    hide Tiles, AllPlain, IsStatement;
    var s := IndexStatement(table, field).value;
    LiteralsArePlain();
    SnakeIsPlain(table);
    SnakeIsPlain(field.name);
    if field.unique {
      PlainConcat("CREATE UNIQUE INDEX ", table);
      PlainConcat("CREATE UNIQUE INDEX " + table, "_");
      PlainConcat("CREATE UNIQUE INDEX " + table + "_", field.name);
      PlainConcat("CREATE UNIQUE INDEX " + table + "_" + field.name, "_unique ON ");
      PlainConcat("CREATE UNIQUE INDEX " + table + "_" + field.name + "_unique ON ", table);
      PlainConcat("CREATE UNIQUE INDEX " + table + "_" + field.name + "_unique ON " + table, " (");
      PlainConcat("CREATE UNIQUE INDEX " + table + "_" + field.name + "_unique ON " + table + " (", field.name);
      PlainConcat("CREATE UNIQUE INDEX " + table + "_" + field.name + "_unique ON " + table + " (" + field.name,
                  ") WHERE deleted_at IS NULL");
    } else {
      PlainConcat("CREATE INDEX ", table);
      PlainConcat("CREATE INDEX " + table, "_");
      PlainConcat("CREATE INDEX " + table + "_", field.name);
      PlainConcat("CREATE INDEX " + table + "_" + field.name, "_idx ON ");
      PlainConcat("CREATE INDEX " + table + "_" + field.name + "_idx ON ", table);
      PlainConcat("CREATE INDEX " + table + "_" + field.name + "_idx ON " + table, " (");
      PlainConcat("CREATE INDEX " + table + "_" + field.name + "_idx ON " + table + " (", field.name);
      PlainConcat("CREATE INDEX " + table + "_" + field.name + "_idx ON " + table + " (" + field.name, ")");
    }
    assert s[0] == 'C' && (s[|s| - 1] == ')' || s[|s| - 1] == 'L');
    PlainIsStatement(s);
  }

  lemma DropIsStatement(table: string)
    requires AllSnake(table)
    ensures IsStatement(DropStatement(table))
  {
    hide Tiles, AllPlain;
    LiteralsArePlain();
    SnakeIsPlain(table);
    PlainConcat("DROP TABLE ", table);
    var s := DropStatement(table);
    assert s[0] == 'D' && s[|s| - 1] == table[|table| - 1];
    PlainIsStatement(s);
  }

  lemma {:induction false} SplitBlank(pending: string, tail: string)
    requires Blank(pending) && Blank(tail)
    ensures Split(pending, tail) == Statements([])
    decreases |tail|
  {
    if tail == "" {
      assert pending + "" + "" == pending;
      TrimUnique(pending, "", "");
    } else {
      hide Split;
      assert tail == [tail[0]] + tail[1..];
      SplitSeparator(pending, tail[0], tail[1..]);
      SplitBlank(pending + [tail[0]], tail[1..]);
    }
  }

  lemma {:induction false} SplitTerminated(pending: string, statements: seq<string>, tail: string)
    requires Blank(pending) && Blank(tail) && forall s :: s in statements ==> IsStatement(s)
    ensures Split(pending, Terminated(statements) + tail) == Statements(statements)
    decreases |statements|
  {
    hide Split, Tiles, Trim;
    if statements == [] {
      assert "" + tail == tail;
      SplitBlank(pending, tail);
    } else {
      var a, rest := statements[0], Terminated(statements[1..]) + tail;
      assert IsStatement(a);
      assert Terminated(statements) + tail == a + ";" + (['\n'] + rest);
      SplitTiles(pending, a, ['\n'] + rest);
      assert pending + a + "" == pending + a;
      TrimUnique(pending, a, "");
      SplitSeparator("", '\n', rest);
      assert "" + ['\n'] == "\n";
      SplitTerminated("\n", statements[1..], tail);
      assert [a] + statements[1..] == statements;
    }
  }

  // ---- The scanner delivers the rendered lines, and none of the statement lines is a marker

  predicate NoBreaks(s: string) {
    forall i :: 0 <= i < |s| ==> s[i] != '\n' && s[i] != '\r'
  }

  /** A line the scanner delivers as it is and the section machine keeps. */
  predicate IsBodyLine(s: string) {
    NoBreaks(s) && !IsMarker(s)
  }

  function UnlinesOf(lines: seq<string>): string {
    if lines == [] then "" else lines[0] + "\n" + UnlinesOf(lines[1..])
  }

  function AsLines(lines: seq<string>): (scanned: seq<Scanned>)
    ensures |scanned| == |lines| && forall i :: 0 <= i < |lines| ==> scanned[i] == Line(lines[i])
  {
    if lines == [] then [] else [Line(lines[0])] + AsLines(lines[1..])
  }

  lemma {:induction false} LineLengthOf(line: string, rest: string)
    requires NoBreaks(line)
    ensures LineLength(line + "\n" + rest) == |line|
  {
    var s := line + "\n" + rest;
    if line != "" {
      assert s[0] == line[0] && s[1..] == line[1..] + "\n" + rest;
      LineLengthOf(line[1..], rest);
    }
  }

  lemma ScanFirst(line: string, later: string)
    requires NoBreaks(line)
    ensures ScanAll(line + "\n" + later) == if Fits(line) then [Line(line)] + ScanAll(later) else [TooLong]
  {
    hide Fits;
    var s := line + "\n" + later;
    LineLengthOf(line, later);
    assert s[..|line|] == line && s[|line| + 1..] == later;
    assert DropReturn(line) == line;
  }

  lemma {:induction false} ScanLines(lines: seq<string>, rest: string)
    requires forall i :: 0 <= i < |lines| ==> NoBreaks(lines[i])
    requires TooLong !in ScanAll(UnlinesOf(lines) + rest)
    ensures ScanAll(UnlinesOf(lines) + rest) == AsLines(lines) + ScanAll(rest)
  {
    hide Fits, ScanAll, NoBreaks;
    if lines == [] {
      assert "" + rest == rest && [] + ScanAll(rest) == ScanAll(rest);
    } else {
      var line, later := lines[0], UnlinesOf(lines[1..]) + rest;
      assert UnlinesOf(lines) + rest == line + "\n" + later;
      ScanFirst(line, later);
      assert TooLong in [TooLong];
      assert TooLong !in ScanAll(later);
      ScanLines(lines[1..], rest);
    }
  }

  lemma {:induction false} UnlinesAsLines(lines: seq<string>)
    ensures Unlines(AsLines(lines)) == UnlinesOf(lines)
  {
    if lines != [] {
      assert AsLines(lines)[1..] == AsLines(lines[1..]);
      UnlinesAsLines(lines[1..]);
    }
  }

  lemma {:induction false} UnlinesAppend(a: seq<string>, b: seq<string>)
    ensures UnlinesOf(a + b) == UnlinesOf(a) + UnlinesOf(b)
  {
    if a == [] {
      assert a + b == b;
    } else {
      assert (a + b)[1..] == a[1..] + b;
      UnlinesAppend(a[1..], b);
    }
  }

  /** A line whose first visible character is not a dash is not a marker. */
  lemma NotMarker(left: string, line: string)
    requires Blank(left) && (line == "" || (!IsSpace(line[0]) && line[0] != '-'))
    ensures !IsMarker(left + line)
  {
    TrimBlank(left, line, "");
    assert left + line + "" == left + line;
    if line != "" {
      TrimFirst(line);
    }
  }

  /** The lines of the columns: all but the last end in a comma. */
  function CommaLines(columns: seq<string>): seq<string>
    requires columns != []
  {
    if |columns| == 1 then columns else [columns[0] + ","] + CommaLines(columns[1..])
  }

  lemma {:induction false} CommaLinesText(columns: seq<string>)
    requires columns != []
    ensures UnlinesOf(CommaLines(columns)) == Join(columns, ",\n") + "\n"
  {
    if |columns| == 1 {
      assert columns[1..] == [];
      assert columns[0] + "\n" + "" == columns[0] + "\n";
    } else {
      CommaLinesText(columns[1..]);
      var rest := Join(columns[1..], ",\n");
      assert CommaLines(columns)[1..] == CommaLines(columns[1..]);
      assert columns[0] + "," + "\n" + (rest + "\n") == columns[0] + ",\n" + rest + "\n";
    }
  }

  predicate IsColumnLine(column: string) {
    |column| > 4 && column[..4] == "    " && IsSnakeChar(column[4]) && NoBreaks(column)
  }

  lemma ColumnLineIsBody(column: string, comma: string)
    requires IsColumnLine(column) && (comma == "" || comma == ",")
    ensures IsBodyLine(column + comma)
  {
    assert column + comma == column[..4] + (column[4..] + comma);
    assert (column[4..] + comma)[0] == column[4];
    hide IsMarker;
    NotMarker(column[..4], column[4..] + comma);
  }

  lemma {:induction false} CommaLinesAreBody(columns: seq<string>)
    requires columns != [] && forall i :: 0 <= i < |columns| ==> IsColumnLine(columns[i])
    ensures forall i :: 0 <= i < |CommaLines(columns)| ==> IsBodyLine(CommaLines(columns)[i])
  {
    hide IsColumnLine, IsBodyLine;
    if |columns| == 1 {
      ColumnLineIsBody(columns[0], "");
      assert columns[0] + "" == columns[0];
    } else {
      ColumnLineIsBody(columns[0], ",");
      CommaLinesAreBody(columns[1..]);
    }
  }

  // ---- The whole file

  function CreateLines(table: string, columns: seq<string>): seq<string>
    requires columns != []
  {
    ["CREATE TABLE " + table + " ("] + CommaLines(columns) + [");"]
  }

  function StatementLines(statements: seq<string>): seq<string> {
    if statements == [] then [] else [statements[0] + ";"] + StatementLines(statements[1..])
  }

  function UpLines(table: string, columns: seq<string>, indexes: seq<string>): seq<string>
    requires columns != []
  {
    CreateLines(table, columns) + StatementLines(indexes) + [""]
  }

  lemma OneLine(line: string)
    ensures UnlinesOf([line]) == line + "\n"
  {
    assert line + "\n" + "" == line + "\n";
  }

  lemma CreateLinesText(table: string, columns: seq<string>)
    requires columns != []
    ensures UnlinesOf(CreateLines(table, columns)) == CreateStatement(table, columns) + ";\n"
  {
    hide UnlinesOf, Join;
    var first := "CREATE TABLE " + table + " (";
    OneLine(first);
    OneLine(");");
    CommaLinesText(columns);
    UnlinesAppend([first], CommaLines(columns));
    UnlinesAppend([first] + CommaLines(columns), [");"]);
    var joined := Join(columns, ",\n");
    assert first + "\n" + (joined + "\n") + ");\n" == "CREATE TABLE " + table + " (\n" + joined + "\n)" + ";\n";
  }

  lemma {:induction false} StatementLinesText(statements: seq<string>)
    ensures UnlinesOf(StatementLines(statements)) == Terminated(statements)
  {
    hide Terminated;
    if statements == [] {
      NoIndexes("");
    } else {
      TerminatedOne(statements[0]);
      TerminatedAppend([statements[0]], statements[1..]);
      assert [statements[0]] + statements[1..] == statements;
      StatementLinesText(statements[1..]);
      var s, rest := statements[0], Terminated(statements[1..]);
      assert StatementLines(statements)[1..] == StatementLines(statements[1..]);
      assert s + ";" + "\n" + rest == s + ";\n" + rest;
    }
  }

  lemma UpLinesText(table: string, columns: seq<string>, indexes: seq<string>)
    requires columns != []
    ensures UnlinesOf(UpLines(table, columns, indexes))
            == Terminated([CreateStatement(table, columns)] + indexes) + "\n"
  {
    hide CreateLines, CreateStatement, Terminated, UnlinesOf, StatementLines;
    CreateLinesText(table, columns);
    StatementLinesText(indexes);
    OneLine("");
    assert "" + "\n" == "\n";
    UnlinesAppend(CreateLines(table, columns), StatementLines(indexes));
    UnlinesAppend(CreateLines(table, columns) + StatementLines(indexes), [""]);
    TerminatedOne(CreateStatement(table, columns));
    TerminatedAppend([CreateStatement(table, columns)], indexes);
  }

  predicate IsBodyStatement(s: string) {
    s != "" && NoBreaks(s) && !IsSpace(s[0]) && s[0] != '-'
  }

  lemma {:induction false} StatementLinesAreBody(statements: seq<string>)
    requires forall i :: 0 <= i < |statements| ==> IsBodyStatement(statements[i])
    ensures forall i :: 0 <= i < |StatementLines(statements)| ==> IsBodyLine(StatementLines(statements)[i])
  {
    hide IsMarker;
    if statements != [] {
      var s := statements[0];
      assert "" + (s + ";") == s + ";";
      NotMarker("", s + ";");
      StatementLinesAreBody(statements[1..]);
    }
  }

  lemma UpLinesAreBody(table: string, columns: seq<string>, indexes: seq<string>)
    requires AllSnake(table) && columns != []
    requires forall i :: 0 <= i < |columns| ==> IsColumnLine(columns[i])
    requires forall i :: 0 <= i < |indexes| ==> IsBodyStatement(indexes[i])
    ensures forall i :: 0 <= i < |UpLines(table, columns, indexes)| ==> IsBodyLine(UpLines(table, columns, indexes)[i])
  {
    hide IsMarker, IsColumnLine;
    var first := "CREATE TABLE " + table + " (";
    assert NoBreaks(first);
    assert "" + first == first && "" + ");" == ");" && "" + "" == "";
    NotMarker("", first);
    NotMarker("", ");");
    NotMarker("", "");
    assert IsBodyLine(first) && IsBodyLine(");") && IsBodyLine("");
    hide IsBodyLine;
    CommaLinesAreBody(columns);
    StatementLinesAreBody(indexes);
  }

  lemma {:induction false} NoBreaksDoubled(s: string)
    requires NoBreaks(s)
    ensures NoBreaks(DoubleQuotes(s))
  {
    if s != "" {
      NoBreaksDoubled(s[1..]);
    }
  }

  lemma DefaultHasNoBreaks(floats: Floats, kind: FieldType, value: string)
    requires FloatsAreShaped(floats) && SqlDefault(floats, kind, value).Some?
    ensures NoBreaks(SqlDefault(floats, kind, value).value)
  {
    match kind
    case IntField => IntShape(value);
    case FloatField => assert FloatShape(value);
    case StringField => NoBreaksDoubled(value);
    case TextField => NoBreaksDoubled(value);
    case _ =>
  }

  lemma DefinitionHasNoBreaks(field: Field)
    ensures NoBreaks(" " + SqlType(field.kind) + (if field.nullable then "" else " NOT NULL"))
  {
  }

  lemma HeadIsColumnLine(field: Field)
    requires IsFieldName(field.name)
    ensures IsColumnLine(ColumnHead(field))
  {
    DefinitionHasNoBreaks(field);
    hide SqlType;
    var definition := " " + SqlType(field.kind) + (if field.nullable then "" else " NOT NULL");
    var head := ColumnHead(field);
    assert head == "    " + (field.name + definition);
    assert head[4] == field.name[0] && head[..4] == "    ";
  }

  lemma ColumnLineGrows(column: string, more: string)
    requires IsColumnLine(column) && NoBreaks(more)
    ensures IsColumnLine(column + more)
  {
    assert (column + more)[..4] == column[..4] && (column + more)[4] == column[4];
  }

  lemma FieldIsColumnLine(floats: Floats, field: Field)
    requires FloatsAreShaped(floats) && ValidField(floats, field)
    ensures IsColumnLine(Column(floats, field))
  {
    hide FloatsAreShaped, SqlDefault, IsColumnLine, ColumnHead;
    HeadIsColumnLine(field);
    assert NoBreaks("") && NoBreaks(" DEFAULT ");
    if field.default.Some? {
      DefaultHasNoBreaks(floats, field.kind, field.default.value);
    }
    ColumnLineGrows(ColumnHead(field), DefaultClause(floats, field));
  }

  lemma BaseIsColumnLine(name: string, definition: string)
    requires AllSnake(name) && NoBreaks(definition)
    ensures IsColumnLine(BaseColumn(name, definition))
  {
    var column := BaseColumn(name, definition);
    assert column == "    " + (name + " " + definition);
    assert column[4] == name[0];
  }

  lemma DefinitionsHaveNoBreaks()
    ensures NoBreaks("UUID PRIMARY KEY") && NoBreaks("TIMESTAMPTZ NOT NULL DEFAULT NOW()")
    ensures NoBreaks("TIMESTAMPTZ NULL") && NoBreaks("UUID NULL")
    ensures NoBreaks("''") && NoBreaks("'{}'::jsonb")
  {
  }

  lemma DefaultedHaveNoBreaks()
    ensures NoBreaks("VARCHAR(255) NOT NULL DEFAULT ") && NoBreaks("TEXT NOT NULL DEFAULT ")
    ensures NoBreaks("JSONB NOT NULL DEFAULT ")
  {
  }

  lemma NoBreaksConcat(a: string, b: string)
    requires NoBreaks(a) && NoBreaks(b)
    ensures NoBreaks(a + b)
  {
  }

  lemma BaseAreColumnLines()
    ensures forall i :: 0 <= i < 10 ==> IsColumnLine(BaseColumns()[i])
  {
    hide IsColumnLine, BaseColumn, NoBreaks;
    DefinitionsHaveNoBreaks();
    DefaultedHaveNoBreaks();
    NoBreaksConcat("VARCHAR(255) NOT NULL DEFAULT ", "''");
    NoBreaksConcat("TEXT NOT NULL DEFAULT ", "''");
    NoBreaksConcat("JSONB NOT NULL DEFAULT ", "'{}'::jsonb");
    BaseIsColumnLine("id", "UUID PRIMARY KEY");
    BaseIsColumnLine("name", "VARCHAR(255) NOT NULL DEFAULT " + "''");
    BaseIsColumnLine("description", "TEXT NOT NULL DEFAULT " + "''");
    BaseIsColumnLine("metadata", "JSONB NOT NULL DEFAULT " + "'{}'::jsonb");
    BaseIsColumnLine("created_at", "TIMESTAMPTZ NOT NULL DEFAULT NOW()");
    BaseIsColumnLine("updated_at", "TIMESTAMPTZ NOT NULL DEFAULT NOW()");
    BaseIsColumnLine("deleted_at", "TIMESTAMPTZ NULL");
    BaseIsColumnLine("created_by", "UUID NULL");
    BaseIsColumnLine("updated_by", "UUID NULL");
    BaseIsColumnLine("deleted_by", "UUID NULL");
  }

  // ---- The theorem

  lemma {:induction false} ColumnsOf(floats: Floats, fields: seq<Field>)
    requires FloatsAreShaped(floats) && forall i :: 0 <= i < |fields| ==> ValidField(floats, fields[i])
    ensures AllRender(floats, fields)
    ensures forall i :: 0 <= i < |fields| ==>
              IsColumn(FieldColumns(floats, fields)[i]) && IsColumnLine(FieldColumns(floats, fields)[i])
  {
    hide FloatsAreShaped, ValidField, IsColumn, IsColumnLine, Column, DefaultRenders;
    if fields != [] {
      FieldRenders(floats, fields[0]);
      FieldIsColumn(floats, fields[0]);
      FieldIsColumnLine(floats, fields[0]);
      ColumnsOf(floats, fields[1..]);
      assert forall i :: 0 < i < |fields| ==> fields[i] == fields[1..][i - 1];
    }
  }

  lemma FieldRenders(floats: Floats, field: Field)
    requires ValidField(floats, field)
    ensures DefaultRenders(floats, field)
  {
  }

  lemma IndexTextsHaveNoBreaks()
    ensures NoBreaks("CREATE UNIQUE INDEX ") && NoBreaks("_unique ON ") && NoBreaks(") WHERE deleted_at IS NULL")
    ensures NoBreaks("CREATE INDEX ") && NoBreaks("_idx ON ") && NoBreaks("_") && NoBreaks(" (") && NoBreaks(")")
  {
  }

  lemma NoBreaksIndex(opening: string, table: string, name: string, middle: string, closing: string)
    requires NoBreaks(opening) && NoBreaks(table) && NoBreaks(name) && NoBreaks(middle) && NoBreaks(closing)
    requires NoBreaks("_") && NoBreaks(" (")
    ensures NoBreaks(opening + table + "_" + name + middle + table + " (" + name + closing)
  {
    hide NoBreaks;
    NoBreaksConcat(opening, table);
    NoBreaksConcat(opening + table, "_");
    NoBreaksConcat(opening + table + "_", name);
    NoBreaksConcat(opening + table + "_" + name, middle);
    NoBreaksConcat(opening + table + "_" + name + middle, table);
    NoBreaksConcat(opening + table + "_" + name + middle + table, " (");
    NoBreaksConcat(opening + table + "_" + name + middle + table + " (", name);
    NoBreaksConcat(opening + table + "_" + name + middle + table + " (" + name, closing);
  }

  lemma IndexIsBody(table: string, field: Field)
    requires AllSnake(table) && IsFieldName(field.name) && IndexStatement(table, field).Some?
    ensures IsBodyStatement(IndexStatement(table, field).value)
  {
    assert NoBreaks(table) && NoBreaks(field.name);
    IndexTextsHaveNoBreaks();
    hide NoBreaks;
    if field.unique {
      NoBreaksIndex("CREATE UNIQUE INDEX ", table, field.name, "_unique ON ", ") WHERE deleted_at IS NULL");
    } else {
      NoBreaksIndex("CREATE INDEX ", table, field.name, "_idx ON ", ")");
    }
    assert IndexStatement(table, field).value[0] == 'C';
  }

  lemma {:induction false} IndexesOf(table: string, fields: seq<Field>)
    requires AllSnake(table) && forall i :: 0 <= i < |fields| ==> IsFieldName(fields[i].name)
    ensures forall i :: 0 <= i < |IndexStatements(table, fields)| ==>
              IsStatement(IndexStatements(table, fields)[i]) && IsBodyStatement(IndexStatements(table, fields)[i])
  {
    hide IsFieldName, AllSnake, IsStatement, IsBodyStatement, IndexStatement;
    if fields != [] {
      IndexesOf(table, fields[1..]);
      if IndexStatement(table, fields[0]).Some? {
        IndexIsStatement(table, fields[0]);
        IndexIsBody(table, fields[0]);
      }
    }
  }

  function AllLines(upBody: seq<string>, downBody: seq<string>): seq<string> {
    ["-- +soro Up"] + upBody + ["-- +soro Down"] + downBody
  }

  lemma AllLinesText(upBody: seq<string>, downBody: seq<string>)
    ensures UnlinesOf(AllLines(upBody, downBody))
            == "-- +soro Up\n" + UnlinesOf(upBody) + "-- +soro Down\n" + UnlinesOf(downBody)
  {
    hide UnlinesOf;
    OneLine("-- +soro Up");
    OneLine("-- +soro Down");
    UnlinesAppend(["-- +soro Up"], upBody);
    UnlinesAppend(["-- +soro Up"] + upBody, ["-- +soro Down"]);
    UnlinesAppend(["-- +soro Up"] + upBody + ["-- +soro Down"], downBody);
  }

  lemma MarkersAreNoBreaks()
    ensures NoBreaks("-- +soro Up") && NoBreaks("-- +soro Down")
    ensures Trim("-- +soro Up") == UP_MARKER && Trim("-- +soro Down") == DOWN_MARKER
  {
    assert "" + "-- +soro Up" + "" == "-- +soro Up";
    TrimUnique("", "-- +soro Up", "");
    assert "" + "-- +soro Down" + "" == "-- +soro Down";
    TrimUnique("", "-- +soro Down", "");
  }

  lemma BodyIsPlain(body: seq<string>)
    requires forall i :: 0 <= i < |body| ==> IsBodyLine(body[i])
    ensures Plain(AsLines(body)) && forall i :: 0 <= i < |body| ==> NoBreaks(body[i])
  {
    hide IsMarker, NoBreaks;
  }

  lemma AllLinesScanned(upBody: seq<string>, downBody: seq<string>)
    ensures AsLines(AllLines(upBody, downBody))
            == [] + [Line("-- +soro Up")] + AsLines(upBody) + [Line("-- +soro Down")] + AsLines(downBody)
  {
    hide AsLines;
  }

  lemma AllLinesHaveNoBreaks(upBody: seq<string>, downBody: seq<string>)
    requires forall i :: 0 <= i < |upBody| ==> NoBreaks(upBody[i])
    requires forall i :: 0 <= i < |downBody| ==> NoBreaks(downBody[i])
    ensures forall i :: 0 <= i < |AllLines(upBody, downBody)| ==> NoBreaks(AllLines(upBody, downBody)[i])
  {
    MarkersAreNoBreaks();
    hide NoBreaks;
  }

  /** Reading back two bodies of marker-free lines printed between the markers. */
  lemma ReadPrinted(upBody: seq<string>, downBody: seq<string>, text: string)
    requires forall i :: 0 <= i < |upBody| ==> IsBodyLine(upBody[i])
    requires forall i :: 0 <= i < |downBody| ==> IsBodyLine(downBody[i])
    requires text == "-- +soro Up\n" + UnlinesOf(upBody) + "-- +soro Down\n" + UnlinesOf(downBody)
    ensures TooLong !in ScanAll(text) ==>
              Read(ScanAll(text), Before, "", "") == Ok(Sections(UnlinesOf(upBody), UnlinesOf(downBody)))
  {
    hide AllLines, NoBreaks, IsBodyLine, Plain, Read, ScanAll, Trim, UnlinesOf, Unlines, AsLines;
    var lines := AllLines(upBody, downBody);
    BodyIsPlain(upBody);
    BodyIsPlain(downBody);
    AllLinesHaveNoBreaks(upBody, downBody);
    AllLinesText(upBody, downBody);
    assert UnlinesOf(lines) + "" == text;
    ScanNothing();
    AllLinesScanned(upBody, downBody);
    MarkersAreNoBreaks();
    var scanned := ScanAll(text);
    if TooLong !in scanned {
      ScanLines(lines, "");
      assert scanned == AsLines(lines);
      ReadSectioned(scanned, [], "-- +soro Up", AsLines(upBody), "-- +soro Down", AsLines(downBody));
      UnlinesAsLines(upBody);
      UnlinesAsLines(downBody);
    }
  }

  lemma ScanNothing()
    ensures ScanAll("") == []
  {
  }

  /** Loading the rendered migration of any table and any valid fields gives back the CREATE TABLE
      statement, one index statement for each unique or indexed field in order, and the DROP TABLE. */
  lemma RenderedLoads(floats: Floats, table: string, fields: seq<Field>, base: string)
    requires FloatsAreShaped(floats) && AllSnake(table)
    requires forall i :: 0 <= i < |fields| ==> ValidField(floats, fields[i])
    ensures AllRender(floats, fields)
    ensures TooLong !in ScanAll(MigrationText(floats, table, fields)) ==>
              Load(base, MigrationText(floats, table, fields))
              == Ok(Migration(TrimSuffix(base, ".sql"), UpStatements(floats, table, fields), [DropStatement(table)]))
  {
    hide FloatsAreShaped, IsColumn, IsColumnLine, IsStatement, IsBodyStatement, IsBodyLine, ScanAll, Read, Split,
         CreateStatement, DropStatement, IndexStatements, FieldColumns, BaseColumns, UpLines, Terminated, TrimSuffix;
    ColumnsOf(floats, fields);
    var text := MigrationText(floats, table, fields);
    if TooLong !in ScanAll(text) {
      var columns, indexes := BaseColumns() + FieldColumns(floats, fields), IndexStatements(table, fields);
      var drop := DropStatement(table);
      BaseAreColumns();
      BaseAreColumnLines();
      assert forall i :: 0 <= i < |columns| ==> IsColumn(columns[i]) && IsColumnLine(columns[i]);
      FieldNamesAreFieldNames(floats, fields);
      IndexesOf(table, fields);
      CreateIsStatement(table, columns);
      DropIsStatement(table);
      UpLinesText(table, columns, indexes);
      UpLinesAreBody(table, columns, indexes);
      DropIsBody(table);
      OneLine(drop + ";");
      TerminatedOne(drop);
      assert drop + ";" + "\n" == drop + ";\n";
      ReadPrinted(UpLines(table, columns, indexes), [drop + ";"], text);
      SplitTerminated("", UpStatements(floats, table, fields), "\n");
      assert Terminated([drop]) + "" == Terminated([drop]);
      SplitTerminated("", [drop], "");
    }
  }

  lemma FieldNamesAreFieldNames(floats: Floats, fields: seq<Field>)
    requires forall i :: 0 <= i < |fields| ==> ValidField(floats, fields[i])
    ensures forall i :: 0 <= i < |fields| ==> IsFieldName(fields[i].name)
  {
  }

  lemma DropIsBody(table: string)
    requires AllSnake(table)
    ensures IsBodyLine(DropStatement(table) + ";")
  {
    var s := DropStatement(table) + ";";
    assert "" + s == s && s[0] == 'D';
    hide IsMarker;
    NotMarker("", s);
  }

  lemma TableIsSnake(raw: Ascii)
    requires ParseName(raw).Some?
    ensures AllSnake(ParseName(raw).value.table)
  {
    hide Words, Exported;
    TrimAscii(raw);
    WordsAreWords(' ', Trim(raw), "");
    var words := WordsOf(raw);
    JoinedChars(words);
    hide Pluralize;
    PluralIsSnake(Join(words, "_"));
  }

  lemma PluralIsSnake(snake: string)
    requires forall i :: 0 <= i < |snake| ==> IsSnakeChar(snake[i])
    ensures AllSnake(Pluralize(snake))
  {
  }

  /** For every accepted name and every accepted list of field specifications, whatever quotes, semicolons,
      dashes or dollar signs a string default holds, the generated file loads back as the statements it was
      rendered from, provided that each of its lines fits the scanner's buffer. */
  lemma GeneratedMigrationLoads(floats: Floats, raw: Ascii, specifications: seq<string>, base: string)
    requires FloatsAreShaped(floats)
    ensures ParseName(raw).Some? && FieldsFrom(floats, specifications, []).Ok? ==>
              var table, fields := ParseName(raw).value.table, FieldsFrom(floats, specifications, []).value;
              AllRender(floats, fields) &&
              (TooLong !in ScanAll(MigrationText(floats, table, fields)) ==>
                 Load(base, MigrationText(floats, table, fields))
                 == Ok(Migration(TrimSuffix(base, ".sql"), UpStatements(floats, table, fields), [DropStatement(table)])))
  {
    hide FloatsAreShaped, ParseName, FieldsFrom, ScanAll, MigrationText, Load;
    if ParseName(raw).Some? && FieldsFrom(floats, specifications, []).Ok? {
      TableIsSnake(raw);
      FieldsAreValid(floats, specifications, []);
      RenderedLoads(floats, ParseName(raw).value.table, FieldsFrom(floats, specifications, []).value, base);
    }
  }
}
