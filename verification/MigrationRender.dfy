/** `renderMigration` of generate/render.go. */
module MigrationRender {
  import opened Text
  import opened Names
  import opened Fields

  function SqlType(kind: FieldType): string {
    match kind
    case StringField => "VARCHAR(255)"
    case TextField => "TEXT"
    case BoolField => "BOOLEAN"
    case UuidField => "UUID"
    case IntField => "BIGINT"
    case FloatField => "DOUBLE PRECISION"
    case TimeField => "TIMESTAMPTZ"
    case JsonField => "JSONB"
  }

  function BaseColumn(name: string, definition: string): string {
    "    " + name + " " + definition
  }

  function BaseColumns(): seq<string> {
    [BaseColumn("id", "UUID PRIMARY KEY"),
     BaseColumn("name", "VARCHAR(255) NOT NULL DEFAULT " + "''"),
     BaseColumn("description", "TEXT NOT NULL DEFAULT " + "''"),
     BaseColumn("metadata", "JSONB NOT NULL DEFAULT " + "'{}'::jsonb"),
     BaseColumn("created_at", "TIMESTAMPTZ NOT NULL DEFAULT NOW()"),
     BaseColumn("updated_at", "TIMESTAMPTZ NOT NULL DEFAULT NOW()"),
     BaseColumn("deleted_at", "TIMESTAMPTZ NULL"),
     BaseColumn("created_by", "UUID NULL"),
     BaseColumn("updated_by", "UUID NULL"),
     BaseColumn("deleted_by", "UUID NULL")]
  }

  predicate DefaultRenders(floats: Floats, field: Field) {
    field.default.Some? ==> SqlDefault(floats, field.kind, field.default.value).Some?
  }

  function DefaultClause(floats: Floats, field: Field): string
    requires DefaultRenders(floats, field)
  {
    if field.default.None? then "" else " DEFAULT " + SqlDefault(floats, field.kind, field.default.value).value
  }

  function ColumnHead(field: Field): string {
    "    " + field.name + " " + SqlType(field.kind) + (if field.nullable then "" else " NOT NULL")
  }

  function Column(floats: Floats, field: Field): string
    requires DefaultRenders(floats, field)
  {
    ColumnHead(field) + DefaultClause(floats, field)
  }

  predicate AllRender(floats: Floats, fields: seq<Field>) {
    forall i :: 0 <= i < |fields| ==> DefaultRenders(floats, fields[i])
  }

  function FieldColumns(floats: Floats, fields: seq<Field>): (columns: seq<string>)
    requires AllRender(floats, fields)
    ensures |columns| == |fields|
  {
    if fields == [] then [] else [Column(floats, fields[0])] + FieldColumns(floats, fields[1..])
  }

  /** The index statement of a field, if it has one; a unique index serves as the index too. */
  function IndexStatement(table: string, field: Field): Option<string> {
    if field.unique then
      Some("CREATE UNIQUE INDEX " + table + "_" + field.name + "_unique ON " + table + " (" + field.name
           + ") WHERE deleted_at IS NULL")
    else if field.index then
      Some("CREATE INDEX " + table + "_" + field.name + "_idx ON " + table + " (" + field.name + ")")
    else None
  }

  function IndexStatements(table: string, fields: seq<Field>): seq<string> {
    if fields == [] then []
    else
      (if IndexStatement(table, fields[0]).Some? then [IndexStatement(table, fields[0]).value] else [])
      + IndexStatements(table, fields[1..])
  }

  function CreateStatement(table: string, columns: seq<string>): string {
    "CREATE TABLE " + table + " (\n" + Join(columns, ",\n") + "\n)"
  }

  function DropStatement(table: string): string {
    "DROP TABLE " + table
  }

  /** Statements, each ended by a semicolon and a newline. */
  function Terminated(statements: seq<string>): string {
    if statements == [] then "" else statements[0] + ";\n" + Terminated(statements[1..])
  }

  function UpStatements(floats: Floats, table: string, fields: seq<Field>): seq<string>
    requires AllRender(floats, fields)
  {
    [CreateStatement(table, BaseColumns() + FieldColumns(floats, fields))] + IndexStatements(table, fields)
  }

  /** The rendered file. */
  function MigrationText(floats: Floats, table: string, fields: seq<Field>): string
    requires AllRender(floats, fields)
  {
    "-- +soro Up\n" + (Terminated(UpStatements(floats, table, fields)) + "\n")
    + "-- +soro Down\n" + Terminated([DropStatement(table)])
  }

  lemma {:induction false} IndexAppend(table: string, fields: seq<Field>, field: Field)
    ensures IndexStatements(table, fields + [field]) == IndexStatements(table, fields) + IndexStatements(table, [field])
  {
    if fields == [] {
      assert fields + [field] == [field];
    } else {
      assert (fields + [field])[1..] == fields[1..] + [field];
      IndexAppend(table, fields[1..], field);
    }
  }

  lemma {:induction false} TerminatedAppend(a: seq<string>, b: seq<string>)
    ensures Terminated(a + b) == Terminated(a) + Terminated(b)
  {
    if a == [] {
      assert a + b == b;
    } else {
      assert (a + b)[1..] == a[1..] + b;
      TerminatedAppend(a[1..], b);
    }
  }

  lemma TerminatedOne(statement: string)
    ensures Terminated([statement]) == statement + ";\n"
  {
  }

  lemma {:induction false} ColumnsAppend(floats: Floats, fields: seq<Field>, field: Field)
    requires AllRender(floats, fields + [field]) && AllRender(floats, fields) && DefaultRenders(floats, field)
    ensures FieldColumns(floats, fields + [field]) == FieldColumns(floats, fields) + [Column(floats, field)]
  {
    if fields != [] {
      assert (fields + [field])[1..] == fields[1..] + [field];
      ColumnsAppend(floats, fields[1..], field);
    }
  }

  /** The body of the column loop. */
  method RenderColumn(floats: Floats, field: Field) returns (result: Option<string>)
    ensures result.Some? <==> DefaultRenders(floats, field)
    ensures result.Some? ==> result.value == Column(floats, field)
  {
    hide SqlType, SqlDefault;
    var column := "    " + field.name + " " + SqlType(field.kind);
    if !field.nullable {
      column := column + " NOT NULL";
    } else {
      assert column + "" == column;
    }
    if field.default.None? {
      assert column + "" == column;
      return Some(column);
    }
    var value := SqlDefault(floats, field.kind, field.default.value);
    if value.None? {
      return None;
    }
    assert column + (" DEFAULT " + value.value) == column + " DEFAULT " + value.value;
    return Some(column + " DEFAULT " + value.value);
  }

  method RenderColumns(floats: Floats, fields: seq<Field>) returns (columns: Option<seq<string>>)
    ensures columns.Some? <==> AllRender(floats, fields)
    ensures columns.Some? ==> columns.value == BaseColumns() + FieldColumns(floats, fields)
  {
    hide BaseColumns, Column, DefaultRenders;
    var list := BaseColumns();
    assert list + FieldColumns(floats, []) == list;
    for i := 0 to |fields|
      invariant AllRender(floats, fields[..i])
      invariant list == BaseColumns() + FieldColumns(floats, fields[..i])
    {
      var column := RenderColumn(floats, fields[i]);
      if column.None? {
        assert !DefaultRenders(floats, fields[i]);
        return None;
      }
      assert fields[..i + 1] == fields[..i] + [fields[i]];
      ColumnsAppend(floats, fields[..i], fields[i]);
      list := list + [column.value];
    }
    assert fields[..|fields|] == fields;
    columns := Some(list);
  }

  /** The index loop: every unique or indexed field adds one terminated statement. */
  method RenderIndexes(table: string, fields: seq<Field>) returns (buffer: string)
    ensures buffer == Terminated(IndexStatements(table, fields))
  {
    hide IndexStatement, IndexStatements, Terminated;
    buffer := "";
    NoIndexes(table);
    assert fields[..0] == [];
    for i := 0 to |fields|
      invariant buffer == Terminated(IndexStatements(table, fields[..i]))
    {
      assert fields[..i + 1] == fields[..i] + [fields[i]];
      IndexAppend(table, fields[..i], fields[i]);
      IndexOfOne(table, fields[i]);
      TerminatedAppend(IndexStatements(table, fields[..i]), IndexStatements(table, [fields[i]]));
      var statement := IndexStatement(table, fields[i]);
      if statement.Some? {
        TerminatedOne(statement.value);
        buffer := buffer + (statement.value + ";\n");
      } else {
        assert IndexStatements(table, fields[..i]) + [] == IndexStatements(table, fields[..i]);
      }
    }
    assert fields[..|fields|] == fields;
  }

  method RenderMigration(floats: Floats, table: string, fields: seq<Field>) returns (source: Option<string>)
    ensures source.Some? <==> AllRender(floats, fields)
    ensures source.Some? ==> source.value == MigrationText(floats, table, fields)
  {
    hide BaseColumns, IndexStatements, Terminated, CreateStatement, DropStatement;
    var columns := RenderColumns(floats, fields);
    if columns.None? {
      return None;
    }
    var create := CreateStatement(table, columns.value);
    var indexes := RenderIndexes(table, fields);
    TerminatedOne(create);
    TerminatedAppend([create], IndexStatements(table, fields));
    var up := create + ";\n" + indexes + "\n";
    TerminatedOne(DropStatement(table));
    source := Some("-- +soro Up\n" + up + "-- +soro Down\n" + (DropStatement(table) + ";\n"));
  }

  lemma NoIndexes(table: string)
    ensures IndexStatements(table, []) == [] && Terminated([]) == ""
  {
  }

  lemma IndexOfOne(table: string, field: Field)
    ensures IndexStatements(table, [field])
            == if IndexStatement(table, field).Some? then [IndexStatement(table, field).value] else []
  {
    assert [field][1..] == [];
  }
}
