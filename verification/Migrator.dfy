/** The migration runner of migrate/migrate.go: `Apply` and `Rollback` over a schema and its ledger,
    one transaction a migration. The database engine is any partial function on schemas. */
module Migrator {
  import opened Text
  import opened Ordering
  import opened MigrationFile

  type Time = int

  /** A row of soro_schema_migrations; the name is its primary key. */
  datatype Row = Row(name: string, at: Time)

  datatype Done = Up(migration: Migration) | Down(migration: Migration)

  /** The schema, the ledger in insertion order, and the history of committed migrations. */
  datatype State<S> = State(schema: S, ledger: seq<Row>, journal: seq<Done>)

  /** What one statement does to the schema; `None` is a failure. */
  type Engine<!S> = (S, string) -> Option<S>

  /** `execStatements`. */
  function ExecAll<S>(engine: Engine<S>, schema: S, statements: seq<string>): Option<S>
    decreases |statements|
  {
    if statements == [] then Some(schema)
    else
      var next := engine(schema, statements[0]);
      if next.None? then None else ExecAll(engine, next.value, statements[1..])
  }

  predicate InLedger(ledger: seq<Row>, name: string) {
    exists i :: 0 <= i < |ledger| && ledger[i].name == name
  }

  // ---- validateMigrations

  function NamesOf(migrations: seq<Migration>): (names: seq<string>)
    ensures |names| == |migrations| && forall i :: 0 <= i < |names| ==> names[i] == migrations[i].name
  {
    seq(|migrations|, i requires 0 <= i < |migrations| => migrations[i].name)
  }

  /** Names present and strictly ascending, and every migration with statements both ways. */
  predicate ValidMigrations(migrations: seq<Migration>) {
    && StrictlySorted(NamesOf(migrations))
    && forall i :: 0 <= i < |migrations| ==> Complete(migrations[i])
  }

  predicate Complete(migration: Migration) {
    migration.name != "" && migration.up != [] && migration.down != []
  }

  predicate Distinct(names: seq<string>) {
    forall i, j :: 0 <= i < j < |names| ==> names[i] != names[j]
  }

  method ValidateMigrations(migrations: seq<Migration>) returns (ok: bool)
    ensures ok <==> ValidMigrations(migrations)
  {
    hide StrictlySorted, Sorted;
    var names: set<string> := {};
    var ordered: seq<string> := [];
    StrictIsSortedDistinct(NamesOf(migrations));
    for i := 0 to |migrations|
      invariant ordered == NamesOf(migrations)[..i] && Distinct(ordered)
      invariant forall name :: name in names <==> name in ordered
      invariant forall j :: 0 <= j < i ==> Complete(migrations[j])
    {
      var migration := migrations[i];
      if migration.name == "" || |migration.up| == 0 || |migration.down| == 0 {
        assert !Complete(migrations[i]);
        return false;
      }
      if migration.name in names {
        var j :| 0 <= j < i && ordered[j] == migration.name;
        assert NamesOf(migrations)[j] == NamesOf(migrations)[i];
        return false;
      }
      names := names + {migration.name};
      ordered := ordered + [migration.name];
    }
    assert ordered == NamesOf(migrations);
    ok := IsOrdered(ordered);
  }

  /** The comparison with a sorted copy. */
  method IsOrdered(ordered: seq<string>) returns (ok: bool)
    ensures ok <==> Sorted(ordered)
  {
    var sorted := Sort(ordered);
    SortIsIdentity(ordered);
    SortSorts(ordered);
    assert |sorted| == |multiset(sorted)| == |multiset(ordered)| == |ordered|;
    hide Sorted;
    for i := 0 to |ordered|
      invariant ordered[..i] == sorted[..i]
    {
      if ordered[i] != sorted[i] {
        return false;
      }
    }
    assert ordered == ordered[..|ordered|] == sorted[..|ordered|] == sorted;
    return true;
  }

  // ---- Apply

  /** One migration of `Apply` in its own transaction: everything or, on a failure, nothing. */
  function ApplyOne<S>(engine: Engine<S>, s: State<S>, migration: Migration, at: Time): Option<State<S>> {
    var schema := ExecAll(engine, s.schema, migration.up);
    if schema.None? then None
    else Some(State(schema.value, s.ledger + [Row(migration.name, at)], s.journal + [Up(migration)]))
  }

  /** `Apply` on the remaining migrations, `times` being the start times of their transactions and `faulty`
      the positions where the environment makes the check, a statement, the insert or the commit fail. */
  function ApplyFrom<S>(engine: Engine<S>, s: State<S>, migrations: seq<Migration>, times: seq<Time>,
                        faulty: set<nat>, i: nat): (State<S>, bool)
    requires |times| == |migrations| && i <= |migrations|
    decreases |migrations| - i
  {
    if i == |migrations| then (s, true)
    else if i in faulty then (s, false)
    else if InLedger(s.ledger, migrations[i].name) then ApplyFrom(engine, s, migrations, times, faulty, i + 1)
    else
      var next := ApplyOne(engine, s, migrations[i], times[i]);
      if next.None? then (s, false) else ApplyFrom(engine, next.value, migrations, times, faulty, i + 1)
  }

  function Apply<S>(engine: Engine<S>, s: State<S>, migrations: seq<Migration>, times: seq<Time>, faulty: set<nat>)
    : (State<S>, bool)
    requires |times| == |migrations|
  {
    if ValidMigrations(migrations) then ApplyFrom(engine, s, migrations, times, faulty, 0) else (s, false)
  }

  // ---- Rollback

  /** The ledger's order: application time, then name. */
  predicate RowLess(a: Row, b: Row) {
    a.at < b.at || (a.at == b.at && Less(a.name, b.name))
  }

  function InsertDescending(row: Row, rows: seq<Row>): seq<Row> {
    if rows == [] || RowLess(rows[0], row) then [row] + rows else [rows[0]] + InsertDescending(row, rows[1..])
  }

  /** `ORDER BY applied_at DESC, name DESC`. */
  function Descending(rows: seq<Row>): seq<Row> {
    if rows == [] then [] else InsertDescending(rows[|rows| - 1], Descending(rows[..|rows| - 1]))
  }

  /** The names that `Rollback` reads: the query with its LIMIT. */
  function Newest(ledger: seq<Row>, count: nat): seq<Row> {
    var rows := Descending(ledger);
    if count <= |rows| then rows[..count] else rows
  }

  function ByName(migrations: seq<Migration>): map<string, Migration> {
    if migrations == [] then map[]
    else
      var last := migrations[|migrations| - 1];
      ByName(migrations[..|migrations| - 1])[last.name := last]
  }

  function Without(ledger: seq<Row>, name: string): seq<Row> {
    if ledger == [] then []
    else if ledger[0].name == name then Without(ledger[1..], name)
    else [ledger[0]] + Without(ledger[1..], name)
  }

  function RollbackOne<S>(engine: Engine<S>, s: State<S>, migration: Migration, name: string): Option<State<S>> {
    var schema := ExecAll(engine, s.schema, migration.down);
    if schema.None? then None
    else Some(State(schema.value, Without(s.ledger, name), s.journal + [Down(migration)]))
  }

  function RollbackFrom<S>(engine: Engine<S>, s: State<S>, available: map<string, Migration>, rows: seq<Row>,
                           faulty: set<nat>, i: nat): (State<S>, bool)
    requires i <= |rows|
    decreases |rows| - i
  {
    if i == |rows| then (s, true)
    else if rows[i].name !in available || i in faulty then (s, false)
    else
      var next := RollbackOne(engine, s, available[rows[i].name], rows[i].name);
      if next.None? then (s, false) else RollbackFrom(engine, next.value, available, rows, faulty, i + 1)
  }

  function Rollback<S>(engine: Engine<S>, s: State<S>, migrations: seq<Migration>, count: int, faulty: set<nat>)
    : (State<S>, bool)
  {
    if count < 1 || !ValidMigrations(migrations) then (s, false)
    else RollbackFrom(engine, s, ByName(migrations), Newest(s.ledger, count), faulty, 0)
  }

  // ---- The runner

  /** `Migrator` and the database it works on. */
  class Runner<S> {
    const engine: Engine<S>
    var schema: S
    var ledger: seq<Row>
    ghost var journal: seq<Done>

    ghost function Value(): State<S>
      reads this
    {
      State(schema, ledger, journal)
    }

    constructor (engine: Engine<S>, schema: S)
      ensures this.engine == engine && Value() == State(schema, [], [])
    {
      this.engine, this.schema, ledger, journal := engine, schema, [], [];
    }

    /** `execStatements` inside a transaction: the statements run on a copy that is kept only on commit. */
    method ExecStatements(statements: seq<string>) returns (result: Option<S>)
      ensures result == ExecAll(engine, schema, statements)
    {
      var working := schema;
      assert statements[0..] == statements;
      for i := 0 to |statements|
        invariant ExecAll(engine, schema, statements) == ExecAll(engine, working, statements[i..])
      {
        assert statements[i..][0] == statements[i] && statements[i..][1..] == statements[i + 1..];
        var next := engine(working, statements[i]);
        if next.None? {
          return None;
        }
        working := next.value;
      }
      return Some(working);
    }

    method ApplyAll(migrations: seq<Migration>, times: seq<Time>, faulty: set<nat>) returns (ok: bool)
      requires |times| == |migrations|
      modifies this
      ensures (Value(), ok) == Apply(engine, old(Value()), migrations, times, faulty)
    {
      var valid := ValidateMigrations(migrations);
      if !valid {
        return false;
      }
      for i := 0 to |migrations|
        invariant ApplyFrom(engine, old(Value()), migrations, times, faulty, 0)
                  == ApplyFrom(engine, Value(), migrations, times, faulty, i)
      {
        var migration := migrations[i];
        if i in faulty {
          return false;
        }
        if InLedger(ledger, migration.name) {
          continue;
        }
        var next := ExecStatements(migration.up);
        if next.None? {
          return false;
        }
        schema := next.value;
        ledger := ledger + [Row(migration.name, times[i])];
        journal := journal + [Up(migration)];
      }
      return true;
    }

    method RollbackLast(migrations: seq<Migration>, count: int, faulty: set<nat>) returns (ok: bool)
      modifies this
      ensures (Value(), ok) == Rollback(engine, old(Value()), migrations, count, faulty)
    {
      if count < 1 {
        return false;
      }
      var valid := ValidateMigrations(migrations);
      if !valid {
        return false;
      }
      var byName: map<string, Migration> := map[];
      for i := 0 to |migrations|
        invariant byName == ByName(migrations[..i])
      {
        assert migrations[..i + 1][..i] == migrations[..i];
        byName := byName[migrations[i].name := migrations[i]];
      }
      assert migrations[..|migrations|] == migrations;
      var rows := Newest(ledger, count);
      for i := 0 to |rows|
        invariant RollbackFrom(engine, old(Value()), byName, rows, faulty, 0)
                  == RollbackFrom(engine, Value(), byName, rows, faulty, i)
      {
        var name := rows[i].name;
        if name !in byName || i in faulty {
          return false;
        }
        var next := ExecStatements(byName[name].down);
        if next.None? {
          return false;
        }
        schema := next.value;
        ledger := Without(ledger, name);
        journal := journal + [Down(byName[name])];
      }
      return true;
    }
  }
}
