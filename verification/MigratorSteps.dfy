/** The migration runner statement by statement, over the engine alone: what runs, what stops a run, and what a stopped run
    leaves behind. */
module MigratorSteps {
  import opened Text
  import opened Ordering
  import opened MigrationFile
  import opened Migrator

  /** The engine takes the schema through the states, one for each statement. */
  predicate Steps<S(==)>(engine: Engine<S>, schema: S, statements: seq<string>, states: seq<S>) {
    && |states| == |statements| + 1 && states[0] == schema
    && forall i :: 0 <= i < |statements| ==> engine(states[i], statements[i]) == Some(states[i + 1])
  }

  /** The first `k` statements run through the states, and statement `k` fails in the last of them. */
  predicate FailsAt<S(==)>(engine: Engine<S>, schema: S, statements: seq<string>, states: seq<S>, k: nat) {
    k < |statements| && Steps(engine, schema, statements[..k], states) && engine(states[k], statements[k]).None?
  }

  lemma StepsTail<S>(engine: Engine<S>, schema: S, statements: seq<string>, states: seq<S>)
    requires Steps(engine, schema, statements, states) && statements != []
    ensures engine(schema, statements[0]) == Some(states[1]) && Steps(engine, states[1], statements[1..], states[1..])
  {
    assert forall i :: 0 <= i < |statements[1..]| ==> statements[1..][i] == statements[i + 1] && states[1..][i] == states[i + 1];
  }

  lemma {:induction false} StepsRun<S>(engine: Engine<S>, schema: S, statements: seq<string>, states: seq<S>)
    requires Steps(engine, schema, statements, states)
    ensures ExecAll(engine, schema, statements) == Some(states[|statements|])
    decreases |statements|
  {
    hide Steps;
    if statements == [] {
      NoSteps(engine, schema, states);
    } else {
      StepsLength(engine, schema, statements, states);
      StepsTail(engine, schema, statements, states);
      StepsRun(engine, states[1], statements[1..], states[1..]);
    }
  }

  lemma NoSteps<S>(engine: Engine<S>, schema: S, states: seq<S>)
    requires Steps(engine, schema, [], states)
    ensures |states| == 1 && states[0] == schema
  {
  }

  lemma StepsLength<S>(engine: Engine<S>, schema: S, statements: seq<string>, states: seq<S>)
    requires Steps(engine, schema, statements, states)
    ensures |states| == |statements| + 1
  {
  }

  lemma {:induction false} RunHasSteps<S>(engine: Engine<S>, schema: S, statements: seq<string>) returns (states: seq<S>)
    requires ExecAll(engine, schema, statements).Some?
    ensures Steps(engine, schema, statements, states)
    decreases |statements|
  {
    if statements == [] {
      states := [schema];
    } else {
      var rest := RunHasSteps(engine, engine(schema, statements[0]).value, statements[1..]);
      states := [schema] + rest;
      assert forall i :: 0 < i < |statements| ==> statements[i] == statements[1..][i - 1] && states[i] == rest[i - 1];
    }
  }

  /** Statements succeed exactly when there is a state after each of them, every one following from the one before it; the
      result is the last. */
  lemma ExecIsSteps<S>(engine: Engine<S>, schema: S, statements: seq<string>, end: S)
    ensures ExecAll(engine, schema, statements) == Some(end)
            <==> exists states :: Steps(engine, schema, statements, states) && states[|statements|] == end
  {
    if ExecAll(engine, schema, statements) == Some(end) {
      var states := RunHasSteps(engine, schema, statements);
      StepsRun(engine, schema, statements, states);
    }
    forall states | Steps(engine, schema, statements, states) ensures ExecAll(engine, schema, statements) == Some(states[|statements|]) {
      StepsRun(engine, schema, statements, states);
    }
  }

  lemma {:induction false} FailureStops<S>(engine: Engine<S>, schema: S, statements: seq<string>, states: seq<S>, k: nat)
    requires FailsAt(engine, schema, statements, states, k)
    ensures ExecAll(engine, schema, statements).None?
    decreases k
  {
    if k > 0 {
      StepsTail(engine, schema, statements[..k], states);
      assert statements[..k][0] == statements[0] && statements[..k][1..] == statements[1..][..k - 1];
      FailureStops(engine, states[1], statements[1..], states[1..], k - 1);
    }
  }

  lemma {:induction false} StoppedRunFails<S>(engine: Engine<S>, schema: S, statements: seq<string>) returns (states: seq<S>, k: nat)
    requires ExecAll(engine, schema, statements).None?
    ensures FailsAt(engine, schema, statements, states, k)
    decreases |statements|
  {
    var next := engine(schema, statements[0]);
    if next.None? {
      states, k := [schema], 0;
    } else {
      var rest;
      rest, k := StoppedRunFails(engine, next.value, statements[1..]);
      states, k := [schema] + rest, k + 1;
      assert statements[..k][0] == statements[0] && statements[..k][1..] == statements[1..][..k - 1];
      assert forall i :: 0 < i < k ==> statements[..k][i] == statements[1..][..k - 1][i - 1] && states[i] == rest[i - 1];
    }
  }

  /** Statements fail exactly when one of them fails in the state that those before it lead to. */
  lemma ExecFailsAtAStatement<S>(engine: Engine<S>, schema: S, statements: seq<string>)
    ensures ExecAll(engine, schema, statements).None? <==> exists states, k :: FailsAt(engine, schema, statements, states, k)
  {
    hide FailsAt;
    if ExecAll(engine, schema, statements).None? {
      var states, k := StoppedRunFails(engine, schema, statements);
    }
    forall states, k | FailsAt(engine, schema, statements, states, k) ensures ExecAll(engine, schema, statements).None? {
      FailureStops(engine, schema, statements, states, k);
    }
  }

  // ----------------------------------------------------------------------------------------------- Apply

  lemma ValidPrefix(migrations: seq<Migration>, i: nat)
    requires ValidMigrations(migrations) && i <= |migrations|
    ensures ValidMigrations(migrations[..i])
  {
    hide Less;
    assert forall k :: 0 <= k < i ==> NamesOf(migrations[..i])[k] == NamesOf(migrations)[k];
  }

  /** An Apply of a prefix that succeeds is where the Apply of the whole list stands at its end. */
  lemma {:induction false} ApplyReaches<S>(engine: Engine<S>, s: State<S>, migrations: seq<Migration>, times: seq<Time>,
                                           faulty: set<nat>, n: nat, i: nat)
    requires |times| == |migrations| && i <= n <= |migrations|
    requires ApplyFrom(engine, s, migrations[..n], times[..n], faulty, i).1
    ensures ApplyFrom(engine, s, migrations, times, faulty, i)
            == ApplyFrom(engine, ApplyFrom(engine, s, migrations[..n], times[..n], faulty, i).0, migrations, times, faulty, n)
    decreases n - i
  {
    hide ApplyOne, InLedger;
    if i < n {
      assert migrations[..n][i] == migrations[i] && times[..n][i] == times[i];
      if InLedger(s.ledger, migrations[i].name) {
        ApplyReaches(engine, s, migrations, times, faulty, n, i + 1);
      } else {
        ApplyReaches(engine, ApplyOne(engine, s, migrations[i], times[i]).value, migrations, times, faulty, n, i + 1);
      }
    }
  }

  lemma ApplyStandsAt<S>(engine: Engine<S>, s: State<S>, migrations: seq<Migration>, times: seq<Time>, faulty: set<nat>,
                         n: nat, t: State<S>)
    requires |times| == |migrations| && n <= |migrations| && ValidMigrations(migrations)
    requires Apply(engine, s, migrations[..n], times[..n], faulty) == (t, true)
    ensures Apply(engine, s, migrations, times, faulty) == ApplyFrom(engine, t, migrations, times, faulty, n)
  {
    hide ApplyFrom, ValidMigrations;
    ValidPrefix(migrations, n);
    ApplyReaches(engine, s, migrations, times, faulty, n, 0);
  }

  /** When the migrations before the next pending one have been applied and one of its statements fails in the state that
      the ones before it lead to, Apply fails and leaves everything as it was before that migration: nothing of it is kept,
      and nothing after it is tried. */
  lemma FailedStatementStopsApply<S>(engine: Engine<S>, s: State<S>, migrations: seq<Migration>, times: seq<Time>, faulty: set<nat>,
                                     n: nat, t: State<S>, states: seq<S>, k: nat)
    requires |times| == |migrations| && n < |migrations| && ValidMigrations(migrations)
    requires Apply(engine, s, migrations[..n], times[..n], faulty) == (t, true)
    requires forall row :: row in t.ledger ==> row.name != migrations[n].name
    requires FailsAt(engine, t.schema, migrations[n].up, states, k)
    ensures Apply(engine, s, migrations, times, faulty) == (t, false)
  {
    hide Apply, FailsAt, ExecAll, ValidMigrations;
    ApplyStandsAt(engine, s, migrations, times, faulty, n, t);
    FailureStops(engine, t.schema, migrations[n].up, states, k);
  }

  /** When all of them run, and nothing outside fails, the migration is committed: its statements, its row and its entry. */
  lemma StatementsRunInApply<S>(engine: Engine<S>, s: State<S>, migrations: seq<Migration>, times: seq<Time>, faulty: set<nat>,
                                n: nat, t: State<S>, states: seq<S>)
    requires |times| == |migrations| && n < |migrations| && ValidMigrations(migrations) && n !in faulty
    requires Apply(engine, s, migrations[..n], times[..n], faulty) == (t, true)
    requires forall row :: row in t.ledger ==> row.name != migrations[n].name
    requires Steps(engine, t.schema, migrations[n].up, states)
    ensures Apply(engine, s, migrations[..n + 1], times[..n + 1], faulty)
            == (State(states[|migrations[n].up|], t.ledger + [Row(migrations[n].name, times[n])], t.journal + [Up(migrations[n])]), true)
  {
    hide Apply, Steps, ExecAll, ValidMigrations;
    ValidPrefix(migrations, n + 1);
    var some, at := migrations[..n + 1], times[..n + 1];
    assert some[..n] == migrations[..n] && at[..n] == times[..n] && some[n] == migrations[n];
    ApplyStandsAt(engine, s, some, at, faulty, n, t);
    StepsRun(engine, t.schema, migrations[n].up, states);
  }

  // -------------------------------------------------------------------------------------------- Rollback

  lemma {:induction false} RollbackReaches<S>(engine: Engine<S>, s: State<S>, available: map<string, Migration>, rows: seq<Row>,
                                              faulty: set<nat>, n: nat, i: nat)
    requires i <= n <= |rows|
    requires RollbackFrom(engine, s, available, rows[..n], faulty, i).1
    ensures RollbackFrom(engine, s, available, rows, faulty, i)
            == RollbackFrom(engine, RollbackFrom(engine, s, available, rows[..n], faulty, i).0, available, rows, faulty, n)
    decreases n - i
  {
    hide RollbackOne;
    if i < n {
      assert rows[..n][i] == rows[i];
      var next := RollbackOne(engine, s, available[rows[i].name], rows[i].name);
      RollbackReaches(engine, next.value, available, rows, faulty, n, i + 1);
    }
  }

  /** The state before the row at place `n` is undone: that of a Rollback of the `n` rows before it. */
  predicate StandsAt<S(==)>(engine: Engine<S>, s: State<S>, migrations: seq<Migration>, faulty: set<nat>, n: nat, t: State<S>) {
    if n == 0 then t == s else Rollback(engine, s, migrations, n, faulty) == (t, true)
  }

  lemma RollbackStandsAt<S>(engine: Engine<S>, s: State<S>, migrations: seq<Migration>, count: nat, faulty: set<nat>, n: nat, t: State<S>)
    requires n < count && n < |Newest(s.ledger, count)| && ValidMigrations(migrations)
    requires StandsAt(engine, s, migrations, faulty, n, t)
    ensures Rollback(engine, s, migrations, count, faulty)
            == RollbackFrom(engine, t, ByName(migrations), Newest(s.ledger, count), faulty, n)
  {
    hide RollbackFrom, ValidMigrations, ByName, Descending;
    var rows := Newest(s.ledger, count);
    if n > 0 {
      assert Newest(s.ledger, n) == rows[..n];
      RollbackReaches(engine, s, ByName(migrations), rows, faulty, n, 0);
    }
  }

  /** When the newer rows have been undone and a Down statement of the next one fails in the state that those before it lead
      to, Rollback fails and leaves the schema and the ledger as they were before that migration. */
  lemma FailedStatementStopsRollback<S>(engine: Engine<S>, s: State<S>, migrations: seq<Migration>, count: nat, faulty: set<nat>,
                                        n: nat, t: State<S>, migration: Migration, states: seq<S>, k: nat)
    requires n < count && n < |Newest(s.ledger, count)| && ValidMigrations(migrations)
    requires StandsAt(engine, s, migrations, faulty, n, t)
    requires migration in migrations && migration.name == Newest(s.ledger, count)[n].name
    requires FailsAt(engine, t.schema, migration.down, states, k)
    ensures Rollback(engine, s, migrations, count, faulty) == (t, false)
  {
    hide Rollback, FailsAt, ExecAll, ValidMigrations, Newest, StandsAt, ByName;
    RollbackStandsAt(engine, s, migrations, count, faulty, n, t);
    AvailableByName(migrations, migration);
    FailureStops(engine, t.schema, migration.down, states, k);
  }

  /** When all of them run, and nothing outside fails, the migration is undone and its row removed. */
  lemma StatementsRunInRollback<S>(engine: Engine<S>, s: State<S>, migrations: seq<Migration>, faulty: set<nat>, n: nat, t: State<S>,
                                   migration: Migration, states: seq<S>)
    requires n < |Newest(s.ledger, n + 1)| && ValidMigrations(migrations) && n !in faulty
    requires StandsAt(engine, s, migrations, faulty, n, t)
    requires migration in migrations && migration.name == Newest(s.ledger, n + 1)[n].name
    requires Steps(engine, t.schema, migration.down, states)
    ensures var (end, ok) := Rollback(engine, s, migrations, n + 1, faulty);
            ok && end.schema == states[|migration.down|] && end.journal == t.journal + [Down(migration)]
            && (forall row :: row in end.ledger <==> row in t.ledger && row.name != migration.name)
  {
    hide Rollback, Steps, ExecAll, ValidMigrations, StandsAt, ByName, Descending;
    RollbackStandsAt(engine, s, migrations, n + 1, faulty, n, t);
    AvailableByName(migrations, migration);
    StepsRun(engine, t.schema, migration.down, states);
    WithoutRemoves(t.ledger, migration.name);
  }

  lemma {:induction false} WithoutRemoves(ledger: seq<Row>, name: string)
    ensures forall row :: row in Without(ledger, name) <==> row in ledger && row.name != name
  {
    if ledger != [] {
      WithoutRemoves(ledger[1..], name);
      assert ledger == [ledger[0]] + ledger[1..];
    }
  }

  lemma {:induction false} ByNameFinds(migrations: seq<Migration>, i: nat)
    requires i < |migrations| && forall j, k :: 0 <= j < k < |migrations| ==> migrations[j].name != migrations[k].name
    ensures migrations[i].name in ByName(migrations) && ByName(migrations)[migrations[i].name] == migrations[i]
    decreases |migrations|
  {
    if i < |migrations| - 1 {
      ByNameFinds(migrations[..|migrations| - 1], i);
    }
  }

  lemma AvailableByName(migrations: seq<Migration>, migration: Migration)
    requires ValidMigrations(migrations) && migration in migrations
    ensures migration.name in ByName(migrations) && ByName(migrations)[migration.name] == migration
  {
    hide ByName, Less;
    var i :| 0 <= i < |migrations| && migrations[i] == migration;
    StrictIsSortedDistinct(NamesOf(migrations));
    assert forall j :: 0 <= j < |migrations| ==> NamesOf(migrations)[j] == migrations[j].name;
    ByNameFinds(migrations, i);
  }
}
