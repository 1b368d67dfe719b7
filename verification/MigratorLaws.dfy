/** Laws of the migration runner, for every engine, every history of calls and every failure. */
module MigratorLaws {
  import opened Text
  import opened Ordering
  import opened MigrationFile
  import opened Migrator

  // ---- The ledger agrees with the schema

  /** The schema that a journal of committed migrations leads to. */
  function Replay<S>(engine: Engine<S>, schema: S, journal: seq<Done>): Option<S>
    decreases |journal|
  {
    if journal == [] then Some(schema)
    else
      var before := Replay(engine, schema, journal[..|journal| - 1]);
      if before.None? then None
      else
        match journal[|journal| - 1]
        case Up(migration) => ExecAll(engine, before.value, migration.up)
        case Down(migration) => ExecAll(engine, before.value, migration.down)
  }

  function Remove(names: seq<string>, name: string): seq<string> {
    if names == [] then []
    else if names[0] == name then Remove(names[1..], name)
    else [names[0]] + Remove(names[1..], name)
  }

  /** The names a journal applied and did not roll back, in application order. */
  function Applied(journal: seq<Done>): seq<string> {
    if journal == [] then []
    else
      var before := Applied(journal[..|journal| - 1]);
      match journal[|journal| - 1]
      case Up(migration) => before + [migration.name]
      case Down(migration) => Remove(before, migration.name)
  }

  function RowNames(ledger: seq<Row>): (names: seq<string>)
    ensures |names| == |ledger| && forall i :: 0 <= i < |names| ==> names[i] == ledger[i].name
  {
    if ledger == [] then [] else [ledger[0].name] + RowNames(ledger[1..])
  }

  /** The schema is the fold of the committed Ups and Downs, and the ledger holds exactly the names applied
      and not rolled back, each once. */
  predicate Agrees<S(==)>(engine: Engine<S>, initial: S, s: State<S>) {
    && Replay(engine, initial, s.journal) == Some(s.schema)
    && RowNames(s.ledger) == Applied(s.journal)
    && Distinct(RowNames(s.ledger))
  }

  lemma JournalStep<S>(engine: Engine<S>, initial: S, journal: seq<Done>, done: Done)
    ensures Replay(engine, initial, journal + [done]) ==
            (var before := Replay(engine, initial, journal);
             if before.None? then None
             else if done.Up? then ExecAll(engine, before.value, done.migration.up)
             else ExecAll(engine, before.value, done.migration.down))
    ensures Applied(journal + [done]) ==
            if done.Up? then Applied(journal) + [done.migration.name] else Remove(Applied(journal), done.migration.name)
  {
    assert (journal + [done])[..|journal|] == journal;
  }

  lemma {:induction false} RowNamesWithout(ledger: seq<Row>, name: string)
    ensures RowNames(Without(ledger, name)) == Remove(RowNames(ledger), name)
  {
    if ledger != [] {
      assert RowNames(ledger)[1..] == RowNames(ledger[1..]);
      RowNamesWithout(ledger[1..], name);
    }
  }

  lemma {:induction false} RemoveKeepsDistinct(names: seq<string>, name: string)
    requires Distinct(names)
    ensures Distinct(Remove(names, name)) && forall n :: n in Remove(names, name) <==> n in names && n != name
  {
    if names != [] {
      assert forall i, j :: 0 <= i < j < |names[1..]| ==> names[1..][i] == names[i + 1] && names[1..][j] == names[j + 1];
      RemoveKeepsDistinct(names[1..], name);
      assert names == [names[0]] + names[1..];
      assert names[0] !in names[1..] by {
        assert forall j :: 0 <= j < |names[1..]| ==> names[1..][j] == names[j + 1];
      }
      var rest := Remove(names[1..], name);
      if names[0] != name {
        var all := [names[0]] + rest;
        forall i, j | 0 <= i < j < |all| ensures all[i] != all[j] {
          assert all[j] == rest[j - 1] && rest[j - 1] in rest;
          assert i > 0 ==> all[i] == rest[i - 1];
        }
      }
    }
  }

  lemma ApplyOneAgrees<S>(engine: Engine<S>, initial: S, s: State<S>, migration: Migration, at: Time)
    requires Agrees(engine, initial, s) && !InLedger(s.ledger, migration.name)
    requires ApplyOne(engine, s, migration, at).Some?
    ensures Agrees(engine, initial, ApplyOne(engine, s, migration, at).value)
  {
    JournalStep(engine, initial, s.journal, Up(migration));
    var row := Row(migration.name, at);
    assert RowNames(s.ledger + [row]) == RowNames(s.ledger) + [migration.name];
  }

  lemma RollbackOneAgrees<S>(engine: Engine<S>, initial: S, s: State<S>, migration: Migration)
    requires Agrees(engine, initial, s) && RollbackOne(engine, s, migration, migration.name).Some?
    ensures Agrees(engine, initial, RollbackOne(engine, s, migration, migration.name).value)
  {
    JournalStep(engine, initial, s.journal, Down(migration));
    RowNamesWithout(s.ledger, migration.name);
    RemoveKeepsDistinct(RowNames(s.ledger), migration.name);
  }

  lemma {:induction false} ApplyAgrees<S>(engine: Engine<S>, initial: S, s: State<S>, migrations: seq<Migration>,
                                          times: seq<Time>, faulty: set<nat>, i: nat)
    requires Agrees(engine, initial, s) && |times| == |migrations| && i <= |migrations|
    ensures Agrees(engine, initial, ApplyFrom(engine, s, migrations, times, faulty, i).0)
    decreases |migrations| - i
  {
    hide Agrees, ApplyOne, InLedger;
    if i < |migrations| && i !in faulty {
      if InLedger(s.ledger, migrations[i].name) {
        ApplyAgrees(engine, initial, s, migrations, times, faulty, i + 1);
      } else {
        var next := ApplyOne(engine, s, migrations[i], times[i]);
        if next.Some? {
          ApplyOneAgrees(engine, initial, s, migrations[i], times[i]);
          ApplyAgrees(engine, initial, next.value, migrations, times, faulty, i + 1);
        }
      }
    }
  }

  lemma {:induction false} ByNameNames(migrations: seq<Migration>)
    ensures forall name :: name in ByName(migrations) ==> ByName(migrations)[name].name == name
    ensures forall name :: name in ByName(migrations) ==> ByName(migrations)[name] in migrations
  {
    if migrations != [] {
      ByNameNames(migrations[..|migrations| - 1]);
    }
  }

  lemma {:induction false} RollbackAgrees<S>(engine: Engine<S>, initial: S, s: State<S>, available: map<string, Migration>,
                                             rows: seq<Row>, faulty: set<nat>, i: nat)
    requires Agrees(engine, initial, s) && i <= |rows|
    requires forall name :: name in available ==> available[name].name == name
    ensures Agrees(engine, initial, RollbackFrom(engine, s, available, rows, faulty, i).0)
    decreases |rows| - i
  {
    hide Agrees, RollbackOne;
    if i < |rows| && rows[i].name in available && i !in faulty {
      var next := RollbackOne(engine, s, available[rows[i].name], rows[i].name);
      if next.Some? {
        RollbackOneAgrees(engine, initial, s, available[rows[i].name]);
        RollbackAgrees(engine, initial, next.value, available, rows, faulty, i + 1);
      }
    }
  }

  datatype Command =
    | ApplyAll(migrations: seq<Migration>, times: seq<Time>, faulty: set<nat>)
    | RollbackLast(migrations: seq<Migration>, count: int, faulty: set<nat>)

  predicate WellTimed(command: Command) {
    command.ApplyAll? ==> |command.times| == |command.migrations|
  }

  function Execute<S>(engine: Engine<S>, s: State<S>, command: Command): State<S>
    requires WellTimed(command)
  {
    match command
    case ApplyAll(migrations, times, faulty) => Apply(engine, s, migrations, times, faulty).0
    case RollbackLast(migrations, count, faulty) => Rollback(engine, s, migrations, count, faulty).0
  }

  function ExecuteAll<S>(engine: Engine<S>, s: State<S>, commands: seq<Command>): State<S>
    requires forall i :: 0 <= i < |commands| ==> WellTimed(commands[i])
    decreases |commands|
  {
    if commands == [] then s else ExecuteAll(engine, Execute(engine, s, commands[0]), commands[1..])
  }

  lemma ExecuteAgrees<S>(engine: Engine<S>, initial: S, s: State<S>, command: Command)
    requires WellTimed(command) && Agrees(engine, initial, s)
    ensures Agrees(engine, initial, Execute(engine, s, command))
  {
    hide Agrees;
    match command
    case ApplyAll(migrations, times, faulty) =>
      ApplyAgrees(engine, initial, s, migrations, times, faulty, 0);
    case RollbackLast(migrations, count, faulty) =>
      if count >= 1 {
        ByNameNames(migrations);
        RollbackAgrees(engine, initial, s, ByName(migrations), Newest(s.ledger, count), faulty, 0);
      }
  }

  lemma {:induction false} ExecuteAllAgrees<S>(engine: Engine<S>, initial: S, s: State<S>, commands: seq<Command>)
    requires forall i :: 0 <= i < |commands| ==> WellTimed(commands[i])
    requires Agrees(engine, initial, s)
    ensures Agrees(engine, initial, ExecuteAll(engine, s, commands))
    decreases |commands|
  {
    hide Agrees, Execute;
    if commands != [] {
      ExecuteAgrees(engine, initial, s, commands[0]);
      ExecuteAllAgrees(engine, initial, Execute(engine, s, commands[0]), commands[1..]);
    }
  }

  /** After any history of Apply and Rollback calls, with any migration lists and a failure at any
      statement, the schema and the ledger are what the committed migrations say. */
  lemma EveryHistoryAgrees<S>(engine: Engine<S>, initial: S, commands: seq<Command>)
    requires forall i :: 0 <= i < |commands| ==> WellTimed(commands[i])
    ensures Agrees(engine, initial, ExecuteAll(engine, State(initial, [], []), commands))
  {
    ExecuteAllAgrees(engine, initial, State(initial, [], []), commands);
  }

  // ---- Apply applies a prefix of what is pending

  datatype Item = Item(migration: Migration, at: Time)

  /** The migrations from position `i` on that are not in the ledger, with their transaction times. */
  function Pending(ledger: seq<Row>, migrations: seq<Migration>, times: seq<Time>, i: nat): seq<Item>
    requires |times| == |migrations| && i <= |migrations|
    decreases |migrations| - i
  {
    if i == |migrations| then []
    else if InLedger(ledger, migrations[i].name) then Pending(ledger, migrations, times, i + 1)
    else [Item(migrations[i], times[i])] + Pending(ledger, migrations, times, i + 1)
  }

  function ApplyList<S>(engine: Engine<S>, s: State<S>, items: seq<Item>): Option<State<S>>
    decreases |items|
  {
    if items == [] then Some(s)
    else
      var next := ApplyOne(engine, s, items[0].migration, items[0].at);
      if next.None? then None else ApplyList(engine, next.value, items[1..])
  }

  lemma {:induction false} PendingAfterOther(ledger: seq<Row>, row: Row, migrations: seq<Migration>, times: seq<Time>, i: nat)
    requires |times| == |migrations| && i <= |migrations|
    requires forall j :: i <= j < |migrations| ==> migrations[j].name != row.name
    ensures Pending(ledger + [row], migrations, times, i) == Pending(ledger, migrations, times, i)
    decreases |migrations| - i
  {
    if i < |migrations| {
      assert InLedger(ledger + [row], migrations[i].name) <==> InLedger(ledger, migrations[i].name) by {
        assert forall k :: 0 <= k < |ledger| ==> (ledger + [row])[k] == ledger[k];
      }
      PendingAfterOther(ledger, row, migrations, times, i + 1);
    }
  }

  lemma LaterNamesDiffer(migrations: seq<Migration>, i: nat)
    requires ValidMigrations(migrations) && i < |migrations|
    ensures forall j :: i < j < |migrations| ==> migrations[j].name != migrations[i].name
  {
    var names := NamesOf(migrations);
    forall j | i < j < |migrations| ensures migrations[j].name != migrations[i].name {
      LessTotal(names[i], names[j]);
    }
  }

  /** What an Apply leaves is the state after a prefix of the pending list, the whole list on success. */
  lemma {:induction false} ApplyIsPrefix<S>(engine: Engine<S>, s: State<S>, migrations: seq<Migration>, times: seq<Time>,
                                            faulty: set<nat>, i: nat) returns (k: nat)
    requires |times| == |migrations| && i <= |migrations| && ValidMigrations(migrations)
    ensures var pending := Pending(s.ledger, migrations, times, i);
            var (end, ok) := ApplyFrom(engine, s, migrations, times, faulty, i);
            k <= |pending| && ApplyList(engine, s, pending[..k]) == Some(end) && (ok ==> k == |pending|) &&
            (!ok && faulty == {} ==> k < |pending| && ApplyList(engine, s, pending[..k + 1]) == None)
    decreases |migrations| - i
  {
    hide ApplyOne, InLedger, ValidMigrations;
    if i == |migrations| || i in faulty {
      k := 0;
    } else if InLedger(s.ledger, migrations[i].name) {
      k := ApplyIsPrefix(engine, s, migrations, times, faulty, i + 1);
    } else {
      var next := ApplyOne(engine, s, migrations[i], times[i]);
      var pending, later := Pending(s.ledger, migrations, times, i), Pending(s.ledger, migrations, times, i + 1);
      assert pending[1..] == later;
      if next.None? {
        k := 0;
        assert pending[..1] == [pending[0]];
      } else {
        LaterNamesDiffer(migrations, i);
        ApplyOneLedger(engine, s, migrations[i], times[i]);
        PendingAfterOther(s.ledger, Row(migrations[i].name, times[i]), migrations, times, i + 1);
        var rest := ApplyIsPrefix(engine, next.value, migrations, times, faulty, i + 1);
        k := rest + 1;
        assert pending[..k][1..] == later[..rest];
        assert k < |pending| ==> pending[..k + 1][1..] == later[..rest + 1];
      }
    }
  }

  lemma ApplyOneLedger<S>(engine: Engine<S>, s: State<S>, migration: Migration, at: Time)
    requires ApplyOne(engine, s, migration, at).Some?
    ensures ApplyOne(engine, s, migration, at).value.ledger == s.ledger + [Row(migration.name, at)]
  {
  }

  // ---- Apply can be resumed

  /** Equal but for the times recorded in the ledger. */
  predicate Similar<S(==)>(a: State<S>, b: State<S>) {
    a.schema == b.schema && a.journal == b.journal && RowNames(a.ledger) == RowNames(b.ledger)
  }

  lemma InLedgerNames(ledger: seq<Row>, name: string)
    ensures InLedger(ledger, name) <==> name in RowNames(ledger)
  {
    if InLedger(ledger, name) {
      var i :| 0 <= i < |ledger| && ledger[i].name == name;
      assert RowNames(ledger)[i] == name;
    }
  }

  lemma SimilarStep<S>(engine: Engine<S>, a: State<S>, b: State<S>, migration: Migration, at: Time, at': Time)
    requires Similar(a, b)
    ensures InLedger(a.ledger, migration.name) <==> InLedger(b.ledger, migration.name)
    ensures ApplyOne(engine, a, migration, at).Some? <==> ApplyOne(engine, b, migration, at').Some?
    ensures ApplyOne(engine, a, migration, at).Some? ==>
              Similar(ApplyOne(engine, a, migration, at).value, ApplyOne(engine, b, migration, at').value)
  {
    InLedgerNames(a.ledger, migration.name);
    InLedgerNames(b.ledger, migration.name);
    assert RowNames(a.ledger + [Row(migration.name, at)]) == RowNames(a.ledger) + [migration.name];
    assert RowNames(b.ledger + [Row(migration.name, at')]) == RowNames(b.ledger) + [migration.name];
  }

  lemma {:induction false} SimilarRuns<S>(engine: Engine<S>, a: State<S>, b: State<S>, migrations: seq<Migration>,
                                          times: seq<Time>, times': seq<Time>, i: nat)
    requires Similar(a, b) && |times| == |migrations| == |times'| && i <= |migrations|
    ensures var (x, ok), (y, ok') := ApplyFrom(engine, a, migrations, times, {}, i),
                                     ApplyFrom(engine, b, migrations, times', {}, i);
            ok == ok' && Similar(x, y)
    decreases |migrations| - i
  {
    hide Similar, ApplyOne, InLedger;
    if i < |migrations| {
      SimilarStep(engine, a, b, migrations[i], times[i], times'[i]);
      if InLedger(a.ledger, migrations[i].name) {
        SimilarRuns(engine, a, b, migrations, times, times', i + 1);
      } else {
        var next, next' := ApplyOne(engine, a, migrations[i], times[i]), ApplyOne(engine, b, migrations[i], times'[i]);
        if next.Some? {
          SimilarRuns(engine, next.value, next'.value, migrations, times, times', i + 1);
        }
      }
    }
  }

  lemma {:induction false} LedgerGrows<S>(engine: Engine<S>, s: State<S>, migrations: seq<Migration>, times: seq<Time>,
                                          faulty: set<nat>, i: nat)
    requires |times| == |migrations| && i <= |migrations|
    ensures s.ledger <= ApplyFrom(engine, s, migrations, times, faulty, i).0.ledger
    decreases |migrations| - i
  {
    if i < |migrations| && i !in faulty {
      if InLedger(s.ledger, migrations[i].name) {
        LedgerGrows(engine, s, migrations, times, faulty, i + 1);
      } else {
        var next := ApplyOne(engine, s, migrations[i], times[i]);
        if next.Some? {
          LedgerGrows(engine, next.value, migrations, times, faulty, i + 1);
        }
      }
    }
  }

  lemma StillInLedger(ledger: seq<Row>, grown: seq<Row>, name: string)
    requires ledger <= grown && InLedger(ledger, name)
    ensures InLedger(grown, name)
  {
    var i :| 0 <= i < |ledger| && ledger[i].name == name;
    assert grown[i] == ledger[i];
  }

  lemma {:induction false} ResumeFrom<S>(engine: Engine<S>, a: State<S>, b: State<S>, migrations: seq<Migration>,
                                         times: seq<Time>, times': seq<Time>, times'': seq<Time>, faulty: set<nat>, i: nat)
    requires Similar(a, b) && |times| == |times'| == |times''| == |migrations| && i <= |migrations|
    ensures var (full, done) := ApplyFrom(engine, a, migrations, times, {}, i);
            var part := ApplyFrom(engine, b, migrations, times', faulty, i).0;
            var (again, ok) := ApplyFrom(engine, part, migrations, times'', {}, i);
            ok == done && Similar(full, again)
    decreases |migrations| - i
  {
    hide Similar, ApplyOne, InLedger;
    if i < |migrations| {
      SimilarStep(engine, a, b, migrations[i], times[i], times'[i]);
      if i in faulty {
        SimilarRuns(engine, a, b, migrations, times, times'', i);
      } else if InLedger(a.ledger, migrations[i].name) {
        var part := ApplyFrom(engine, b, migrations, times', faulty, i + 1).0;
        LedgerGrows(engine, b, migrations, times', faulty, i + 1);
        StillInLedger(b.ledger, part.ledger, migrations[i].name);
        ResumeFrom(engine, a, b, migrations, times, times', times'', faulty, i + 1);
      } else {
        var next, next' := ApplyOne(engine, a, migrations[i], times[i]), ApplyOne(engine, b, migrations[i], times'[i]);
        if next.Some? {
          var part := ApplyFrom(engine, next'.value, migrations, times', faulty, i + 1).0;
          LedgerGrows(engine, next'.value, migrations, times', faulty, i + 1);
          AppliedIsInLedger(engine, b, migrations[i], times'[i]);
          StillInLedger(next'.value.ledger, part.ledger, migrations[i].name);
          ResumeFrom(engine, next.value, next'.value, migrations, times, times', times'', faulty, i + 1);
        } else {
          SimilarStep(engine, b, b, migrations[i], times'[i], times''[i]);
        }
      }
    }
  }

  lemma AppliedIsInLedger<S>(engine: Engine<S>, s: State<S>, migration: Migration, at: Time)
    requires ApplyOne(engine, s, migration, at).Some?
    ensures InLedger(ApplyOne(engine, s, migration, at).value.ledger, migration.name)
  {
    var ledger := ApplyOne(engine, s, migration, at).value.ledger;
    assert ledger[|ledger| - 1].name == migration.name;
  }

  /** An Apply that fails anywhere, followed by one that the environment leaves alone, ends as a single such Apply
      does: in the same schema, journal and ledger names, and with the same success or failure. */
  lemma ApplyResumes<S>(engine: Engine<S>, s: State<S>, migrations: seq<Migration>,
                        times: seq<Time>, times': seq<Time>, times'': seq<Time>, faulty: set<nat>)
    requires |times| == |times'| == |times''| == |migrations|
    ensures var (full, done) := Apply(engine, s, migrations, times, {});
            var part := Apply(engine, s, migrations, times', faulty).0;
            var (again, ok) := Apply(engine, part, migrations, times'', {});
            ok == done && Similar(full, again)
  {
    ResumeFrom(engine, s, s, migrations, times, times', times'', faulty, 0);
  }

  /** Apply on a fully applied list changes nothing, whatever fails. */
  lemma {:induction false} ApplyTwiceIsIdle<S>(engine: Engine<S>, s: State<S>, migrations: seq<Migration>, times: seq<Time>,
                                               faulty: set<nat>, i: nat)
    requires |times| == |migrations| && i <= |migrations|
    requires forall j :: i <= j < |migrations| ==> InLedger(s.ledger, migrations[j].name)
    ensures ApplyFrom(engine, s, migrations, times, faulty, i).0 == s
    ensures faulty == {} ==> ApplyFrom(engine, s, migrations, times, faulty, i).1
    decreases |migrations| - i
  {
    hide InLedger;
    if i < |migrations| && i !in faulty {
      ApplyTwiceIsIdle(engine, s, migrations, times, faulty, i + 1);
    }
  }

  // ---- Rollback undoes the newest migrations, newest first

  predicate Ascending(ledger: seq<Row>) {
    forall i, j :: 0 <= i < j < |ledger| ==> RowLess(ledger[i], ledger[j])
  }

  function Reverse(rows: seq<Row>): (reversed: seq<Row>)
    ensures |reversed| == |rows|
  {
    if rows == [] then [] else [rows[|rows| - 1]] + Reverse(rows[..|rows| - 1])
  }

  lemma {:induction false} ReverseAt(rows: seq<Row>, k: nat)
    requires k < |rows|
    ensures Reverse(rows)[k] == rows[|rows| - 1 - k]
  {
    if k > 0 {
      ReverseAt(rows[..|rows| - 1], k - 1);
    }
  }

  /** On a ledger that ascends in application order, the query returns the rows newest first. */
  lemma {:induction false} DescendingIsReverse(rows: seq<Row>)
    requires Ascending(rows)
    ensures Descending(rows) == Reverse(rows)
  {
    if rows != [] {
      var before, last := rows[..|rows| - 1], rows[|rows| - 1];
      DescendingIsReverse(before);
      if before != [] {
        ReverseAt(before, 0);
        assert RowLess(before[|before| - 1], last);
        assert Reverse(before)[0] == before[|before| - 1];
      }
    }
  }

  /** Running Down after Up gives back the schema that Up started from. */
  ghost predicate Reversible<S(!new)>(engine: Engine<S>, migration: Migration) {
    forall schema: S, after: S :: ExecAll(engine, schema, migration.up) == Some(after) ==>
      ExecAll(engine, after, migration.down) == Some(schema)
  }

  lemma {:induction false} WithoutLast(before: seq<Row>, last: Row)
    requires last.name !in RowNames(before)
    ensures Without(before + [last], last.name) == before
  {
    var all := before + [last];
    if before == [] {
      assert all[1..] == [];
    } else {
      assert all[0] == before[0] && all[1..] == before[1..] + [last];
      assert RowNames(before) == [before[0].name] + RowNames(before[1..]);
      WithoutLast(before[1..], last);
    }
  }

  lemma {:induction false} ApplyListSnoc<S>(engine: Engine<S>, s: State<S>, items: seq<Item>)
    requires items != []
    ensures ApplyList(engine, s, items) ==
            (var before := ApplyList(engine, s, items[..|items| - 1]);
             var last := items[|items| - 1];
             if before.None? then None else ApplyOne(engine, before.value, last.migration, last.at))
    decreases |items|
  {
    hide ApplyOne;
    var next := ApplyOne(engine, s, items[0].migration, items[0].at);
    if |items| == 1 {
      assert items[..0] == [] && items[1..] == [];
    } else {
      assert items[..|items| - 1][1..] == items[1..][..|items| - 2];
      if next.Some? {
        ApplyListSnoc(engine, next.value, items[1..]);
      }
    }
  }

  /** The conditions under which rolling back restores earlier schemas: what was applied is reversible and still
      available, and the ledger ascends in application order, each name once. */
  ghost predicate Undoable<S(!new)>(engine: Engine<S>, items: seq<Item>, available: map<string, Migration>, ledger: seq<Row>) {
    && (forall k :: 0 <= k < |items| ==>
          Reversible(engine, items[k].migration) && items[k].migration.name in available
          && available[items[k].migration.name] == items[k].migration)
    && Ascending(ledger) && Distinct(RowNames(ledger))
  }

  lemma UndoOne<S(!new)>(engine: Engine<S>, s: State<S>, t: State<S>, journal: seq<Done>, item: Item)
    requires ApplyOne(engine, s, item.migration, item.at) == Some(t)
    requires Reversible(engine, item.migration) && Distinct(RowNames(t.ledger))
    ensures RollbackOne(engine, t.(journal := journal), item.migration, item.migration.name)
            == Some(State(s.schema, s.ledger, journal + [Down(item.migration)]))
  {
    var names := RowNames(t.ledger);
    assert t.ledger == s.ledger + [Row(item.migration.name, item.at)];
    assert item.migration.name !in RowNames(s.ledger) by {
      assert forall k :: 0 <= k < |s.ledger| ==> RowNames(s.ledger)[k] == names[k];
      assert names[|s.ledger|] == item.migration.name;
    }
    WithoutLast(s.ledger, Row(item.migration.name, item.at));
    assert ExecAll(engine, s.schema, item.migration.up) == Some(t.schema);
  }

  /** The rows from position `i` on are the newest rows of the ledger, newest first. */
  predicate Mirrors(rows: seq<Row>, i: nat, ledger: seq<Row>) {
    i <= |rows| && |rows| - i <= |ledger| && rows[i..] == Reverse(ledger)[..|rows| - i]
  }

  lemma MirrorsStep(rows: seq<Row>, i: nat, ledger: seq<Row>)
    requires Mirrors(rows, i, ledger) && i < |rows|
    ensures ledger != [] && rows[i] == ledger[|ledger| - 1] && Mirrors(rows, i + 1, ledger[..|ledger| - 1])
  {
    var before := ledger[..|ledger| - 1];
    assert rows[i] == rows[i..][0] == Reverse(ledger)[0];
    assert rows[i + 1..] == rows[i..][1..] == Reverse(ledger)[..|rows| - i][1..] == Reverse(before)[..|rows| - (i + 1)];
  }

  /** What undoing the items, newest first, adds to the journal. */
  function Undone(items: seq<Item>): seq<Done> {
    if items == [] then [] else [Down(items[|items| - 1].migration)] + Undone(items[..|items| - 1])
  }

  lemma {:induction false} UndoFrom<S(!new)>(engine: Engine<S>, s: State<S>, items: seq<Item>, t: State<S>,
                                             journal: seq<Done>, available: map<string, Migration>, rows: seq<Row>, i: nat)
    requires ApplyList(engine, s, items) == Some(t) && Mirrors(rows, i, t.ledger) && |rows| - i <= |items|
    requires Undoable(engine, items, available, t.ledger)
    ensures var (end, ok) := RollbackFrom(engine, t.(journal := journal), available, rows, {}, i);
            var kept := ApplyList(engine, s, items[..|items| - (|rows| - i)]);
            ok && kept.Some? && end.schema == kept.value.schema && end.ledger == kept.value.ledger
            && end.journal == journal + Undone(items[|items| - (|rows| - i)..])
    decreases |rows| - i
  {
    hide RollbackOne, ApplyOne, ApplyList, Undoable;
    if i == |rows| {
      assert items[..|items|] == items && items[|items|..] == [] && journal + [] == journal;
    } else {
      var before, last := items[..|items| - 1], items[|items| - 1];
      var u := UndoNewest(engine, s, items, t, journal, available, rows, i);
      hide RollbackFrom;
      UndoFrom(engine, s, before, u, journal + [Down(last.migration)], available, rows, i + 1);
      assert before[..|before| - (|rows| - (i + 1))] == items[..|items| - (|rows| - i)];
      UndoneSnoc(items, |items| - (|rows| - i), journal);
    }
  }

  /** The next row is undone by the last item, and leads to the state before it. */
  lemma UndoNewest<S(!new)>(engine: Engine<S>, s: State<S>, items: seq<Item>, t: State<S>,
                            journal: seq<Done>, available: map<string, Migration>, rows: seq<Row>, i: nat) returns (u: State<S>)
    requires ApplyList(engine, s, items) == Some(t) && Mirrors(rows, i, t.ledger) && i < |rows| && |rows| - i <= |items|
    requires Undoable(engine, items, available, t.ledger)
    ensures var before, last := items[..|items| - 1], items[|items| - 1].migration;
            ApplyList(engine, s, before) == Some(u)
            && Mirrors(rows, i + 1, u.ledger) && Undoable(engine, before, available, u.ledger)
            && RollbackFrom(engine, t.(journal := journal), available, rows, {}, i)
               == RollbackFrom(engine, u.(journal := journal + [Down(last)]), available, rows, {}, i + 1)
  {
    hide RollbackOne, ApplyOne, ApplyList, Reversible, Ascending, Mirrors;
    var last := items[|items| - 1];
    ApplyListSnoc(engine, s, items);
    u := ApplyList(engine, s, items[..|items| - 1]).value;
    ApplyOneLedger(engine, u, last.migration, last.at);
    MirrorsStep(rows, i, t.ledger);
    assert t.ledger[..|t.ledger| - 1] == u.ledger && rows[i].name == last.migration.name;
    UndoOne(engine, u, t, journal, last);
    PrefixUndoable(engine, items, available, t.ledger);
  }

  lemma UndoneSnoc(items: seq<Item>, k: nat, journal: seq<Done>)
    requires k < |items|
    ensures var before, last := items[..|items| - 1], items[|items| - 1];
            journal + Undone(items[k..]) == journal + [Down(last.migration)] + Undone(before[k..])
  {
    var tail := items[k..];
    assert tail[..|tail| - 1] == items[..|items| - 1][k..] && tail[|tail| - 1] == items[|items| - 1];
  }

  lemma PrefixUndoable<S(!new)>(engine: Engine<S>, items: seq<Item>, available: map<string, Migration>, ledger: seq<Row>)
    requires Undoable(engine, items, available, ledger) && items != [] && ledger != []
    ensures Undoable(engine, items[..|items| - 1], available, ledger[..|ledger| - 1])
  {
    hide Reversible, RowLess;
    var before := ledger[..|ledger| - 1];
    assert forall k :: 0 <= k < |before| ==> RowNames(before)[k] == RowNames(ledger)[k];
  }

  /** Undoing the rows, each by the Down of the available migration of its name; `None` when a name is missing or a
      statement fails. */
  function UndoList<S>(engine: Engine<S>, s: State<S>, available: map<string, Migration>, rows: seq<Row>): Option<State<S>>
    decreases |rows|
  {
    if rows == [] then Some(s)
    else if rows[0].name !in available then None
    else
      var next := RollbackOne(engine, s, available[rows[0].name], rows[0].name);
      if next.None? then None else UndoList(engine, next.value, available, rows[1..])
  }

  /** What a Rollback leaves is the state after undoing a prefix of its rows, all of them on success; without outside
      failures the next row really cannot be undone. */
  lemma {:induction false} RollbackIsPrefix<S>(engine: Engine<S>, s: State<S>, available: map<string, Migration>, rows: seq<Row>,
                                               faulty: set<nat>, i: nat) returns (k: nat)
    requires i <= |rows|
    ensures var (end, ok) := RollbackFrom(engine, s, available, rows, faulty, i);
            i + k <= |rows| && UndoList(engine, s, available, rows[i..i + k]) == Some(end) && (ok ==> i + k == |rows|)
            && (!ok && faulty == {} ==> i + k < |rows| && UndoList(engine, s, available, rows[i..i + k + 1]) == None)
    decreases |rows| - i
  {
    hide RollbackOne;
    k := 0;
    assert rows[i..i] == [];
    if i < |rows| {
      var one := rows[i..i + 1];
      assert one == [rows[i]] && one[1..] == [];
      if rows[i].name in available && i !in faulty {
        var next := RollbackOne(engine, s, available[rows[i].name], rows[i].name);
        if next.Some? {
          var rest := RollbackIsPrefix(engine, next.value, available, rows, faulty, i + 1);
          k := rest + 1;
          UndoListStep(engine, s, available, rows, i, i + k);
          if i + k < |rows| {
            UndoListStep(engine, s, available, rows, i, i + k + 1);
          }
        }
      }
    }
  }

  lemma UndoListStep<S>(engine: Engine<S>, s: State<S>, available: map<string, Migration>, rows: seq<Row>, i: nat, j: nat)
    requires i < j <= |rows| && rows[i].name in available
    requires RollbackOne(engine, s, available[rows[i].name], rows[i].name).Some?
    ensures UndoList(engine, s, available, rows[i..j])
            == UndoList(engine, RollbackOne(engine, s, available[rows[i].name], rows[i].name).value, available, rows[i + 1..j])
  {
    assert rows[i..j][0] == rows[i] && rows[i..j][1..] == rows[i + 1..j];
  }

  /** Rollback(n) after any migrations were applied, by one Apply or several, undoes exactly the last n of them,
      newest first: it leaves the schema and the ledger that applying only the earlier ones leaves. With n the
      number applied, that is the schema and the ledger from before. */
  lemma RollbackInvertsApply<S(!new)>(engine: Engine<S>, s: State<S>, items: seq<Item>, t: State<S>,
                                      migrations: seq<Migration>, count: nat)
    requires ApplyList(engine, s, items) == Some(t) && 1 <= count <= |items|
    requires ValidMigrations(migrations)
    requires Undoable(engine, items, ByName(migrations), t.ledger)
    ensures var (end, ok) := Rollback(engine, t, migrations, count, {});
            var kept := ApplyList(engine, s, items[..|items| - count]);
            ok && kept.Some? && end.schema == kept.value.schema && end.ledger == kept.value.ledger
            && end.journal == t.journal + Undone(items[|items| - count..])
  {
    hide Undoable, RowLess, ApplyList, RollbackFrom;
    assert Ascending(t.ledger) by {
      UndoableAscends(engine, items, ByName(migrations), t.ledger);
    }
    DescendingIsReverse(t.ledger);
    AppliedLength(engine, s, items, t);
    var rows := Newest(t.ledger, count);
    assert rows[0..] == rows == Reverse(t.ledger)[..count];
    UndoFrom(engine, s, items, t, t.journal, ByName(migrations), rows, 0);
    assert t.(journal := t.journal) == t;
  }

  lemma UndoableAscends<S(!new)>(engine: Engine<S>, items: seq<Item>, available: map<string, Migration>, ledger: seq<Row>)
    requires Undoable(engine, items, available, ledger)
    ensures Ascending(ledger)
  {
  }

  lemma {:induction false} AppliedLength<S>(engine: Engine<S>, s: State<S>, items: seq<Item>, t: State<S>)
    requires ApplyList(engine, s, items) == Some(t)
    ensures |t.ledger| == |s.ledger| + |items|
    decreases |items|
  {
    if items != [] {
      AppliedLength(engine, ApplyOne(engine, s, items[0].migration, items[0].at).value, items[1..], t);
    }
  }

  /** With start times that do not go back within one Apply and lie after every earlier row, the ledger that an
      Apply leaves ascends. */
  lemma {:induction false} ApplyAscends<S>(engine: Engine<S>, s: State<S>, migrations: seq<Migration>, times: seq<Time>,
                                           faulty: set<nat>, i: nat)
    requires |times| == |migrations| && i <= |migrations| && ValidMigrations(migrations) && Ascending(s.ledger)
    requires forall j, k :: 0 <= j <= k < |times| ==> times[j] <= times[k]
    requires forall r, k :: 0 <= r < |s.ledger| && i <= k < |migrations| ==>
               RowLess(s.ledger[r], Row(migrations[k].name, times[k]))
    ensures Ascending(ApplyFrom(engine, s, migrations, times, faulty, i).0.ledger)
    decreases |migrations| - i
  {
    if i < |migrations| && i !in faulty {
      if InLedger(s.ledger, migrations[i].name) {
        ApplyAscends(engine, s, migrations, times, faulty, i + 1);
      } else {
        var next := ApplyOne(engine, s, migrations[i], times[i]);
        if next.Some? {
          var names := NamesOf(migrations);
          forall k | i < k < |migrations|
            ensures RowLess(Row(migrations[i].name, times[i]), Row(migrations[k].name, times[k]))
          {
            assert Less(names[i], names[k]) && times[i] <= times[k];
          }
          ApplyAscends(engine, next.value, migrations, times, faulty, i + 1);
        }
      }
    }
  }

  lemma {:induction false} ByNameFinds(migrations: seq<Migration>, i: nat)
    requires ValidMigrations(migrations) && i < |migrations|
    ensures migrations[i].name in ByName(migrations) && ByName(migrations)[migrations[i].name] == migrations[i]
  {
    var n := |migrations| - 1;
    var before := migrations[..n];
    var names := NamesOf(migrations);
    if i < n {
      assert ValidMigrations(before) by {
        assert NamesOf(before) == names[..n];
      }
      ByNameFinds(before, i);
      LaterNamesDiffer(migrations, i);
    }
  }

  lemma {:induction false} PendingAreMigrations(ledger: seq<Row>, migrations: seq<Migration>, times: seq<Time>, i: nat)
    requires |times| == |migrations| && i <= |migrations|
    ensures forall k :: 0 <= k < |Pending(ledger, migrations, times, i)| ==>
              Pending(ledger, migrations, times, i)[k].migration in migrations
    decreases |migrations| - i
  {
    if i < |migrations| {
      PendingAreMigrations(ledger, migrations, times, i + 1);
    }
  }

  /** Rolling back as many migrations as an Apply applied, whether it failed or not, restores the schema and
      the ledger from before it. */
  lemma ApplyThenRollback<S(!new)>(engine: Engine<S>, initial: S, s: State<S>, migrations: seq<Migration>,
                                   times: seq<Time>, faulty: set<nat>)
    requires Agrees(engine, initial, s) && Ascending(s.ledger)
    requires |times| == |migrations| && ValidMigrations(migrations)
    requires forall j, k :: 0 <= j <= k < |times| ==> times[j] <= times[k]
    requires forall r, k :: 0 <= r < |s.ledger| && 0 <= k < |times| ==> s.ledger[r].at < times[k]
    requires forall k :: 0 <= k < |migrations| ==> Reversible(engine, migrations[k])
    ensures var t := Apply(engine, s, migrations, times, faulty).0;
            var count := |t.ledger| - |s.ledger|;
            count >= 0 &&
            (count > 0 ==>
               var (end, ok) := Rollback(engine, t, migrations, count, {});
               ok && end.schema == s.schema && end.ledger == s.ledger)
  {
    hide ApplyList, ApplyFrom, RollbackFrom, Reversible;
    var t := Apply(engine, s, migrations, times, faulty).0;
    var pending := Pending(s.ledger, migrations, times, 0);
    var k := ApplyIsPrefix(engine, s, migrations, times, faulty, 0);
    var items := pending[..k];
    AppliedLength(engine, s, items, t);
    if k > 0 {
      PendingAreMigrations(s.ledger, migrations, times, 0);
      ApplyAgrees(engine, initial, s, migrations, times, faulty, 0);
      ApplyAscends(engine, s, migrations, times, faulty, 0);
      forall j | 0 <= j < |items|
        ensures Reversible(engine, items[j].migration) && items[j].migration.name in ByName(migrations)
                && ByName(migrations)[items[j].migration.name] == items[j].migration
      {
        var m :| 0 <= m < |migrations| && migrations[m] == pending[j].migration;
        ByNameFinds(migrations, m);
      }
      RollbackInvertsApply(engine, s, items, t, migrations, k);
      assert items[..0] == [];
      ApplyListNothing(engine, s);
    }
  }

  lemma ApplyListNothing<S>(engine: Engine<S>, s: State<S>)
    ensures ApplyList(engine, s, []) == Some(s)
  {
  }
}
