/** `Status` of migrate/migrate.go: which migrations of a list are applied, and when. */
module MigratorStatus {
  import opened Text
  import opened MigrationFile
  import opened Migrator
  import opened MigratorLaws

  datatype Status = Status(name: string, appliedAt: Option<Time>)

  /** One status for each migration, in order, telling the time of its row in the ledger, if there is one. */
  predicate Reports(statuses: seq<Status>, ledger: seq<Row>, migrations: seq<Migration>) {
    |statuses| == |migrations| &&
    forall i :: 0 <= i < |migrations| ==>
      statuses[i].name == migrations[i].name
      && (statuses[i].appliedAt.Some? <==> InLedger(ledger, migrations[i].name))
      && (statuses[i].appliedAt.Some? ==> Row(migrations[i].name, statuses[i].appliedAt.value) in ledger)
  }

  method ReadLedger(ledger: seq<Row>) returns (byName: map<string, Time>)
    ensures forall name :: name in byName <==> InLedger(ledger, name)
    ensures forall name :: name in byName ==> Row(name, byName[name]) in ledger
  {
    byName := map[];
    for i := 0 to |ledger|
      invariant forall name :: name in byName <==> InLedger(ledger[..i], name)
      invariant forall name :: name in byName ==> Row(name, byName[name]) in ledger[..i]
    {
      LedgerStep(ledger, i);
      byName := byName[ledger[i].name := ledger[i].at];
      assert ledger[i] == Row(ledger[i].name, ledger[i].at);
    }
    assert ledger[..|ledger|] == ledger;
  }

  lemma LedgerStep(ledger: seq<Row>, i: nat)
    requires i < |ledger|
    ensures forall name :: InLedger(ledger[..i + 1], name) <==> InLedger(ledger[..i], name) || name == ledger[i].name
    ensures forall row :: row in ledger[..i + 1] <==> row in ledger[..i] || row == ledger[i]
  {
    assert ledger[..i + 1] == ledger[..i] + [ledger[i]];
    forall name ensures InLedger(ledger[..i + 1], name) <==> InLedger(ledger[..i], name) || name == ledger[i].name {
      if InLedger(ledger[..i], name) {
        var k :| 0 <= k < i && ledger[..i][k].name == name;
        assert ledger[..i + 1][k].name == name;
      }
      if name == ledger[i].name {
        assert ledger[..i + 1][i].name == name;
      }
    }
  }

  method ReportStatus(ledger: seq<Row>, migrations: seq<Migration>) returns (outcome: Option<seq<Status>>)
    ensures outcome.Some? <==> ValidMigrations(migrations)
    ensures outcome.Some? ==> Reports(outcome.value, ledger, migrations)
  {
    hide ValidMigrations, InLedger;
    var ok := ValidateMigrations(migrations);
    if !ok {
      return None;
    }
    var byName := ReadLedger(ledger);
    var statuses: seq<Status> := [];
    for i := 0 to |migrations|
      invariant |statuses| == i
      invariant forall k :: 0 <= k < i ==> statuses[k].name == migrations[k].name
      invariant forall k :: 0 <= k < i ==> (statuses[k].appliedAt.Some? <==> InLedger(ledger, migrations[k].name))
      invariant forall k :: 0 <= k < i && statuses[k].appliedAt.Some? ==> Row(migrations[k].name, statuses[k].appliedAt.value) in ledger
    {
      var status := Status(migrations[i].name, None);
      if migrations[i].name in byName {
        status := status.(appliedAt := Some(byName[migrations[i].name]));
      }
      statuses := statuses + [status];
    }
    outcome := Some(statuses);
  }

  /** After any history of Apply and Rollback calls with any failures, the status of a migration says whether it was
      applied and not rolled back. */
  lemma {:induction false} StatusTellsTheHistory<S>(engine: Engine<S>, initial: S, commands: seq<Command>, migrations: seq<Migration>,
                                 statuses: seq<Status>, i: nat)
    requires forall k :: 0 <= k < |commands| ==> WellTimed(commands[k])
    requires var s := ExecuteAll(engine, State(initial, [], []), commands); Reports(statuses, s.ledger, migrations)
    requires i < |migrations|
    ensures var s := ExecuteAll(engine, State(initial, [], []), commands);
            statuses[i].appliedAt.Some? <==> migrations[i].name in Applied(s.journal)
  {
    hide ExecuteAll, Replay, Applied, InLedger;
    EveryHistoryAgrees(engine, initial, commands);
    var s := ExecuteAll(engine, State(initial, [], []), commands);
    InLedgerNames(s.ledger, migrations[i].name);
  }
}
