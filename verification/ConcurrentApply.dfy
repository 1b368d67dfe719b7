/** Any number of processes running `Apply` at once on one database: each checks the ledger outside a
    transaction, then runs Up and inserts the name inside one. The ledger's primary key makes an insert of a
    committed name fail and one of an uncommitted name wait. Conflicting statements of two transactions wait for each
    other too, so that a commit has the effect of its statements on the schema it finds. */
module ConcurrentApply {
  import opened Text
  import opened MigrationFile
  import Migrator
  import MigratorLaws

  /** Where a process stands with one migration: `Checked` has found it missing, `Inserted` holds an open
      transaction that has run its statements and inserted its name. */
  datatype Process = Idle | Checked(migration: Migration) | Inserted(migration: Migration, at: Migrator.Time)

  /** The committed schema, ledger and journal, and the processes. */
  datatype State<S> = State(db: Migrator.State<S>, processes: map<nat, Process>)

  datatype Step =
    | Check(process: nat, migration: Migration)
    | Insert(process: nat, at: Migrator.Time)
    | Commit(process: nat)
    | Abort(process: nat)

  predicate HeldByOther<S>(s: State<S>, p: nat, name: string) {
    exists q :: q in s.processes && q != p && s.processes[q].Inserted? && s.processes[q].migration.name == name
  }

  function Next<S>(engine: Migrator.Engine<S>, s: State<S>, step: Step): Option<State<S>> {
    if step.process !in s.processes then None
    else
      var p, process := step.process, s.processes[step.process];
      match step
      case Check(_, migration) =>
        if !process.Idle? then None
        else if Migrator.InLedger(s.db.ledger, migration.name) then Some(s)
        else Some(s.(processes := s.processes[p := Checked(migration)]))
      case Insert(_, at) =>
        if !process.Checked? || HeldByOther(s, p, process.migration.name) then None
        else if Migrator.InLedger(s.db.ledger, process.migration.name) then Some(s.(processes := s.processes[p := Idle]))
        else Some(s.(processes := s.processes[p := Inserted(process.migration, at)]))
      case Commit(_) =>
        if !process.Inserted? then None
        else
          var db := Migrator.ApplyOne(engine, s.db, process.migration, process.at);
          if db.None? then None else Some(State(db.value, s.processes[p := Idle]))
      case Abort(_) => Some(s.(processes := s.processes[p := Idle]))
  }

  function Run<S>(engine: Migrator.Engine<S>, s: State<S>, steps: seq<Step>): Option<State<S>>
    decreases |steps|
  {
    if steps == [] then Some(s)
    else
      var next := Next(engine, s, steps[0]);
      if next.None? then None else Run(engine, next.value, steps[1..])
  }

  predicate OnlyUps(journal: seq<Migrator.Done>) {
    forall i :: 0 <= i < |journal| ==> journal[i].Up?
  }

  /** No migration's Up is in the journal twice. */
  predicate Once(journal: seq<Migrator.Done>) {
    forall i, j :: 0 <= i < j < |journal| ==> journal[i].migration.name != journal[j].migration.name
  }

  /** No two processes hold one name, and none holds a committed one. */
  ghost predicate Exclusive<S>(s: State<S>) {
    && (forall p :: p in s.processes && s.processes[p].Inserted? ==>
          !Migrator.InLedger(s.db.ledger, s.processes[p].migration.name))
    && (forall p, q :: p in s.processes && q in s.processes && p != q
                       && s.processes[p].Inserted? && s.processes[q].Inserted?
          ==> s.processes[p].migration.name != s.processes[q].migration.name)
  }

  ghost predicate Invariant<S>(engine: Migrator.Engine<S>, initial: S, s: State<S>) {
    MigratorLaws.Agrees(engine, initial, s.db) && OnlyUps(s.db.journal) && Exclusive(s)
  }

  lemma CommitKeeps<S>(engine: Migrator.Engine<S>, initial: S, s: State<S>, p: nat)
    requires Invariant(engine, initial, s) && p in s.processes && s.processes[p].Inserted?
    requires Next(engine, s, Commit(p)).Some?
    ensures Invariant(engine, initial, Next(engine, s, Commit(p)).value)
  {
    hide MigratorLaws.Agrees, Migrator.ExecAll;
    var process, next := s.processes[p], Next(engine, s, Commit(p)).value;
    MigratorLaws.ApplyOneAgrees(engine, initial, s.db, process.migration, process.at);
    forall q | q in next.processes && next.processes[q].Inserted?
      ensures !Migrator.InLedger(next.db.ledger, next.processes[q].migration.name)
    {
      assert q != p && s.processes[q] == next.processes[q];
      OnlyTheNewName(s.db.ledger, Migrator.Row(process.migration.name, process.at), next.processes[q].migration.name);
    }
  }

  lemma OnlyTheNewName(ledger: seq<Migrator.Row>, row: Migrator.Row, name: string)
    requires !Migrator.InLedger(ledger, name) && name != row.name
    ensures !Migrator.InLedger(ledger + [row], name)
  {
    forall i | 0 <= i < |ledger| + 1 ensures (ledger + [row])[i].name != name {
      assert i < |ledger| ==> (ledger + [row])[i] == ledger[i];
    }
  }

  lemma StepKeeps<S>(engine: Migrator.Engine<S>, initial: S, s: State<S>, step: Step)
    requires Invariant(engine, initial, s) && Next(engine, s, step).Some?
    ensures Invariant(engine, initial, Next(engine, s, step).value)
  {
    hide MigratorLaws.Agrees, Migrator.InLedger, Migrator.ApplyOne, OnlyUps;
    var next, p, process := Next(engine, s, step).value, step.process, s.processes[step.process];
    match step
    case Insert(_, _) =>
      forall q | q in next.processes && q != p && next.processes[q].Inserted? && next.processes[p].Inserted?
        ensures next.processes[q].migration.name != next.processes[p].migration.name
      {
        assert next.processes[q] == s.processes[q];
      }
    case Commit(_) => CommitKeeps(engine, initial, s, p);
    case _ =>
  }

  lemma {:induction false} RunKeeps<S>(engine: Migrator.Engine<S>, initial: S, s: State<S>, steps: seq<Step>)
    requires Invariant(engine, initial, s) && Run(engine, s, steps).Some?
    ensures Invariant(engine, initial, Run(engine, s, steps).value)
    decreases |steps|
  {
    hide Invariant, Next;
    if steps != [] {
      StepKeeps(engine, initial, s, steps[0]);
      RunKeeps(engine, initial, Next(engine, s, steps[0]).value, steps[1..]);
    }
  }

  lemma {:induction false} AppliedByUps(journal: seq<Migrator.Done>)
    requires OnlyUps(journal)
    ensures |MigratorLaws.Applied(journal)| == |journal|
    ensures forall i :: 0 <= i < |journal| ==> MigratorLaws.Applied(journal)[i] == journal[i].migration.name
  {
    if journal != [] {
      AppliedByUps(journal[..|journal| - 1]);
    }
  }

  /** However the processes interleave, no migration's Up is committed twice, the schema is the fold of the committed
      Ups, and the ledger holds exactly their names, each once. */
  lemma EachUpCommitsOnce<S>(engine: Migrator.Engine<S>, initial: S, processes: map<nat, Process>, steps: seq<Step>)
    requires forall p :: p in processes ==> processes[p] == Idle
    requires Run(engine, State(Migrator.State(initial, [], []), processes), steps).Some?
    ensures var end := Run(engine, State(Migrator.State(initial, [], []), processes), steps).value.db;
            OnlyUps(end.journal) && Once(end.journal) && MigratorLaws.Agrees(engine, initial, end)
            && |end.ledger| == |end.journal|
            && forall i :: 0 <= i < |end.ledger| ==> end.ledger[i].name == end.journal[i].migration.name
  {
    RunKeeps(engine, initial, State(Migrator.State(initial, [], []), processes), steps);
    var end := Run(engine, State(Migrator.State(initial, [], []), processes), steps).value.db;
    AppliedByUps(end.journal);
    var names := MigratorLaws.RowNames(end.ledger);
    forall i, j | 0 <= i < j < |end.journal| ensures end.journal[i].migration.name != end.journal[j].migration.name {
      assert names[i] != names[j];
    }
  }
}
