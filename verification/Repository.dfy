/** The write operations of repository/repository.go: their hook pipelines, what they write, and the changes they
    record. An operation works on the rows that its transaction sees; that a failed operation leaves nothing behind
    is the business of the enclosing transaction. */
module Repository {
  import opened Text
  import opened ModelSchema
  import opened Entities
  import opened Lifecycle
  import opened Changes

  datatype Failure = InvalidArgument | NotFound | Conflict | NoId | Raised(code: string)

  // -------------------------------------------------------------------------------------------- pipelines

  /** What an operation does, in order; the change records are refreshed in between. */
  datatype Step = Check | Find | NewId | Terminal(stage: Stage) | Hook(stage: Stage) | Validate | Write

  datatype Operation = Create | Update | Delete | Restore | ForceDelete

  function Plan(operation: Operation): seq<Step> {
    match operation
    case Create =>
      [NewId, Terminal(AfterCommit), Terminal(AfterRollback), Hook(BeforeValidate), Validate, Hook(AfterValidate),
       Hook(BeforeSave), Hook(BeforeCreate), Write, Hook(AfterCreate), Hook(AfterSave)]
    case Update =>
      [Check, Find, Terminal(AfterCommit), Terminal(AfterRollback), Hook(BeforeValidate), Validate, Hook(AfterValidate),
       Hook(BeforeSave), Hook(BeforeUpdate), Write, Hook(AfterUpdate), Hook(AfterSave)]
    case Delete =>
      [Check, Find, Terminal(AfterCommit), Terminal(AfterRollback), Hook(BeforeDelete), Write, Hook(AfterDelete)]
    case Restore =>
      [Check, Find, Terminal(AfterCommit), Terminal(AfterRollback), Hook(BeforeRestore), Write, Hook(AfterRestore)]
    case ForceDelete =>
      [Check, Find, Terminal(AfterCommit), Terminal(AfterRollback), Hook(BeforeForceDelete), Write, Hook(AfterForceDelete)]
  }

  /** `operationSettings`. */
  datatype Settings = Settings(skipped: set<Stage>, skipAll: bool)

  predicate Skips(settings: Settings, stage: Stage) {
    settings.skipAll || stage in settings.skipped
  }

  predicate SkipsStep(settings: Settings, step: Step) {
    (step.Terminal? || step.Hook?) && Skips(settings, step.stage)
  }

  /** A pipeline without the skipped stages. */
  function Kept(settings: Settings, plan: seq<Step>): seq<Step> {
    if plan == [] then []
    else
      var last := plan[|plan| - 1];
      Kept(settings, plan[..|plan| - 1]) + (if SkipsStep(settings, last) then [] else [last])
  }

  /** A step that was taken, and its error. */
  datatype Mark = Mark(step: Step, error: Option<Failure>)

  function Passed(steps: seq<Step>): (marks: seq<Mark>)
    ensures |marks| == |steps| && forall i :: 0 <= i < |steps| ==> marks[i] == Mark(steps[i], None)
  {
    seq(|steps|, i requires 0 <= i < |steps| => Mark(steps[i], None))
  }

  /** The trace is the pipeline without the skipped stages, up to the step that failed. */
  predicate Follows(trace: seq<Mark>, settings: Settings, plan: seq<Step>, error: Option<Failure>) {
    if error.None? then trace == Passed(Kept(settings, plan))
    else exists k :: 0 <= k < |plan| && FailsAt(trace, settings, plan, k, error)
  }

  predicate FailsAt(trace: seq<Mark>, settings: Settings, plan: seq<Step>, k: nat, error: Option<Failure>)
    requires k < |plan|
  {
    !SkipsStep(settings, plan[k]) && trace == Passed(Kept(settings, plan[..k])) + [Mark(plan[k], error)]
  }

  // ------------------------------------------------------------------------------------------------ hooks

  /** What the handlers of a stage leave behind: the entity as they changed it, and the error of the stage. */
  datatype Handled = Handled(record: Record, error: Option<Failure>)

  /** What the repository does not control: the handlers, the validator, and a statement the database refuses. */
  datatype Hooks = Hooks(stages: Stage -> Record -> Handled, validate: Record -> Option<Failure>, refuse: Record -> Option<Failure>)

  function Handle(hooks: Hooks, stage: Stage, record: Record): Handled {
    hooks.stages(stage)(record)
  }

  /** A stage as the repository runs it: a skipped one does nothing. */
  function Stepped(hooks: Hooks, settings: Settings, stage: Stage, record: Record): Handled {
    if Skips(settings, stage) then Handled(record, None) else Handle(hooks, stage, record)
  }

  /** Stages one after the other, each on the entity that the one before it left, up to the first that fails. */
  function Chained(hooks: Hooks, settings: Settings, stages: seq<Stage>, record: Record): Handled {
    if stages == [] then Handled(record, None)
    else
      var first := Stepped(hooks, settings, stages[0], record);
      if first.error.Some? then first else Chained(hooks, settings, stages[1..], first.record)
  }

  /** The stages in front of a write: the first, validation, and the rest. */
  function Validated(hooks: Hooks, settings: Settings, rest: seq<Stage>, record: Record): Handled {
    var first := Stepped(hooks, settings, BeforeValidate, record);
    if first.error.Some? then first
    else if hooks.validate(first.record).Some? then Handled(first.record, hooks.validate(first.record))
    else Chained(hooks, settings, rest, first.record)
  }

  /** The outcome of a write by the stages in front of it and the write's own error. */
  function Attempted(staged: Handled, error: Option<Failure>): Handled {
    if staged.error.Some? then staged else Handled(staged.record, error)
  }

  /** The error of a statement: the database's, or the one for a row that is not as the statement needs it. */
  function Refusal(hooks: Hooks, record: Record, fits: bool, otherwise: Failure): Option<Failure> {
    if hooks.refuse(record).Some? then hooks.refuse(record) else if fits then None else Some(otherwise)
  }

  const UPDATE_STAGES := [AfterValidate, BeforeSave, BeforeUpdate]
  const CREATE_STAGES := [AfterValidate, BeforeSave, BeforeCreate]

  /** Hooks keep an entity a value of its type. */
  ghost predicate Typed(hooks: Hooks, layout: Layout) {
    forall stage, record :: Fits(layout, record) ==> Fits(layout, Handle(hooks, stage, record).record)
  }

  ghost predicate KeepId(hooks: Hooks) {
    forall stage, record :: Handle(hooks, stage, record).record.base.id == record.base.id
  }

  /** Hooks leave `model.Base` alone. */
  ghost predicate KeepBase(hooks: Hooks) {
    forall stage, record :: Handle(hooks, stage, record).record.base == record.base
  }

  lemma {:induction false} ChainedKeeps(hooks: Hooks, settings: Settings, stages: seq<Stage>, record: Record)
    ensures KeepId(hooks) ==> Chained(hooks, settings, stages, record).record.base.id == record.base.id
    ensures KeepBase(hooks) ==> Chained(hooks, settings, stages, record).record.base == record.base
    decreases |stages|
  {
    if stages != [] {
      ChainedKeeps(hooks, settings, stages[1..], Stepped(hooks, settings, stages[0], record).record);
    }
  }

  lemma ValidatedKeeps(hooks: Hooks, settings: Settings, rest: seq<Stage>, record: Record)
    ensures KeepId(hooks) ==> Validated(hooks, settings, rest, record).record.base.id == record.base.id
    ensures KeepBase(hooks) ==> Validated(hooks, settings, rest, record).record.base == record.base
  {
    ChainedKeeps(hooks, settings, rest, Stepped(hooks, settings, BeforeValidate, record).record);
  }

  // ------------------------------------------------------------------------------------------------- rows

  const DELETED_AT := "deleted_at"

  predicate IsDeleted(row: Row) {
    DELETED_AT in row && row[DELETED_AT] != Nil
  }

  datatype Scope = WithoutDeleted | WithDeleted | OnlyDeleted

  /** `queryForScope`. */
  predicate InScope(row: Row, scope: Scope) {
    match scope
    case WithoutDeleted => !IsDeleted(row)
    case WithDeleted => true
    case OnlyDeleted => IsDeleted(row)
  }

  /** The record that a row scans into. */
  type Scan = Row -> Record

  predicate ReadAs(layout: Layout, row: Row, id: Value, record: Record) {
    && Fits(layout, record) && record.base.id == id
    && Conforms(Schema(layout), Values(record))
    && Scanned(row, Leaves(Schema(layout)), LeafValues(Schema(layout), Values(record)))
  }

  predicate Readable(layout: Layout, scan: Scan, rows: map<Value, Row>) {
    forall id :: id in rows ==> ReadAs(layout, rows[id], id, scan(rows[id]))
  }

  /** The row after the given columns of a record were written to it. */
  function Written(layout: Layout, row: Row, record: Record, columns: seq<string>): Row
    requires Conforms(Schema(layout), Values(record))
  {
    Stored(row, Leaves(Schema(layout)), LeafValues(Schema(layout), Values(record)), columns)
  }

  function Differences(layout: Layout, before: Record, after: Record): map<string, Change>
    requires Conforms(Schema(layout), Values(before)) && Conforms(Schema(layout), Values(after))
  {
    Comparison(Schema(layout), Values(before), Values(after))
  }

  /** There is a row of this id in the scope. */
  predicate Findable(rows: map<Value, Row>, id: Value, scope: Scope) {
    id != Nil && id in rows && InScope(rows[id], scope)
  }

  /** The error of an operation that has no row to work on. */
  function Missing(id: Value): Option<Failure> {
    Some(if id == Nil then InvalidArgument else NotFound)
  }

  /** `copyImmutableBase`. */
  function WithImmutables(base: Base, source: Base): Base {
    base.(id := source.id, createdAt := source.createdAt, createdBy := source.createdBy,
          deletedAt := source.deletedAt, deletedBy := source.deletedBy)
  }

  /** The base of an entity to update, before any hook runs. */
  function UpdatedBase(base: Base, persisted: Base, now: Value, actor: Value): Base {
    WithImmutables(base, persisted).(updatedAt := now, updatedBy := actor)
  }

  const DELETION_COLUMNS := ["deleted_at", "deleted_by", "updated_at", "updated_by"]

  /** One operation on the entity `record`, in a transaction that sees `rows`. */
  class Session {
    const layout: Layout
    const scan: Scan
    const updateColumns: seq<string>
    const allColumns: seq<string>
    const hooks: Hooks
    const settings: Settings
    var rows: map<Value, Row>
    var record: Record
    var changes: map<string, Change>
    var trace: seq<Mark>
    ghost var plan: seq<Step>
    ghost var passed: nat

    ghost predicate Ready()
      reads this
    {
      Typed(hooks, layout) && Readable(layout, scan, rows) && Fits(layout, record)
    }

    /** Every step so far was passed or skipped. */
    ghost predicate OnTrack()
      reads this`trace, this`plan, this`passed
    {
      passed <= |plan| && trace == Passed(Kept(settings, plan[..passed]))
    }

    constructor (layout: Layout, scan: Scan, updateColumns: seq<string>, allColumns: seq<string>, hooks: Hooks,
                 settings: Settings, rows: map<Value, Row>, record: Record)
      ensures this.layout == layout && this.scan == scan && this.updateColumns == updateColumns && this.allColumns == allColumns
      ensures this.hooks == hooks && this.settings == settings && this.rows == rows && this.record == record && trace == []
    {
      this.layout, this.scan, this.updateColumns, this.allColumns := layout, scan, updateColumns, allColumns;
      this.hooks, this.settings, this.rows, this.record := hooks, settings, rows, record;
      changes, trace, plan, passed := map[], [], [], 0;
    }

    ghost method Begin(operation: Operation)
      requires trace == []
      modifies this`plan, this`passed
      ensures OnTrack() && plan == Plan(operation) && passed == 0
    {
      plan, passed := Plan(operation), 0;
      assert Passed(Kept(settings, plan[..0])) == [];
    }

    method Take(step: Step, error: Option<Failure>)
      requires OnTrack() && passed < |plan| && plan[passed] == step && !SkipsStep(settings, step)
      modifies this`trace, this`passed
      ensures error.None? ==> OnTrack() && passed == old(passed) + 1
      ensures error.Some? ==> Follows(trace, settings, plan, error)
    {
      ghost var k := passed;
      trace := trace + [Mark(step, error)];
      assert plan[..k + 1][..k] == plan[..k];
      if error.None? {
        passed := passed + 1;
        assert Passed(Kept(settings, plan[..k + 1])) == Passed(Kept(settings, plan[..k])) + [Mark(step, None)];
      } else {
        assert FailsAt(trace, settings, plan, k, error);
      }
    }

    ghost method Skip(step: Step)
      requires OnTrack() && passed < |plan| && plan[passed] == step && SkipsStep(settings, step)
      modifies this`passed
      ensures OnTrack() && passed == old(passed) + 1
    {
      passed := passed + 1;
      assert plan[..passed][..passed - 1] == plan[..passed - 1];
      assert Kept(settings, plan[..passed]) == Kept(settings, plan[..passed - 1]) + [];
    }

    /** `run`. */
    method Run(stage: Stage) returns (error: Option<Failure>)
      requires OnTrack() && passed < |plan| && plan[passed] == Hook(stage)
      requires Typed(hooks, layout) && Fits(layout, record)
      modifies this`trace, this`passed, this`record
      ensures Fits(layout, record)
      ensures Handled(record, error) == Stepped(hooks, settings, stage, old(record))
      ensures error.None? ==> OnTrack() && passed == old(passed) + 1
      ensures error.Some? ==> Follows(trace, settings, plan, error)
    {
      hide Follows, Passed, Kept, Conforms;
      if Skips(settings, stage) {
        Skip(Hook(stage));
        return None;
      }
      var handled := Handle(hooks, stage, record);
      record := handled.record;
      error := handled.error;
      Take(Hook(stage), error);
    }

    method RunAll(stages: seq<Stage>) returns (error: Option<Failure>)
      requires OnTrack() && passed + |stages| <= |plan|
      requires forall i :: 0 <= i < |stages| ==> plan[passed + i] == Hook(stages[i])
      requires Typed(hooks, layout) && Fits(layout, record)
      modifies this`trace, this`passed, this`record
      ensures Fits(layout, record)
      ensures Handled(record, error) == Chained(hooks, settings, stages, old(record))
      ensures error.None? ==> OnTrack() && passed == old(passed) + |stages|
      ensures error.Some? ==> Follows(trace, settings, plan, error)
    {
      hide Follows, OnTrack, Fits, Stepped;
      assert stages[0..] == stages;
      for i := 0 to |stages|
        invariant OnTrack() && passed == old(passed) + i && Fits(layout, record)
        invariant Chained(hooks, settings, stages, old(record)) == Chained(hooks, settings, stages[i..], record)
      {
        assert stages[i..][0] == stages[i] && stages[i..][1..] == stages[i + 1..];
        error := Run(stages[i]);
        if error.Some? {
          return;
        }
      }
      error := None;
    }

    /** `registerTerminalHooks`, inside a transaction. */
    method RegisterTerminalHooks()
      requires OnTrack() && passed + 2 <= |plan| && plan[passed] == Terminal(AfterCommit) && plan[passed + 1] == Terminal(AfterRollback)
      modifies this`trace, this`passed
      ensures OnTrack() && passed == old(passed) + 2
    {
      if !Skips(settings, AfterCommit) {
        Take(Terminal(AfterCommit), None);
      } else {
        Skip(Terminal(AfterCommit));
      }
      if !Skips(settings, AfterRollback) {
        Take(Terminal(AfterRollback), None);
      } else {
        Skip(Terminal(AfterRollback));
      }
    }

    /** `find`. */
    method FindRecord(id: Value, scope: Scope) returns (error: Option<Failure>, found: Record)
      requires OnTrack() && passed < |plan| && plan[passed] == Find && Readable(layout, scan, rows)
      modifies this`trace, this`passed
      ensures error.None? ==> OnTrack() && passed == old(passed) + 1
      ensures error.None? ==> id in rows && InScope(rows[id], scope) && found == scan(rows[id]) && ReadAs(layout, rows[id], id, found)
      ensures error.Some? ==> error == Some(NotFound) && !(id in rows && InScope(rows[id], scope))
      ensures error.Some? ==> Follows(trace, settings, plan, error)
    {
      hide ReadAs, OnTrack, Follows;
      found := record;
      if id in rows && InScope(rows[id], scope) {
        found := scan(rows[id]);
        error := None;
      } else {
        error := Some(NotFound);
      }
      Take(Find, error);
    }

    /** `refreshChanges`. */
    method RefreshChanges(persisted: Record)
      requires Fits(layout, persisted) && Fits(layout, record)
      modifies this`changes
      ensures Conforms(Schema(layout), Values(persisted)) && Conforms(Schema(layout), Values(record))
      ensures changes == Differences(layout, persisted, record)
    {
      hide Conforms, Leaves, LeafValues, Compared;
      RecordLeaves(layout, persisted);
      RecordLeaves(layout, record);
      var compared := new ChangeSet();
      compared.CompareStruct(Schema(layout), Values(persisted), Values(record));
      changes := compared.values;
    }

    method ValidateRecord() returns (error: Option<Failure>)
      requires OnTrack() && passed < |plan| && plan[passed] == Validate
      modifies this`trace, this`passed
      ensures error == hooks.validate(record)
      ensures error.None? ==> OnTrack() && passed == old(passed) + 1
      ensures error.Some? ==> Follows(trace, settings, plan, error)
    {
      error := hooks.validate(record);
      Take(Validate, error);
    }

    /** The guarded update of some columns of one row, and `ensureAffected`. */
    method UpdateRow(target: Value, scope: Scope, columns: seq<string>) returns (error: Option<Failure>)
      requires OnTrack() && passed < |plan| && plan[passed] == Write && Fits(layout, record)
      modifies this`rows, this`trace, this`passed
      ensures Conforms(Schema(layout), Values(record))
      ensures error.None? ==> OnTrack() && passed == old(passed) + 1
      ensures error == Refusal(hooks, record, target in old(rows) && InScope(old(rows)[target], scope), NotFound)
      ensures error.None? ==> rows == old(rows)[target := Written(layout, old(rows)[target], record, columns)]
      ensures error.Some? ==> rows == old(rows) && Follows(trace, settings, plan, error)
    {
      hide Conforms, Leaves, LeafValues, Stored, Follows, OnTrack;
      RecordLeaves(layout, record);
      error := hooks.refuse(record);
      if error.None? {
        if target in rows && InScope(rows[target], scope) {
          rows := rows[target := Written(layout, rows[target], record, columns)];
        } else {
          error := Some(NotFound);
        }
      }
      Take(Write, error);
    }

    // -------------------------------------------------------------------------------------------- Update

    method RunUpdateBeforeStages(persisted: Record) returns (error: Option<Failure>)
      requires OnTrack() && plan == Plan(Operation.Update) && passed == 4
      requires Typed(hooks, layout) && Fits(layout, record) && Fits(layout, persisted)
      modifies this`trace, this`passed, this`record, this`changes
      ensures Fits(layout, record)
      ensures Handled(record, error) == Validated(hooks, settings, UPDATE_STAGES, old(record))
      ensures error.None? ==> OnTrack() && passed == 9
                              && Conforms(Schema(layout), Values(persisted)) && Conforms(Schema(layout), Values(record))
                              && changes == Differences(layout, persisted, record)
      ensures error.Some? ==> Follows(trace, settings, plan, error)
    {
      hide Fits, Follows, Differences, Conforms, Typed, Passed, Kept, Stepped;
      error := Run(BeforeValidate);
      if error.Some? {
        return;
      }
      RefreshChanges(persisted);
      error := ValidateRecord();
      if error.Some? {
        return;
      }
      var stages := UPDATE_STAGES;
      ghost var validated := record;
      assert stages[0..] == stages;
      for i := 0 to |stages|
        invariant OnTrack() && passed == 6 + i && Fits(layout, record)
        invariant Chained(hooks, settings, stages, validated) == Chained(hooks, settings, stages[i..], record)
        invariant Conforms(Schema(layout), Values(persisted)) && Conforms(Schema(layout), Values(record))
        invariant changes == Differences(layout, persisted, record)
      {
        assert stages[i..][0] == stages[i] && stages[i..][1..] == stages[i + 1..];
        error := Run(stages[i]);
        if error.Some? {
          return;
        }
        RefreshChanges(persisted);
      }
      error := None;
    }

    /** The first part of an update: what was found, and the entity with the found immutable fields. */
    method FindForUpdate(now: Value, actor: Value) returns (error: Option<Failure>, persisted: Record)
      requires Ready() && OnTrack() && plan == Plan(Operation.Update) && passed == 0
      modifies this`trace, this`passed, this`record, this`changes
      ensures Fits(layout, record) && Fits(layout, persisted) && record.base.id == old(record.base.id)
      ensures error.None? ==> OnTrack() && passed == 4
      ensures error == if Findable(rows, old(record.base.id), WithoutDeleted) then None else Missing(old(record.base.id))
      ensures error.None? ==> persisted == scan(rows[old(record.base.id)])
                              && record == old(record).(base := UpdatedBase(old(record.base), persisted.base, now, actor))
      ensures error.Some? ==> Follows(trace, settings, plan, error)
    {
      hide Follows, Differences, Conforms, Typed, KeepId, KeepBase, Passed, Kept, Fits, OnTrack, ReadAs;
      assert plan[0] == Check && plan[1] == Find && plan[2] == Terminal(AfterCommit) && plan[3] == Terminal(AfterRollback);
      hide Plan;
      persisted := record;
      var id := record.base.id;
      if id == Nil {
        error := Some(InvalidArgument);
        Take(Check, error);
        return;
      }
      Take(Check, None);
      error, persisted := FindRecord(id, WithoutDeleted);
      if error.Some? {
        persisted := record;
        return;
      }
      ReadAsFits(layout, rows[id], id, persisted);
      record := record.(base := WithImmutables(record.base, persisted.base));
      record := record.(base := record.base.(updatedAt := now, updatedBy := actor));
      SameFit(layout, old(record), record);
      RefreshChanges(persisted);
      RegisterTerminalHooks();
    }

    /** `written` is the entity when its row is written; later stages can still change it. */
    method Update(now: Value, actor: Value) returns (error: Option<Failure>, ghost written: Option<Record>)
      requires Ready() && trace == []
      modifies this
      ensures Follows(trace, settings, Plan(Operation.Update), error)
      ensures error.None? ==> written.Some?
      ensures written.None? ==> rows == old(rows)
      ensures written.Some? ==> UpdateWrote(layout, scan, updateColumns, old(rows), old(record.base.id), rows, changes, written.value)
      ensures !Findable(old(rows), old(record.base.id), WithoutDeleted) ==>
                written.None? && error == Missing(old(record.base.id))
      ensures Findable(old(rows), old(record.base.id), WithoutDeleted) ==>
                var prepared := Prepared(scan, old(rows), old(record), now, actor);
                var staged := Validated(hooks, settings, UPDATE_STAGES, prepared);
                var attempt := Attempted(staged, UpdateError(hooks, old(rows), staged.record));
                if attempt.error.None? then written == Some(attempt.record) else written.None? && Handled(record, error) == attempt
      ensures written.Some? ==> Handled(record, error) == Chained(hooks, settings, [AfterUpdate, AfterSave], written.value)
      ensures written.Some? && KeepId(hooks) ==> written.value.base.id == old(record.base.id)
      ensures written.Some? && KeepBase(hooks) ==>
                written.value.base == UpdatedBase(old(record.base), scan(old(rows)[old(record.base.id)]).base, now, actor)
    {
      hide Validated, Chained;
      hide Follows, Differences, Conforms, Typed, KeepId, KeepBase, Passed, Kept, Fits, OnTrack, Readable, Written, Schema, Values;
      Begin(Operation.Update);
      written := None;
      var persisted;
      error, persisted := FindForUpdate(now, actor);
      if error.Some? {
        return;
      }
      ValidatedKeeps(hooks, settings, UPDATE_STAGES, record);
      error := RunUpdateBeforeStages(persisted);
      if error.Some? {
        return;
      }
      error := UpdateRow(record.base.id, WithoutDeleted, updateColumns);
      if error.Some? {
        return;
      }
      written := Some(record);
      assert UpdateWrote(layout, scan, updateColumns, old(rows), old(record.base.id), rows, changes, record);
      error := RunAll([AfterUpdate, AfterSave]);
      FinishedFollows();
    }

    // ----------------------------------------------------------------------------- Delete and Restore

    method FindForDeletion(id: Value, scope: Scope) returns (error: Option<Failure>)
      requires Ready() && OnTrack() && passed == 0 && |plan| > 2 && plan[0] == Check && plan[1] == Find
      modifies this`trace, this`passed, this`record
      ensures error.None? ==> OnTrack() && passed == 2
      ensures error == if Findable(rows, id, scope) then None else Missing(id)
      ensures error.None? ==> record == scan(rows[id]) && Fits(layout, record)
      ensures error.Some? ==> Follows(trace, settings, plan, error)
    {
      hide Follows, Conforms, Typed, KeepId, KeepBase, Passed, Kept, Fits, OnTrack, ReadAs;
      Take(Check, if id == Nil then Some(InvalidArgument) else None);
      if id == Nil {
        return Some(InvalidArgument);
      }
      var found;
      error, found := FindRecord(id, scope);
      if error.Some? {
        return;
      }
      ReadAsFits(layout, rows[id], id, found);
      record := found;
    }

    /** `mutateDeletion`. */
    method MutateDeletion(id: Value, operation: Operation, now: Value, actor: Value)
      returns (error: Option<Failure>, ghost written: Option<Record>)
      requires Ready() && trace == [] && (operation.Delete? || operation.Restore?)
      modifies this
      ensures Follows(trace, settings, Plan(operation), error)
      ensures error.None? ==> written.Some?
      ensures written.None? ==> rows == old(rows)
      ensures !Findable(old(rows), id, ScopeOf(operation)) ==> written.None? && error == Missing(id)
      ensures Findable(old(rows), id, ScopeOf(operation)) ==>
                var found := scan(old(rows)[id]);
                var marked := found.(base := DeletionBase(operation, found.base, now, actor));
                var staged := Stepped(hooks, settings, BeforeOf(operation), marked);
                var attempt := Attempted(staged, hooks.refuse(staged.record));
                if attempt.error.None? then written == Some(attempt.record) else written.None? && Handled(record, error) == attempt
      ensures written.Some? ==> Handled(record, error) == Stepped(hooks, settings, AfterOf(operation), written.value)
      ensures written.Some? ==> DeletionWrote(layout, scan, operation, now, actor, old(rows), id, rows, changes, written.value)
      ensures written.Some? && KeepBase(hooks) ==>
                written.value.base == DeletionBase(operation, scan(old(rows)[id]).base, now, actor)
    {
      hide Follows, Differences, Conforms, Typed, KeepId, KeepBase, Passed, Kept, Fits, OnTrack, Readable, Written, Schema, Values;
      Begin(operation);
      written := None;
      assert |plan| == 7 && plan[..4] == [Check, Find, Terminal(AfterCommit), Terminal(AfterRollback)];
      assert plan[4] == Hook(BeforeOf(operation)) && plan[5] == Write && plan[6] == Hook(AfterOf(operation));
      hide Plan, BeforeOf, AfterOf, ScopeOf, DeletionBase, Stepped;
      error := MarkRecord(id, operation, now, actor);
      if error.Some? {
        return;
      }
      error, written := RunDeletion(id, ScopeOf(operation), BeforeOf(operation), AfterOf(operation));
    }

    /** The first part of a deletion or restoration: the entity that was found, marked, and the changes that makes. */
    method MarkRecord(id: Value, operation: Operation, now: Value, actor: Value) returns (error: Option<Failure>)
      requires Ready() && OnTrack() && passed == 0 && |plan| == 7
      requires plan[..4] == [Check, Find, Terminal(AfterCommit), Terminal(AfterRollback)]
      modifies this`trace, this`passed, this`record, this`changes
      ensures error == if Findable(rows, id, ScopeOf(operation)) then None else Missing(id)
      ensures error.None? ==> OnTrack() && passed == 4 && Fits(layout, record)
      ensures error.None? ==>
                var found := scan(rows[id]);
                record == found.(base := DeletionBase(operation, found.base, now, actor))
                && Conforms(Schema(layout), Values(found)) && Conforms(Schema(layout), Values(record))
                && changes == Differences(layout, found, record)
      ensures error.Some? ==> Follows(trace, settings, plan, error)
    {
      hide Follows, Differences, Conforms, Typed, KeepId, KeepBase, Passed, Kept, Fits, OnTrack, Readable, Schema, Values, DeletionBase;
      assert plan[0] == plan[..4][0] && plan[1] == plan[..4][1] && plan[2] == plan[..4][2] && plan[3] == plan[..4][3];
      error := FindForDeletion(id, ScopeOf(operation));
      if error.Some? {
        return;
      }
      var persisted := record;
      record := record.(base := DeletionBase(operation, record.base, now, actor));
      SameFit(layout, persisted, record);
      RefreshChanges(persisted);
      RegisterTerminalHooks();
    }

    /** The stages and the statement of a deletion or restoration. */
    method RunDeletion(id: Value, scope: Scope, before: Stage, after: Stage)
      returns (error: Option<Failure>, ghost written: Option<Record>)
      requires OnTrack() && passed == 4 && |plan| == 7 && plan[4] == Hook(before) && plan[5] == Write && plan[6] == Hook(after)
      requires Typed(hooks, layout) && Fits(layout, record)
      modifies this`trace, this`passed, this`record, this`rows
      ensures Follows(trace, settings, plan, error)
      ensures error.None? ==> written.Some?
      ensures written.None? ==> rows == old(rows)
      ensures var staged := Stepped(hooks, settings, before, old(record));
              var attempt := Attempted(staged, Refusal(hooks, staged.record, id in old(rows) && InScope(old(rows)[id], scope), NotFound));
              if attempt.error.None? then written == Some(attempt.record) else written.None? && Handled(record, error) == attempt
      ensures written.Some? ==> Handled(record, error) == Stepped(hooks, settings, after, written.value)
      ensures written.Some? ==> Fits(layout, written.value)
      ensures written.Some? ==> Conforms(Schema(layout), Values(written.value))
                                && rows == old(rows)[id := Written(layout, old(rows)[id], written.value, DELETION_COLUMNS)]
      ensures written.Some? && KeepBase(hooks) ==> written.value.base == old(record.base)
    {
      hide Follows, Conforms, Typed, KeepId, Passed, Kept, Fits, OnTrack, Written, Schema, Values;
      written := None;
      error := Run(before);
      if error.Some? {
        return;
      }
      error := UpdateRow(id, scope, DELETION_COLUMNS);
      if error.Some? {
        return;
      }
      written := Some(record);
      error := Run(after);
      FinishedFollows();
    }

    // --------------------------------------------------------------------------------------- ForceDelete

    method ForceDelete(id: Value) returns (error: Option<Failure>, ghost deleted: bool)
      requires Ready() && trace == []
      modifies this
      ensures Follows(trace, settings, Plan(Operation.ForceDelete), error)
      ensures error.None? ==> deleted
      ensures deleted ==> rows == old(rows) - {id}
      ensures !Findable(old(rows), id, WithDeleted) ==> !deleted && error == Missing(id)
      ensures Findable(old(rows), id, WithDeleted) ==>
                var staged := Stepped(hooks, settings, BeforeForceDelete, scan(old(rows)[id]));
                var attempt := Attempted(staged, hooks.refuse(staged.record));
                (deleted <==> attempt.error.None?)
                && Handled(record, error) == if deleted then Stepped(hooks, settings, AfterForceDelete, staged.record) else attempt
      ensures !deleted ==> rows == old(rows)
    {
      hide Follows, Conforms, Typed, KeepId, KeepBase, Passed, Kept, Fits, Readable, OnTrack, Stepped;
      Begin(Operation.ForceDelete);
      assert |plan| == 7 && plan[0] == Check && plan[1] == Find && plan[2] == Terminal(AfterCommit) && plan[3] == Terminal(AfterRollback);
      assert plan[4] == Hook(BeforeForceDelete) && plan[5] == Write && plan[6] == Hook(AfterForceDelete);
      hide Plan;
      deleted := false;
      error := FindForDeletion(id, WithDeleted);
      if error.Some? {
        return;
      }
      RegisterTerminalHooks();
      error := Run(BeforeForceDelete);
      if error.Some? {
        return;
      }
      error := hooks.refuse(record);
      Take(Write, error);
      if error.Some? {
        return;
      }
      rows := rows - {id};
      deleted := true;
      error := Run(AfterForceDelete);
      FinishedFollows();
    }

    // -------------------------------------------------------------------------------------------- Create

    method Create(generated: Option<Value>, now: Value, actor: Value) returns (error: Option<Failure>, ghost written: Option<Record>)
      requires Typed(hooks, layout) && Fits(layout, record) && trace == []
      modifies this
      ensures Follows(trace, settings, Plan(Operation.Create), error)
      ensures error.None? ==> written.Some?
      ensures written.None? ==> rows == old(rows)
      ensures written.Some? ==> Fits(layout, written.value) && Conforms(Schema(layout), Values(written.value))
      ensures written.Some? ==> written.value.base.id !in old(rows)
                                && rows == old(rows)[written.value.base.id := Written(layout, map[], written.value, allColumns)]
      ensures var prepared := old(record).(base := CreatedBase(old(record.base), generated, now, actor));
              var staged := Validated(hooks, settings, CREATE_STAGES, prepared);
              var attempt := Attempted(staged, CreateError(hooks, old(rows), staged.record));
              if old(record.base.id) == Nil && generated.None? then written.None? && error == Some(NoId)
              else if attempt.error.None? then written == Some(attempt.record)
              else written.None? && Handled(record, error) == attempt
      ensures written.Some? ==> Handled(record, error) == Chained(hooks, settings, [AfterCreate, AfterSave], written.value)
      ensures written.Some? && KeepBase(hooks) ==> written.value.base == CreatedBase(old(record.base), generated, now, actor)
    {
      hide Validated, Chained;
      hide Follows, Conforms, Typed, KeepId, KeepBase, Passed, Kept, Fits, OnTrack, Written, Schema, Values;
      Begin(Operation.Create);
      written := None;
      error := PrepareCreate(generated, now, actor);
      if error.Some? {
        return;
      }
      SameFit(layout, old(record), record);
      ValidatedKeeps(hooks, settings, CREATE_STAGES, record);
      RegisterTerminalHooks();
      error, written := RunCreate();
    }

    method PrepareCreate(generated: Option<Value>, now: Value, actor: Value) returns (error: Option<Failure>)
      requires OnTrack() && passed == 0 && |plan| > 0 && plan[0] == NewId
      modifies this`trace, this`passed, this`record
      ensures error.None? ==> OnTrack() && passed == 1
      ensures error == if old(record.base.id) == Nil && generated.None? then Some(NoId) else None
      ensures error.None? ==> record == old(record).(base := CreatedBase(old(record.base), generated, now, actor))
      ensures error.Some? ==> Follows(trace, settings, plan, error)
    {
      hide Follows, OnTrack;
      var base := record.base;
      if base.id == Nil {
        error := if generated.None? then Some(NoId) else None;
        Take(NewId, error);
        if generated.None? {
          return;
        }
        base := base.(id := generated.value);
      } else {
        Take(NewId, None);
      }
      error := None;
      if base.metadata == Nil {
        base := base.(metadata := Map(map[]));
      }
      base := base.(createdAt := now);
      base := base.(updatedAt := now);
      base := base.(createdBy := actor);
      base := base.(updatedBy := actor);
      record := record.(base := base);
    }

    method RunCreate() returns (error: Option<Failure>, ghost written: Option<Record>)
      requires OnTrack() && plan == Plan(Operation.Create) && passed == 3 && Typed(hooks, layout) && Fits(layout, record)
      modifies this`trace, this`passed, this`record, this`rows
      ensures Follows(trace, settings, plan, error)
      ensures error.None? ==> written.Some?
      ensures written.None? ==> rows == old(rows)
      ensures written.Some? ==> Fits(layout, written.value) && Conforms(Schema(layout), Values(written.value))
      ensures written.Some? ==> written.value.base.id !in old(rows)
                                && rows == old(rows)[written.value.base.id := Written(layout, map[], written.value, allColumns)]
      ensures var staged := Validated(hooks, settings, CREATE_STAGES, old(record));
              var attempt := Attempted(staged, CreateError(hooks, old(rows), staged.record));
              if attempt.error.None? then written == Some(attempt.record) else written.None? && Handled(record, error) == attempt
      ensures written.Some? ==> Handled(record, error) == Chained(hooks, settings, [AfterCreate, AfterSave], written.value)
    {
      hide Follows, Conforms, Typed, KeepId, KeepBase, Passed, Kept, Fits, OnTrack, Written, Schema, Values, Stepped, Chained;
      written := None;
      error := Run(BeforeValidate);
      if error.Some? {
        return;
      }
      error := ValidateRecord();
      if error.Some? {
        return;
      }
      error := RunAll(CREATE_STAGES);
      if error.Some? {
        return;
      }
      error := InsertRow();
      if error.Some? {
        return;
      }
      written := Some(record);
      error := RunAll([AfterCreate, AfterSave]);
      FinishedFollows();
    }

    method InsertRow() returns (error: Option<Failure>)
      requires OnTrack() && passed < |plan| && plan[passed] == Write && Fits(layout, record)
      modifies this`rows, this`trace, this`passed
      ensures Conforms(Schema(layout), Values(record))
      ensures error.None? ==> OnTrack() && passed == old(passed) + 1
      ensures error == CreateError(hooks, old(rows), record)
      ensures error.None? ==> rows == old(rows)[record.base.id := Written(layout, map[], record, allColumns)]
      ensures error.Some? ==> rows == old(rows) && Follows(trace, settings, plan, error)
    {
      hide Conforms, Leaves, LeafValues, Stored, Follows, OnTrack;
      RecordLeaves(layout, record);
      error := hooks.refuse(record);
      if error.None? {
        if record.base.id in rows {
          error := Some(Conflict);
        } else {
          rows := rows[record.base.id := Written(layout, map[], record, allColumns)];
        }
      }
      Take(Write, error);
    }

    lemma FinishedFollows()
      ensures OnTrack() && passed == |plan| ==> Follows(trace, settings, plan, None)
    {
      if OnTrack() && passed == |plan| {
        assert plan[..passed] == plan;
      }
    }
  }

  /** The entity of an update before any hook runs. */
  function Prepared(scan: Scan, rows: map<Value, Row>, record: Record, now: Value, actor: Value): Record
    requires record.base.id in rows
  {
    record.(base := UpdatedBase(record.base, scan(rows[record.base.id]).base, now, actor))
  }

  /** The error of writing an entity to its row. */
  function UpdateError(hooks: Hooks, rows: map<Value, Row>, record: Record): Option<Failure> {
    Refusal(hooks, record, record.base.id in rows && InScope(rows[record.base.id], WithoutDeleted), NotFound)
  }

  /** The error of inserting an entity. */
  function CreateError(hooks: Hooks, rows: map<Value, Row>, record: Record): Option<Failure> {
    Refusal(hooks, record, record.base.id !in rows, Conflict)
  }

  function ScopeOf(operation: Operation): Scope {
    if operation.Restore? then OnlyDeleted else WithoutDeleted
  }

  function BeforeOf(operation: Operation): Stage {
    if operation.Restore? then BeforeRestore else BeforeDelete
  }

  function AfterOf(operation: Operation): Stage {
    if operation.Restore? then AfterRestore else AfterDelete
  }

  /** The base that `mutateDeletion` writes. */
  function DeletionBase(operation: Operation, base: Base, now: Value, actor: Value): Base {
    if operation.Delete? then base.(updatedAt := now, updatedBy := actor, deletedAt := Pointer(now), deletedBy := actor)
    else base.(updatedAt := now, updatedBy := actor, deletedAt := Nil, deletedBy := Nil)
  }

  /** The base that `Create` gives a new entity. */
  function CreatedBase(base: Base, generated: Option<Value>, now: Value, actor: Value): Base {
    base.(id := if base.id == Nil && generated.Some? then generated.value else base.id,
          metadata := if base.metadata == Nil then Map(map[]) else base.metadata,
          createdAt := now, updatedAt := now, createdBy := actor, updatedBy := actor)
  }

  /** A deletion wrote its four columns to the row it found in scope; the recorded changes are those it made before
      any hook ran. */
  predicate DeletionWrote(layout: Layout, scan: Scan, operation: Operation, now: Value, actor: Value, before: map<Value, Row>,
                          id: Value, after: map<Value, Row>, changes: map<string, Change>, written: Record)
  {
    && id in before && InScope(before[id], if operation.Restore? then OnlyDeleted else WithoutDeleted)
    && Fits(layout, written) && Conforms(Schema(layout), Values(written))
    && after == before[id := Written(layout, before[id], written, DELETION_COLUMNS)]
    && var found := scan(before[id]);
       var marked := found.(base := DeletionBase(operation, found.base, now, actor));
       Conforms(Schema(layout), Values(found)) && Conforms(Schema(layout), Values(marked))
       && changes == Differences(layout, found, marked)
  }

  lemma SameFit(layout: Layout, before: Record, after: Record)
    requires Fits(layout, before) && after.before == before.before && after.after == before.after
    ensures Fits(layout, after)
  {
  }

  lemma ReadAsFits(layout: Layout, row: Row, id: Value, record: Record)
    requires ReadAs(layout, row, id, record)
    ensures Fits(layout, record) && record.base.id == id
  {
  }

  /** The update wrote the update columns of `written` to one live row, the one its id names, and the recorded changes
      are its differences from the row that was found. */
  predicate UpdateWrote(layout: Layout, scan: Scan, columns: seq<string>, before: map<Value, Row>, id: Value,
                        after: map<Value, Row>, changes: map<string, Change>, written: Record)
  {
    var target := written.base.id;
    && id in before && !IsDeleted(before[id]) && target in before && !IsDeleted(before[target])
    && Fits(layout, scan(before[id])) && Conforms(Schema(layout), Values(scan(before[id])))
    && Fits(layout, written) && Conforms(Schema(layout), Values(written))
    && after == before[target := Written(layout, before[target], written, columns)]
    && changes == Differences(layout, scan(before[id]), written)
  }
}
