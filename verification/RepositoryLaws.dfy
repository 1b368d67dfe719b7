/** Laws of the repository's operations: what a trace says, and what an update writes. */
module RepositoryLaws {
  import opened Text
  import opened ModelSchema
  import opened Entities
  import opened Lifecycle
  import opened Changes
  import opened Repository

  // ---------------------------------------------------------------------------------------------- traces

  lemma KeptStep(settings: Settings, plan: seq<Step>, k: nat)
    requires k < |plan|
    ensures Kept(settings, plan[..k + 1]) == Kept(settings, plan[..k]) + (if SkipsStep(settings, plan[k]) then [] else [plan[k]])
  {
    assert plan[..k + 1][..k] == plan[..k];
  }

  lemma {:induction false} KeptGrows(settings: Settings, plan: seq<Step>, a: nat, b: nat)
    requires a <= b <= |plan|
    ensures |Kept(settings, plan[..a])| <= |Kept(settings, plan[..b])|
    ensures Kept(settings, plan[..b])[..|Kept(settings, plan[..a])|] == Kept(settings, plan[..a])
    decreases b - a
  {
    hide SkipsStep, Kept;
    if a < b {
      KeptGrows(settings, plan, a, b - 1);
      KeptStep(settings, plan, b - 1);
    }
  }

  /** The trace is a prefix of the pipeline without the skipped stages: every step passed but the last one of a failed
      operation, and a successful operation took them all. */
  lemma TraceIsPrefix(trace: seq<Mark>, settings: Settings, plan: seq<Step>, error: Option<Failure>)
    requires Follows(trace, settings, plan, error)
    ensures |trace| <= |Kept(settings, plan)|
    ensures forall i :: 0 <= i < |trace| ==> trace[i].step == Kept(settings, plan)[i]
    ensures forall i :: 0 <= i < |trace| && (error.None? || i < |trace| - 1) ==> trace[i].error.None?
    ensures error.None? ==> |trace| == |Kept(settings, plan)|
    ensures error.Some? ==> trace != [] && trace[|trace| - 1].error == error
  {
    hide SkipsStep, Kept;
    assert plan[..|plan|] == plan;
    if error.Some? {
      var k :| 0 <= k < |plan| && FailsAt(trace, settings, plan, k, error);
      FailedPrefix(trace, settings, plan, k, error);
    }
  }

  lemma FailedPrefix(trace: seq<Mark>, settings: Settings, plan: seq<Step>, k: nat, error: Option<Failure>)
    requires k < |plan| && FailsAt(trace, settings, plan, k, error)
    ensures |trace| == |Kept(settings, plan[..k + 1])| <= |Kept(settings, plan)|
    ensures forall i :: 0 <= i < |trace| ==> trace[i].step == Kept(settings, plan)[i]
    ensures forall i :: 0 <= i < |trace| - 1 ==> trace[i].error.None?
    ensures trace[|trace| - 1].error == error
  {
    hide SkipsStep, Kept;
    KeptStep(settings, plan, k);
    KeptGrows(settings, plan, k + 1, |plan|);
    assert plan[..|plan|] == plan;
    var full, now := Kept(settings, plan), Kept(settings, plan[..k + 1]);
    forall i | 0 <= i < |trace| ensures trace[i].step == full[i] {
      assert full[..|now|][i] == now[i];
    }
  }

  predicate Distinct(plan: seq<Step>) {
    forall i, j :: 0 <= i < j < |plan| ==> plan[i] != plan[j]
  }

  lemma CreateIsDistinct()
    ensures Distinct(Plan(Create))
  {
  }

  lemma UpdateIsDistinct()
    ensures Distinct(Plan(Update))
  {
  }

  lemma PlansAreDistinct(operation: Operation)
    ensures Distinct(Plan(operation))
  {
    if operation.Create? {
      CreateIsDistinct();
    } else if operation.Update? {
      UpdateIsDistinct();
    }
  }

  lemma {:induction false} KeptComesFrom(settings: Settings, plan: seq<Step>, n: nat, i: nat) returns (k: nat)
    requires n <= |plan| && i < |Kept(settings, plan[..n])|
    ensures k < n && plan[k] == Kept(settings, plan[..n])[i] && i == |Kept(settings, plan[..k])| && !SkipsStep(settings, plan[k])
    decreases n
  {
    hide SkipsStep, Kept;
    NothingKept(settings);
    assert plan[..0] == [];
    k := 0;
    if n > 0 {
      KeptStep(settings, plan, n - 1);
      if i < |Kept(settings, plan[..n - 1])| {
        k := KeptComesFrom(settings, plan, n - 1, i);
      } else {
        k := n - 1;
      }
    }
  }

  lemma NothingKept(settings: Settings)
    ensures Kept(settings, []) == []
  {
  }

  /** A step is taken only after every earlier step that is not skipped has succeeded. In particular the write comes
      after all before-stages and, whatever is skipped, after validation. */
  lemma EarlierStepsPassed(trace: seq<Mark>, settings: Settings, operation: Operation, error: Option<Failure>, j: nat, a: nat, b: nat)
    requires Follows(trace, settings, Plan(operation), error)
    requires j < |trace| && a < b < |Plan(operation)| && trace[j].step == Plan(operation)[b] && !SkipsStep(settings, Plan(operation)[a])
    ensures exists i :: 0 <= i < j && trace[i] == Mark(Plan(operation)[a], None)
  {
    hide SkipsStep, Kept, Plan, Follows;
    var plan := Plan(operation);
    PlansAreDistinct(operation);
    TraceIsPrefix(trace, settings, plan, error);
    assert plan[..|plan|] == plan;
    var k := KeptComesFrom(settings, plan, |plan|, j);
    assert k == b;
    KeptStep(settings, plan, a);
    KeptGrows(settings, plan, a + 1, b);
    KeptGrows(settings, plan, a + 1, |plan|);
    var i := |Kept(settings, plan[..a])|;
    assert i < j;
    assert Kept(settings, plan)[..i + 1][i] == plan[a];
    assert trace[i] == Mark(plan[a], None);
  }

  /** A skipped stage never appears in a trace. */
  lemma SkippedStepsAreAbsent(trace: seq<Mark>, settings: Settings, plan: seq<Step>, error: Option<Failure>)
    requires Follows(trace, settings, plan, error)
    ensures forall i :: 0 <= i < |trace| ==> trace[i].step in plan && !SkipsStep(settings, trace[i].step)
  {
    hide SkipsStep, Kept, Follows;
    TraceIsPrefix(trace, settings, plan, error);
    assert plan[..|plan|] == plan;
    forall i | 0 <= i < |trace| ensures trace[i].step in plan && !SkipsStep(settings, trace[i].step) {
      var k := KeptComesFrom(settings, plan, |plan|, i);
    }
  }

  // --------------------------------------------------------------------------------------------- updates

  /** Field names and column names of a model are unique. */
  predicate Unambiguous(layout: Layout) {
    DistinctNames(Leaves(Schema(layout))) && DistinctColumns(Leaves(Schema(layout)))
  }

  /** At the end of an update by hooks that keep the id, the recorded changes are what was written: the new row is the
      found row patched with them, the immutable columns are as before, and no other row changed. */
  lemma UpdateWritesItsChanges(layout: Layout, scan: Scan, columns: seq<string>, before: map<Value, Row>, id: Value,
                               after: map<Value, Row>, changes: map<string, Change>, written: Record)
    requires UpdateWrote(layout, scan, columns, before, id, after, changes, written) && written.base.id == id
    requires Readable(layout, scan, before) && Unambiguous(layout)
    requires AreUpdateColumns(columns, Collected(Leaves(Schema(layout)), map[]))
    ensures after.Keys == before.Keys && forall other :: other in before && other != id ==> after[other] == before[other]
    ensures IsPatch(before[id], changes, columns, after[id])
    ensures forall column :: column in IMMUTABLE && column in before[id] ==> after[id][column] == before[id][column]
  {
    hide Schema, Values, Leaves, LeafValues, Conforms, Compared, Stored, Collected, IsPatch, IMMUTABLE, AreUpdateColumns,
      DistinctNames, DistinctColumns, Scanned, Fits, IsDeleted;
    assert ReadAs(layout, before[id], id, scan(before[id]));
    ChangesDescribeTheWrite(before[id], Leaves(Schema(layout)), LeafValues(Schema(layout), Values(scan(before[id]))),
                            LeafValues(Schema(layout), Values(written)), columns);
    assert IsPatch(before[id], changes, columns, after[id]);
  }

  /** Field by field: a change to an update column is recorded exactly when the write changes the row. */
  lemma ChangedExactlyWhenWritten(layout: Layout, scan: Scan, columns: seq<string>, before: map<Value, Row>, id: Value,
                                  after: map<Value, Row>, changes: map<string, Change>, written: Record, i: nat)
    requires UpdateWrote(layout, scan, columns, before, id, after, changes, written) && written.base.id == id
    requires Readable(layout, scan, before) && Unambiguous(layout)
    requires i < |Leaves(Schema(layout))| && IsColumn(Leaves(Schema(layout))[i]) && ColumnOf(Leaves(Schema(layout))[i]) in columns
    ensures var leaf := Leaves(Schema(layout))[i];
            var column := ColumnOf(leaf);
            column in before[id] && column in after[id]
            && (leaf.name in changes <==> before[id][column] != after[id][column])
            && (leaf.name in changes ==> changes[leaf.name].before == before[id][column] && changes[leaf.name].after == after[id][column])
  {
    hide Schema, Values, Leaves, LeafValues, Conforms, Compared, Stored, Collected, IMMUTABLE, AreUpdateColumns,
      DistinctNames, DistinctColumns, Fits, IsDeleted, IsColumn, ColumnOf, Normalized;
    assert ReadAs(layout, before[id], id, scan(before[id]));
    var leaves := Leaves(Schema(layout));
    var olds, news := LeafValues(Schema(layout), Values(scan(before[id]))), LeafValues(Schema(layout), Values(written));
    ChangeOfColumn(before[id], leaves, olds, news, columns, i);
    LeafIsRecorded(leaves, olds, news, i);
  }

  // -------------------------------------------------------------------- changes to the immutable fields

  const ID: nat := 0
  const CREATED_AT: nat := 4
  const DELETED_AT_FIELD: nat := 6
  const CREATED_BY: nat := 7
  const DELETED_BY: nat := 9

  predicate IsImmutableField(k: nat) {
    k == ID || k == CREATED_AT || k == DELETED_AT_FIELD || k == CREATED_BY || k == DELETED_BY
  }

  /** The immutable fields hold the same values. */
  predicate SameImmutables(a: Base, b: Base) {
    forall k: nat :: k < 10 && IsImmutableField(k) ==> Normalized(BaseValues(a)[k]) == Normalized(BaseValues(b)[k])
  }

  lemma BaseColumn(k: nat)
    requires k < 10
    ensures |BASE_MEMBERS| == 10 && (ColumnOf(BASE_MEMBERS[k]) in IMMUTABLE <==> IsImmutableField(k))
  {
    hide SnakeCase;
  }

  lemma ImmutableColumn(column: string) returns (k: nat)
    requires column in IMMUTABLE
    ensures k < 10 && |BASE_MEMBERS| == 10 && IsImmutableField(k) && ColumnOf(BASE_MEMBERS[k]) == column
  {
    hide SnakeCase;
    if column == "id" {
      k := ID;
    } else if column == "created_at" {
      k := CREATED_AT;
    } else if column == "created_by" {
      k := CREATED_BY;
    } else if column == "deleted_at" {
      k := DELETED_AT_FIELD;
    } else {
      k := DELETED_BY;
    }
  }

  /** Where the fields of the base are among the leaves. */
  lemma BaseLeafAt(layout: Layout, record: Record, k: nat)
    requires Fits(layout, record) && k < 10
    ensures Conforms(Schema(layout), Values(record)) && |BASE_MEMBERS| == 10
    ensures var i := |Leaves(layout.before)| + k;
            i < |Leaves(Schema(layout))| && Leaves(Schema(layout))[i] == BASE_MEMBERS[k]
            && LeafValues(Schema(layout), Values(record))[i] == BaseValues(record.base)[k]
  {
    hide Leaves, LeafValues, Conforms, Schema, Values;
    RecordLeaves(layout, record);
    var values := LeafValues(layout.before, record.before);
    assert |values| == |Leaves(layout.before)|;
  }

  /** Changes to immutable fields are recorded, though never written, exactly when hooks changed them: with hooks that
      leave them alone every recorded change to a column of the row is one of the write. */
  lemma ImmutableChangesAreHookChanges(layout: Layout, found: Record, written: Record)
    requires Fits(layout, found) && Fits(layout, written) && Unambiguous(layout)
    requires Conforms(Schema(layout), Values(found)) && Conforms(Schema(layout), Values(written))
    ensures (forall name :: name in Differences(layout, found, written) ==> Differences(layout, found, written)[name].column !in IMMUTABLE)
            <==> SameImmutables(found.base, written.base)
  {
    hide Leaves, LeafValues, Conforms, Schema, Values, Compared, BASE_MEMBERS, BaseValues, ColumnOf, Normalized, IMMUTABLE,
      Fits, IsImmutableField;
    var leaves := Leaves(Schema(layout));
    var olds, news := LeafValues(Schema(layout), Values(found)), LeafValues(Schema(layout), Values(written));
    var changes := Differences(layout, found, written);
    if SameImmutables(found.base, written.base) {
      forall name | name in changes ensures changes[name].column !in IMMUTABLE {
        var i := RecordedIsLeaf(leaves, olds, news, name);
        if ColumnOf(leaves[i]) in IMMUTABLE {
          var k := ImmutableColumn(ColumnOf(leaves[i]));
          BaseLeafAt(layout, found, k);
          BaseLeafAt(layout, written, k);
          assert false;
        }
      }
    }
    if forall name :: name in changes ==> changes[name].column !in IMMUTABLE {
      BaseSizes(found.base, written.base);
      forall k: nat | k < 10 && IsImmutableField(k)
        ensures Normalized(BaseValues(found.base)[k]) == Normalized(BaseValues(written.base)[k])
      {
        BaseLeafAt(layout, found, k);
        BaseLeafAt(layout, written, k);
        BaseColumn(k);
        LeafIsRecorded(leaves, olds, news, |Leaves(layout.before)| + k);
      }
    }
  }

  /** An update whose hooks leave the base alone records no change to an immutable column. */
  lemma QuietHooksChangeNoImmutables(layout: Layout, found: Record, written: Record, given: Base, now: Value, actor: Value)
    requires Fits(layout, found) && Fits(layout, written) && Unambiguous(layout)
    requires Conforms(Schema(layout), Values(found)) && Conforms(Schema(layout), Values(written))
    requires written.base == UpdatedBase(given, found.base, now, actor)
    ensures forall name :: name in Differences(layout, found, written) ==> Differences(layout, found, written)[name].column !in IMMUTABLE
  {
    hide Leaves, LeafValues, Conforms, Schema, Values, Compared, BASE_MEMBERS, ColumnOf, Normalized, IMMUTABLE,
      Fits, Unambiguous, Differences;
    assert SameImmutables(found.base, written.base);
    ImmutableChangesAreHookChanges(layout, found, written);
  }

  lemma BaseSizes(a: Base, b: Base)
    ensures |BaseValues(a)| == 10 == |BaseValues(b)|
  {
  }

  // -------------------------------------------------------------------------------------------- deletion

  /** A deletion or restoration changes nothing but its four columns, and the row is then deleted exactly when the
      entity says so: after a deletion and not after a restoration, if hooks leave the base alone. */
  lemma DeletionMarksTheRow(layout: Layout, scan: Scan, operation: Operation, now: Value, actor: Value, before: map<Value, Row>,
                            id: Value, after: map<Value, Row>, changes: map<string, Change>, written: Record)
    requires DeletionWrote(layout, scan, operation, now, actor, before, id, after, changes, written)
    requires Unambiguous(layout)
    ensures after.Keys == before.Keys && forall other :: other in before && other != id ==> after[other] == before[other]
    ensures forall column :: column in before[id] && column !in DELETION_COLUMNS ==>
              column in after[id] && after[id][column] == before[id][column]
    ensures DELETED_AT in after[id] && after[id][DELETED_AT] == Normalized(written.base.deletedAt)
    ensures IsDeleted(after[id]) <==> written.base.deletedAt != Nil
    ensures written.base == DeletionBase(operation, scan(before[id]).base, now, actor) ==> (IsDeleted(after[id]) <==> operation.Delete?)
  {
    hide Leaves, LeafValues, Conforms, Schema, Values, Compared, Stored, ColumnOf, Fits, Differences;
    var leaves, news := Leaves(Schema(layout)), LeafValues(Schema(layout), Values(written));
    forall column | column in before[id] && column !in DELETION_COLUMNS
      ensures column in after[id] && after[id][column] == before[id][column]
    {
      StoredElsewhere(before[id], leaves, news, DELETION_COLUMNS, column);
    }
    BaseLeafAt(layout, written, DELETED_AT_FIELD);
    DeletedAtColumn();
    StoredAt(before[id], leaves, news, DELETION_COLUMNS, |Leaves(layout.before)| + DELETED_AT_FIELD);
  }

  lemma DeletedAtColumn()
    ensures |BASE_MEMBERS| == 10 && ColumnOf(BASE_MEMBERS[DELETED_AT_FIELD]) == DELETED_AT && IsColumn(BASE_MEMBERS[DELETED_AT_FIELD])
    ensures DELETED_AT in DELETION_COLUMNS
  {
    assert DELETION_COLUMNS[0] == DELETED_AT;
  }

  // -------------------------------------------------------------------------------- hooks that surprise

  const NO_SETTINGS := Settings({}, false)

  /** One handler, for one stage; nothing is refused. */
  function OneHook(stage: Stage, handle: Record -> Record): Hooks {
    Hooks((at: Stage) => (record: Record) => Handled(if at == stage then handle(record) else record, None),
          (record: Record) => None, (record: Record) => None)
  }

  lemma OneHookStep(at: Stage, handle: Record -> Record, stage: Stage, record: Record)
    ensures var hooks := OneHook(at, handle);
            Stepped(hooks, NO_SETTINGS, stage, record) == Handled(if stage == at then handle(record) else record, None)
            && hooks.validate(record).None? && hooks.refuse(record).None?
  {
  }

  /** What one handler does to the stages of an update. */
  lemma OneHookInUpdate(handle: Record -> Record, record: Record)
    ensures Validated(OneHook(BeforeUpdate, handle), NO_SETTINGS, UPDATE_STAGES, record) == Handled(handle(record), None)
  {
    hide Stepped, OneHook;
    var hooks := OneHook(BeforeUpdate, handle);
    OneHookStep(BeforeUpdate, handle, BeforeValidate, record);
    OneHookStep(BeforeUpdate, handle, AfterValidate, record);
    OneHookStep(BeforeUpdate, handle, BeforeSave, record);
    OneHookStep(BeforeUpdate, handle, BeforeUpdate, record);
    assert UPDATE_STAGES[1..] == [BeforeSave, BeforeUpdate] && UPDATE_STAGES[1..][1..] == [BeforeUpdate];
    assert [BeforeUpdate][1..] == [];
    assert Chained(hooks, NO_SETTINGS, [], handle(record)) == Handled(handle(record), None);
    assert Chained(hooks, NO_SETTINGS, [BeforeUpdate], record) == Handled(handle(record), None);
    assert Chained(hooks, NO_SETTINGS, [BeforeSave, BeforeUpdate], record) == Handled(handle(record), None);
  }

  function SetCreator(creator: Value): Record -> Record {
    (record: Record) => record.(base := record.base.(createdBy := creator))
  }

  function ClearDeletion(): Record -> Record {
    (record: Record) => record.(base := record.base.(deletedAt := Nil))
  }

  lemma SurprisingHooksAreTyped(layout: Layout, creator: Value)
    ensures Typed(OneHook(BeforeUpdate, SetCreator(creator)), layout) && Typed(OneHook(BeforeDelete, ClearDeletion()), layout)
  {
    hide Conforms;
  }

  lemma CreatorColumn(a: Base)
    ensures |BASE_MEMBERS| == 10 && BASE_MEMBERS[CREATED_BY].name == "CreatedBy" && ColumnOf(BASE_MEMBERS[CREATED_BY]) == "created_by"
    ensures IsColumn(BASE_MEMBERS[CREATED_BY]) && "created_by" in IMMUTABLE && BaseValues(a)[CREATED_BY] == a.createdBy
  {
    hide SnakeCase;
    assert "created_by"[0] == 'c' && TABLE[0] == 't';
  }

  /** A written entity with another creator than the one found: the change is recorded, and the row keeps its creator. */
  lemma CreatorChange(layout: Layout, row: Row, found: Record, written: Record, columns: seq<string>)
    requires Fits(layout, found) && Fits(layout, written) && Unambiguous(layout)
    requires Conforms(Schema(layout), Values(found)) && Conforms(Schema(layout), Values(written))
    requires Scanned(row, Leaves(Schema(layout)), LeafValues(Schema(layout), Values(found)))
    requires AreUpdateColumns(columns, Collected(Leaves(Schema(layout)), map[]))
    requires Normalized(written.base.createdBy) != Normalized(found.base.createdBy)
    ensures "CreatedBy" in Differences(layout, found, written) && "created_by" in row
    ensures var after := Written(layout, row, written, columns);
            "created_by" in after && after["created_by"] == row["created_by"]
  {
    hide Leaves, LeafValues, Conforms, Schema, Values, Compared, Stored, Collected, AreUpdateColumns, DistinctNames, DistinctColumns,
      Scanned, Fits, BASE_MEMBERS, BaseValues, Normalized, IsPatch, ColumnOf, IsColumn, IMMUTABLE;
    var leaves := Leaves(Schema(layout));
    var k := |Leaves(layout.before)| + CREATED_BY;
    var olds, news := LeafValues(Schema(layout), Values(found)), LeafValues(Schema(layout), Values(written));
    BaseLeafAt(layout, found, CREATED_BY);
    BaseLeafAt(layout, written, CREATED_BY);
    CreatorColumn(found.base);
    CreatorColumn(written.base);
    LeafIsRecorded(leaves, olds, news, k);
    ScannedColumn(row, leaves, olds, k);
    ChangesDescribeTheWrite(row, leaves, olds, news, columns);
  }

  lemma ScannedColumn(row: Row, leaves: seq<Member>, values: seq<Value>, i: nat)
    requires |leaves| == |values| && Scanned(row, leaves, values) && i < |leaves| && IsColumn(leaves[i])
    ensures ColumnOf(leaves[i]) in row
  {
  }

  /** An update whose hook sets the creator succeeds and records that change, and the row keeps its creator. */
  lemma CreatorIsRecordedNotWritten(layout: Layout, scan: Scan, columns: seq<string>, rows: map<Value, Row>, record: Record,
                                    now: Value, actor: Value, creator: Value)
    requires Readable(layout, scan, rows) && Fits(layout, record) && Unambiguous(layout)
    requires AreUpdateColumns(columns, Collected(Leaves(Schema(layout)), map[]))
    requires Findable(rows, record.base.id, WithoutDeleted)
    requires Normalized(creator) != Normalized(scan(rows[record.base.id]).base.createdBy)
    ensures var row, found := rows[record.base.id], scan(rows[record.base.id]);
            var hooks := OneHook(BeforeUpdate, SetCreator(creator));
            var staged := Validated(hooks, NO_SETTINGS, UPDATE_STAGES, Prepared(scan, rows, record, now, actor));
            staged.error.None? && UpdateError(hooks, rows, staged.record).None? && staged.record.base.createdBy == creator
            && Conforms(Schema(layout), Values(found)) && Conforms(Schema(layout), Values(staged.record))
            && "CreatedBy" in Differences(layout, found, staged.record)
            && "created_by" in row
            && var after := Written(layout, row, staged.record, columns);
               "created_by" in after && after["created_by"] == row["created_by"]
  {
    hide Leaves, LeafValues, Conforms, Schema, Values, Collected, AreUpdateColumns, DistinctNames, DistinctColumns,
      Scanned, Fits, Validated, Differences, Written, OneHook, Normalized;
    var row, found, prepared := rows[record.base.id], scan(rows[record.base.id]), Prepared(scan, rows, record, now, actor);
    OneHookInUpdate(SetCreator(creator), prepared);
    var written := SetCreator(creator)(prepared);
    OneHookStep(BeforeUpdate, SetCreator(creator), AfterUpdate, written);
    assert ReadAs(layout, row, record.base.id, found);
    SameFit(layout, record, written);
    RecordLeaves(layout, written);
    CreatorChange(layout, row, found, written, columns);
  }

  /** The row of a written entity is deleted exactly when the entity is. */
  lemma RowFollowsTheEntity(layout: Layout, row: Row, written: Record)
    requires Fits(layout, written) && Unambiguous(layout) && Conforms(Schema(layout), Values(written))
    ensures IsDeleted(Written(layout, row, written, DELETION_COLUMNS)) <==> written.base.deletedAt != Nil
  {
    hide Leaves, LeafValues, Conforms, Schema, Values, Stored, ColumnOf, Fits;
    BaseLeafAt(layout, written, DELETED_AT_FIELD);
    DeletedAtColumn();
    StoredAt(row, Leaves(Schema(layout)), LeafValues(Schema(layout), Values(written)), DELETION_COLUMNS,
             |Leaves(layout.before)| + DELETED_AT_FIELD);
  }

  /** A delete whose hook clears the deletion time succeeds, and the row is not deleted. */
  lemma ClearedDeleteLeavesTheRow(layout: Layout, scan: Scan, rows: map<Value, Row>, id: Value, now: Value, actor: Value)
    requires Readable(layout, scan, rows) && Unambiguous(layout) && Findable(rows, id, WithoutDeleted)
    ensures var hooks := OneHook(BeforeDelete, ClearDeletion());
            var found := scan(rows[id]);
            var staged := Stepped(hooks, NO_SETTINGS, BeforeDelete, found.(base := DeletionBase(Delete, found.base, now, actor)));
            staged.error.None? && hooks.refuse(staged.record).None?
            && Stepped(hooks, NO_SETTINGS, AfterDelete, staged.record) == Handled(staged.record, None)
            && Conforms(Schema(layout), Values(staged.record))
            && !IsDeleted(Written(layout, rows[id], staged.record, DELETION_COLUMNS))
  {
    hide Leaves, LeafValues, Conforms, Schema, Values, DistinctNames, DistinctColumns, Scanned, Fits, Written, OneHook, Stepped, IsDeleted;
    var found := scan(rows[id]);
    assert ReadAs(layout, rows[id], id, found);
    var marked := found.(base := DeletionBase(Delete, found.base, now, actor));
    var written := ClearDeletion()(marked);
    OneHookStep(BeforeDelete, ClearDeletion(), BeforeDelete, marked);
    OneHookStep(BeforeDelete, ClearDeletion(), AfterDelete, written);
    SameFit(layout, found, written);
    RecordLeaves(layout, written);
    RowFollowsTheEntity(layout, rows[id], written);
  }

  // ---------------------------------------------------------------------------------- the documented order

  /** The hooks, the validation and the write among the steps. */
  function Visible(steps: seq<Step>): seq<Step> {
    if steps == [] then []
    else (if steps[0].Hook? || steps[0].Validate? || steps[0].Write? then [steps[0]] else []) + Visible(steps[1..])
  }

  function StepsOf(trace: seq<Mark>): (steps: seq<Step>)
    ensures |steps| == |trace| && forall i :: 0 <= i < |steps| ==> steps[i] == trace[i].step
  {
    seq(|trace|, i requires 0 <= i < |trace| => trace[i].step)
  }

  /** The lifecycle as the documentation gives it. */
  function Documented(operation: Operation): seq<Step> {
    match operation
    case Create =>
      [Hook(BeforeValidate), Validate, Hook(AfterValidate), Hook(BeforeSave), Hook(BeforeCreate), Write, Hook(AfterCreate), Hook(AfterSave)]
    case Update =>
      [Hook(BeforeValidate), Validate, Hook(AfterValidate), Hook(BeforeSave), Hook(BeforeUpdate), Write, Hook(AfterUpdate), Hook(AfterSave)]
    case Delete => [Hook(BeforeDelete), Write, Hook(AfterDelete)]
    case Restore => [Hook(BeforeRestore), Write, Hook(AfterRestore)]
    case ForceDelete => [Hook(BeforeForceDelete), Write, Hook(AfterForceDelete)]
  }

  lemma {:induction false} NothingSkipped(settings: Settings, plan: seq<Step>)
    requires settings.skipped == {} && !settings.skipAll
    ensures Kept(settings, plan) == plan
    decreases |plan|
  {
    if plan != [] {
      NothingSkipped(settings, plan[..|plan| - 1]);
      assert plan == plan[..|plan| - 1] + [plan[|plan| - 1]];
    }
  }

  lemma VisibleStep(step: Step, rest: seq<Step>)
    ensures Visible([step] + rest) == (if step.Hook? || step.Validate? || step.Write? then [step] else []) + Visible(rest)
    ensures Visible([]) == []
  {
    assert ([step] + rest)[1..] == rest;
  }

  lemma {:induction false} VisibleAll(steps: seq<Step>)
    requires forall i :: 0 <= i < |steps| ==> steps[i].Hook? || steps[i].Validate? || steps[i].Write?
    ensures Visible(steps) == steps
    decreases |steps|
  {
    if steps != [] {
      VisibleAll(steps[1..]);
    }
  }

  /** The steps that are not visible come first. */
  lemma VisibleRest(lead: seq<Step>, rest: seq<Step>)
    requires (lead == [NewId] || lead == [Check, Find]) && forall i :: 0 <= i < |rest| ==> rest[i].Hook? || rest[i].Validate? || rest[i].Write?
    ensures Visible(lead + [Terminal(AfterCommit), Terminal(AfterRollback)] + rest) == rest
  {
    hide Visible;
    var one := [Terminal(AfterRollback)] + rest;
    var two := [Terminal(AfterCommit)] + one;
    VisibleAll(rest);
    VisibleStep(Terminal(AfterRollback), rest);
    VisibleStep(Terminal(AfterCommit), one);
    if lead == [NewId] {
      VisibleStep(NewId, two);
      assert lead + [Terminal(AfterCommit), Terminal(AfterRollback)] + rest == [NewId] + two;
    } else {
      VisibleStep(Find, two);
      VisibleStep(Check, [Find] + two);
      assert lead + [Terminal(AfterCommit), Terminal(AfterRollback)] + rest == [Check] + ([Find] + two);
    }
  }

  lemma PlanIsDocumented(operation: Operation)
    ensures Visible(Plan(operation)) == Documented(operation)
  {
    hide Visible;
    var lead := if operation.Create? then [NewId] else [Check, Find];
    VisibleRest(lead, Documented(operation));
    match operation
    case Create => assert Plan(operation) == lead + [Terminal(AfterCommit), Terminal(AfterRollback)] + Documented(operation);
    case Update => assert Plan(operation) == lead + [Terminal(AfterCommit), Terminal(AfterRollback)] + Documented(operation);
    case _ => assert Plan(operation) == lead + [Terminal(AfterCommit), Terminal(AfterRollback)] + Documented(operation);
  }

  /** A successful operation that skips nothing runs the stages, the validation and the write in the documented order. */
  lemma OperationsRunAsDocumented(trace: seq<Mark>, settings: Settings, operation: Operation)
    requires Follows(trace, settings, Plan(operation), None) && settings.skipped == {} && !settings.skipAll
    ensures Visible(StepsOf(trace)) == Documented(operation)
  {
    hide Kept, Plan, Documented, Visible;
    TraceIsPrefix(trace, settings, Plan(operation), None);
    NothingSkipped(settings, Plan(operation));
    assert StepsOf(trace) == Plan(operation);
    PlanIsDocumented(operation);
  }
}
