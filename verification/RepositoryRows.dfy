/** What the rows hold after the repository's operations, column by column: the clock, the actor, what the caller gave and
    what stays. */
module RepositoryRows {
  import opened Text
  import opened ModelSchema
  import opened Entities
  import opened Lifecycle
  import opened Changes
  import opened Repository
  import opened RepositoryLaws

  /** The column holds the value, as the database stores it. */
  predicate Stamped(row: Row, column: string, value: Value) {
    column in row && row[column] == Normalized(value)
  }

  predicate Same(before: Row, after: Row, column: string) {
    column in before && column in after && after[column] == before[column]
  }

  lemma ColumnNames()
    ensures |BASE_MEMBERS| == 10
    ensures ColumnOf(BASE_MEMBERS[0]) == "id" && ColumnOf(BASE_MEMBERS[1]) == "name"
    ensures ColumnOf(BASE_MEMBERS[2]) == "description" && ColumnOf(BASE_MEMBERS[3]) == "metadata"
    ensures ColumnOf(BASE_MEMBERS[4]) == "created_at" && ColumnOf(BASE_MEMBERS[5]) == "updated_at"
    ensures ColumnOf(BASE_MEMBERS[6]) == "deleted_at" && ColumnOf(BASE_MEMBERS[7]) == "created_by"
    ensures ColumnOf(BASE_MEMBERS[8]) == "updated_by" && ColumnOf(BASE_MEMBERS[9]) == "deleted_by"
  {
    hide SnakeCase;
  }

  lemma BaseIsColumn(k: nat)
    requires k < 10
    ensures |BASE_MEMBERS| == 10 && IsColumn(BASE_MEMBERS[k])
  {
    hide SnakeCase;
    assert TABLE[0] == 't' && |TABLE| == 6;
    assert BASE_MEMBERS[k].tag[0][0] != 't';
  }

  /** A base column that is written holds the entity's field. */
  lemma BaseColumnWritten(layout: Layout, row: Row, record: Record, columns: seq<string>, k: nat)
    requires Fits(layout, record) && Conforms(Schema(layout), Values(record)) && Unambiguous(layout)
    requires k < 10 && |BASE_MEMBERS| == 10 && ColumnOf(BASE_MEMBERS[k]) in columns
    ensures Stamped(Written(layout, row, record, columns), ColumnOf(BASE_MEMBERS[k]), BaseValueAt(record.base, k))
  {
    hide Leaves, LeafValues, Conforms, Schema, Values, Stored, ColumnOf, Fits, IsColumn, BASE_MEMBERS, BaseValues;
    BaseLeafAt(layout, record, k);
    BaseIsColumn(k);
    BaseValueIs(record.base, k);
    StoredAt(row, Leaves(Schema(layout)), LeafValues(Schema(layout), Values(record)), columns, |Leaves(layout.before)| + k);
  }

  /** The fields of the base in the order of its columns. */
  function BaseValueAt(base: Base, k: nat): Value {
    match k
    case 0 => base.id
    case 1 => base.name
    case 2 => base.description
    case 3 => base.metadata
    case 4 => base.createdAt
    case 5 => base.updatedAt
    case 6 => base.deletedAt
    case 7 => base.createdBy
    case 8 => base.updatedBy
    case _ => base.deletedBy
  }

  lemma BaseValueIs(base: Base, k: nat)
    requires k < 10
    ensures |BaseValues(base)| == 10 && BaseValues(base)[k] == BaseValueAt(base, k)
  {
  }

  lemma UpdateColumnsHold(layout: Layout, columns: seq<string>, k: nat, record: Record)
    requires Fits(layout, record) && Conforms(Schema(layout), Values(record)) && Unambiguous(layout)
    requires AreUpdateColumns(columns, Collected(Leaves(Schema(layout)), map[])) && k < 10 && |BASE_MEMBERS| == 10
    ensures ColumnOf(BASE_MEMBERS[k]) in columns <==> ColumnOf(BASE_MEMBERS[k]) !in IMMUTABLE
  {
    hide Leaves, LeafValues, Conforms, Schema, Values, ColumnOf, Fits, IsColumn, BASE_MEMBERS, Collected, AreUpdateColumns, IMMUTABLE;
    BaseLeafAt(layout, record, k);
    BaseIsColumn(k);
    UpdateColumnsAre(Leaves(Schema(layout)), columns);
  }

  // ---------------------------------------------------------------------------------------------- update

  lemma WrittenElsewhere(layout: Layout, row: Row, record: Record, columns: seq<string>, column: string)
    requires Conforms(Schema(layout), Values(record)) && column !in columns && column in row
    ensures Same(row, Written(layout, row, record, columns), column)
  {
    hide Leaves, LeafValues, Conforms, Schema, Values, Stored;
    StoredElsewhere(row, Leaves(Schema(layout)), LeafValues(Schema(layout), Values(record)), columns, column);
  }

  lemma ImmutableNotUpdated(layout: Layout, columns: seq<string>)
    requires Unambiguous(layout) && AreUpdateColumns(columns, Collected(Leaves(Schema(layout)), map[]))
    ensures "id" !in columns && "created_at" !in columns && "created_by" !in columns && "deleted_at" !in columns && "deleted_by" !in columns
  {
    hide Leaves, Collected, AreUpdateColumns;
    UpdateColumnsAre(Leaves(Schema(layout)), columns);
    assert "id" in IMMUTABLE && "created_at" in IMMUTABLE && "created_by" in IMMUTABLE && "deleted_at" in IMMUTABLE && "deleted_by" in IMMUTABLE;
  }

  /** After an update whose hooks leave the base alone, whatever times and actors the caller's entity held: the row has the
      clock's time and the acting user as its last change, the caller's name, description and metadata, and its identity,
      creation and deletion as they were. */
  lemma UpdateStampsTheRow(layout: Layout, scan: Scan, columns: seq<string>, before: map<Value, Row>, id: Value,
                           after: map<Value, Row>, changes: map<string, Change>, written: Record, given: Record, now: Value, actor: Value)
    requires UpdateWrote(layout, scan, columns, before, id, after, changes, written)
    requires Readable(layout, scan, before) && Unambiguous(layout)
    requires AreUpdateColumns(columns, Collected(Leaves(Schema(layout)), map[]))
    requires written.base == UpdatedBase(given.base, scan(before[id]).base, now, actor)
    ensures id in after && Stamped(after[id], "updated_at", now) && Stamped(after[id], "updated_by", actor)
    ensures Stamped(after[id], "name", given.base.name) && Stamped(after[id], "description", given.base.description)
            && Stamped(after[id], "metadata", given.base.metadata)
    ensures forall column :: column in ["id", "created_at", "created_by", "deleted_at", "deleted_by"] && column in before[id] ==>
              Same(before[id], after[id], column)
  {
    hide Leaves, LeafValues, Conforms, Schema, Values, Fits, Written, Differences, Collected, AreUpdateColumns, IMMUTABLE, IsColumn, ColumnOf,
      Unambiguous, BASE_MEMBERS, Stamped, Normalized, Same, IsDeleted;
    assert ReadAs(layout, before[id], id, scan(before[id]));
    assert written.base.id == id && after[id] == Written(layout, before[id], written, columns);
    ColumnNames();
    UpdateColumn(layout, before[id], written, columns, 5);
    UpdateColumn(layout, before[id], written, columns, 8);
    UpdateColumn(layout, before[id], written, columns, 1);
    UpdateColumn(layout, before[id], written, columns, 2);
    UpdateColumn(layout, before[id], written, columns, 3);
    ImmutableNotUpdated(layout, columns);
    forall column | column in ["id", "created_at", "created_by", "deleted_at", "deleted_by"] && column in before[id]
      ensures Same(before[id], after[id], column)
    {
      WrittenElsewhere(layout, before[id], written, columns, column);
    }
  }

  lemma UpdateColumn(layout: Layout, row: Row, record: Record, columns: seq<string>, k: nat)
    requires Fits(layout, record) && Conforms(Schema(layout), Values(record)) && Unambiguous(layout)
    requires AreUpdateColumns(columns, Collected(Leaves(Schema(layout)), map[]))
    requires k in [1, 2, 3, 5, 8]
    ensures |BASE_MEMBERS| == 10
    ensures Stamped(Written(layout, row, record, columns), ColumnOf(BASE_MEMBERS[k]), BaseValueAt(record.base, k))
  {
    hide Leaves, LeafValues, Conforms, Schema, Values, Fits, Written, Collected, AreUpdateColumns, IsColumn, ColumnOf, Unambiguous,
      BASE_MEMBERS, Stamped;
    ColumnNames();
    UpdateColumnsHold(layout, columns, k, record);
    assert ColumnOf(BASE_MEMBERS[k]) in ["name", "description", "metadata", "updated_at", "updated_by"];
    NotImmutable(ColumnOf(BASE_MEMBERS[k]));
    BaseColumnWritten(layout, row, record, columns, k);
  }

  lemma NotImmutable(column: string)
    requires column in ["name", "description", "metadata", "updated_at", "updated_by"]
    ensures column !in IMMUTABLE
  {
  }

  // ---------------------------------------------------------------------------------------------- create

  /** After a create whose hooks leave the base alone: the new row is created and last changed by the acting user at the
      clock's time, has the caller's id or the generated one, the caller's name, description and deletion columns, and
      metadata even when the caller gave none. */
  lemma CreateStampsTheRow(layout: Layout, columns: seq<string>, written: Record, given: Record, generated: Option<Value>,
                           now: Value, actor: Value)
    requires Fits(layout, written) && Conforms(Schema(layout), Values(written)) && Unambiguous(layout)
    requires |BASE_MEMBERS| == 10 && forall k :: 0 <= k < 10 ==> ColumnOf(BASE_MEMBERS[k]) in columns
    requires written.base == CreatedBase(given.base, generated, now, actor)
    requires given.base.id != Nil || generated.Some?
    ensures var row := Written(layout, map[], written, columns);
            && Stamped(row, "created_at", now) && Stamped(row, "updated_at", now)
            && Stamped(row, "created_by", actor) && Stamped(row, "updated_by", actor)
            && Stamped(row, "id", if given.base.id == Nil then generated.value else given.base.id)
            && Stamped(row, "name", given.base.name) && Stamped(row, "description", given.base.description)
            && Stamped(row, "metadata", if given.base.metadata == Nil then Map(map[]) else given.base.metadata)
            && Stamped(row, "deleted_at", given.base.deletedAt) && Stamped(row, "deleted_by", given.base.deletedBy)
  {
    hide Leaves, LeafValues, Conforms, Schema, Values, Fits, Written, IsColumn, ColumnOf, Unambiguous, BASE_MEMBERS, Stamped;
    ColumnNames();
    BaseColumnWritten(layout, map[], written, columns, 0);
    BaseColumnWritten(layout, map[], written, columns, 1);
    BaseColumnWritten(layout, map[], written, columns, 2);
    BaseColumnWritten(layout, map[], written, columns, 3);
    BaseColumnWritten(layout, map[], written, columns, 4);
    BaseColumnWritten(layout, map[], written, columns, 5);
    BaseColumnWritten(layout, map[], written, columns, 6);
    BaseColumnWritten(layout, map[], written, columns, 7);
    BaseColumnWritten(layout, map[], written, columns, 8);
    BaseColumnWritten(layout, map[], written, columns, 9);
  }

  // ------------------------------------------------------------------------------- deletion and restoration

  lemma DeletionColumn(layout: Layout, row: Row, record: Record, k: nat)
    requires Fits(layout, record) && Conforms(Schema(layout), Values(record)) && Unambiguous(layout)
    requires k in [5, 6, 8, 9]
    ensures |BASE_MEMBERS| == 10
    ensures Stamped(Written(layout, row, record, DELETION_COLUMNS), ColumnOf(BASE_MEMBERS[k]), BaseValueAt(record.base, k))
  {
    hide Leaves, LeafValues, Conforms, Schema, Values, Fits, Written, IsColumn, ColumnOf, Unambiguous, BASE_MEMBERS, Stamped;
    ColumnNames();
    assert DELETION_COLUMNS[0] == "deleted_at" && DELETION_COLUMNS[1] == "deleted_by";
    assert DELETION_COLUMNS[2] == "updated_at" && DELETION_COLUMNS[3] == "updated_by";
    BaseColumnWritten(layout, row, record, DELETION_COLUMNS, k);
  }

  /** After a delete or restore whose hooks leave the base alone: the row was last changed by the acting user at the clock's
      time; a deleted one was deleted then and by that user, and a restored one has no deletion left. */
  lemma DeletionStampsTheRow(layout: Layout, scan: Scan, operation: Operation, now: Value, actor: Value, before: map<Value, Row>,
                             id: Value, after: map<Value, Row>, changes: map<string, Change>, written: Record)
    requires operation.Delete? || operation.Restore?
    requires DeletionWrote(layout, scan, operation, now, actor, before, id, after, changes, written) && Unambiguous(layout)
    requires written.base == DeletionBase(operation, scan(before[id]).base, now, actor)
    ensures id in after && Stamped(after[id], "updated_at", now) && Stamped(after[id], "updated_by", actor)
    ensures operation.Delete? ==> Stamped(after[id], "deleted_at", Pointer(now)) && Stamped(after[id], "deleted_by", actor)
    ensures operation.Restore? ==> Stamped(after[id], "deleted_at", Nil) && Stamped(after[id], "deleted_by", Nil)
  {
    hide Leaves, LeafValues, Conforms, Schema, Values, Fits, Written, IsColumn, ColumnOf, Unambiguous, BASE_MEMBERS, Stamped, Differences,
      Normalized;
    ColumnNames();
    DeletionColumn(layout, before[id], written, 5);
    DeletionColumn(layout, before[id], written, 6);
    DeletionColumn(layout, before[id], written, 8);
    DeletionColumn(layout, before[id], written, 9);
  }

  // ----------------------------------------------------------------------------------- the model's columns

  /** Any written column of the model holds the entity's field, and any other is as it was. */
  lemma WrittenColumnsHoldTheEntity(layout: Layout, row: Row, record: Record, columns: seq<string>, i: nat)
    requires Fits(layout, record) && Conforms(Schema(layout), Values(record)) && Unambiguous(layout)
    requires i < |Leaves(Schema(layout))| && IsColumn(Leaves(Schema(layout))[i])
    ensures |LeafValues(Schema(layout), Values(record))| == |Leaves(Schema(layout))|
    ensures var column := ColumnOf(Leaves(Schema(layout))[i]);
            if column in columns then Stamped(Written(layout, row, record, columns), column, LeafValues(Schema(layout), Values(record))[i])
            else column in row ==> Same(row, Written(layout, row, record, columns), column)
  {
    hide Leaves, LeafValues, Conforms, Schema, Values, Stored, ColumnOf, IsColumn, Fits;
    var leaves, values := Leaves(Schema(layout)), LeafValues(Schema(layout), Values(record));
    var column := ColumnOf(leaves[i]);
    if column in columns {
      StoredAt(row, leaves, values, columns, i);
    } else {
      StoredElsewhere(row, leaves, values, columns, column);
    }
  }

  // ------------------------------------------------------------------------------------- times, validation

  /** Two values are the same change record exactly when they are equal or the same instant, directly or behind a pointer. */
  lemma SameInstantIsNoChange(a: Value, b: Value)
    ensures Normalized(a) == Normalized(b) <==>
            || a == b
            || (a.Instant? && b.Instant? && a.nanoseconds == b.nanoseconds)
            || (a.Pointer? && b.Pointer? && a.target.Instant? && b.target.Instant? && a.target.nanoseconds == b.target.nanoseconds)
  {
  }

  /** Nothing invalid is written: the entity that reaches the write had passed the validator, as the hooks before validation
      left it, whatever stages are skipped. */
  lemma OnlyValidIsWritten(hooks: Hooks, settings: Settings, rest: seq<Stage>, record: Record)
    requires Validated(hooks, settings, rest, record).error.None?
    ensures hooks.validate(if Skips(settings, BeforeValidate) then record else Handle(hooks, BeforeValidate, record).record).None?
  {
  }

  /** With hooks that do nothing, what is written is the prepared entity. */
  lemma {:induction false} QuietStagesKeep(hooks: Hooks, settings: Settings, stages: seq<Stage>, record: Record)
    requires forall stage, given :: Handle(hooks, stage, given) == Handled(given, None)
    ensures Chained(hooks, settings, stages, record) == Handled(record, None)
    decreases |stages|
  {
    if stages != [] {
      QuietStagesKeep(hooks, settings, stages[1..], record);
    }
  }
}
