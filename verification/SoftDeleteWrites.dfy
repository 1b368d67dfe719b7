/** The writes of the repository's operations are the writes of the soft-delete protocol: seen through what the protocol
    knows of a row, each operation's guard is the protocol's and its effect is the protocol's change. */
module SoftDeleteWrites {
  import opened Text
  import opened ModelSchema
  import opened Entities
  import opened Changes
  import opened Repository
  import opened RepositoryLaws
  import SoftDelete

  /** The contents of a row but for its deletion columns, as one datum. */
  type Encoding = Row -> SoftDelete.Data

  function Contents(row: Row): Row {
    row - (set column | column in DELETION_COLUMNS)
  }

  /** The time that a value of `deleted_at` stands for. */
  function TimeOf(value: Value): Option<SoftDelete.Time> {
    match value
    case Nil => None
    case Pointer(Instant(nanoseconds, _)) => Some(nanoseconds)
    case _ => Some(0)
  }

  function DeletionTime(row: Row): Option<SoftDelete.Time> {
    if DELETED_AT in row then TimeOf(row[DELETED_AT]) else None
  }

  function Abstract(encode: Encoding, row: Row): SoftDelete.Row {
    SoftDelete.Row(DeletionTime(row), encode(Contents(row)))
  }

  /** A successful delete or restore, with hooks that leave the base alone, is a delete or restore of the protocol. */
  lemma DeletionIsProtocolStep(encode: Encoding, layout: Layout, scan: Scan, operation: Operation, at: int, zone: string, actor: Value,
                               before: map<Value, Row>, id: Value, after: map<Value, Row>, changes: map<string, Change>,
                               written: Record, key: SoftDelete.Id)
    requires operation.Delete? || operation.Restore?
    requires DeletionWrote(layout, scan, operation, Instant(at, zone), actor, before, id, after, changes, written)
    requires Unambiguous(layout) && written.base == DeletionBase(operation, scan(before[id]).base, Instant(at, zone), actor)
    ensures id in after
    ensures var step := if operation.Delete? then SoftDelete.Delete(key, at) else SoftDelete.Restore(key);
            var row := Some(Abstract(encode, before[id]));
            SoftDelete.Admits(step, row)
            && SoftDelete.Apply(row, SoftDelete.ChangeOf(step)) == Some(Abstract(encode, after[id]))
  {
    hide Leaves, LeafValues, Conforms, Schema, Values, Stored, Fits, Differences, Unambiguous;
    DeletionMarksTheRow(layout, scan, operation, Instant(at, zone), actor, before, id, after, changes, written);
    OtherColumnsStay(layout, before[id], written, DELETION_COLUMNS);
    assert Contents(after[id]) == Contents(before[id]);
  }

  /** Writing some columns keeps the others and adds only written ones. */
  lemma OtherColumnsStay(layout: Layout, row: Row, record: Record, columns: seq<string>)
    requires Conforms(Schema(layout), Values(record))
    ensures forall column :: column !in columns ==>
              (column in Written(layout, row, record, columns) <==> column in row)
              && (column in row ==> Written(layout, row, record, columns)[column] == row[column])
  {
    hide Leaves, LeafValues, Conforms, Schema, Values, Stored;
    forall column | column !in columns
      ensures (column in Written(layout, row, record, columns) <==> column in row)
              && (column in row ==> Written(layout, row, record, columns)[column] == row[column])
    {
      StoredElsewhere(row, Leaves(Schema(layout)), LeafValues(Schema(layout), Values(record)), columns, column);
    }
  }

  /** A successful update, with hooks that keep the id, is an update of the protocol: only on a row that is not deleted,
      and it leaves it that way. */
  lemma UpdateIsProtocolStep(encode: Encoding, layout: Layout, scan: Scan, columns: seq<string>, before: map<Value, Row>, id: Value,
                             after: map<Value, Row>, changes: map<string, Change>, written: Record, key: SoftDelete.Id)
    requires UpdateWrote(layout, scan, columns, before, id, after, changes, written) && written.base.id == id
    requires AreUpdateColumns(columns, Collected(Leaves(Schema(layout)), map[]))
    ensures id in after
    ensures var step := SoftDelete.Update(key, encode(Contents(after[id])));
            var row := Some(Abstract(encode, before[id]));
            SoftDelete.Admits(step, row)
            && SoftDelete.Apply(row, SoftDelete.ChangeOf(step)) == Some(Abstract(encode, after[id]))
  {
    hide Leaves, LeafValues, Conforms, Schema, Values, Stored, Fits, Differences, Collected;
    assert DELETED_AT in IMMUTABLE && DELETED_AT !in columns;
    OtherColumnsStay(layout, before[id], written, columns);
  }

  /** Every column of the model. */
  predicate AreAllColumns(columns: seq<string>, layout: Layout) {
    forall i :: 0 <= i < |Leaves(Schema(layout))| && IsColumn(Leaves(Schema(layout))[i]) ==>
      ColumnOf(Leaves(Schema(layout))[i]) in columns
  }

  /** A successful create is an insertion of the protocol, with the deletion time of the entity as it is inserted:
      nothing in the program clears one that the caller has set. */
  lemma CreateIsProtocolStep(encode: Encoding, layout: Layout, columns: seq<string>, before: map<Value, Row>,
                             after: map<Value, Row>, written: Record, key: SoftDelete.Id)
    requires Fits(layout, written) && Conforms(Schema(layout), Values(written)) && Unambiguous(layout)
    requires AreAllColumns(columns, layout)
    requires written.base.id !in before && after == before[written.base.id := Written(layout, map[], written, columns)]
    ensures var row := after[written.base.id];
            var step := SoftDelete.Create(key, TimeOf(written.base.deletedAt), encode(Contents(row)));
            SoftDelete.Admits(step, None)
            && SoftDelete.Apply(None, SoftDelete.ChangeOf(step)) == Some(Abstract(encode, row))
            && (IsDeleted(row) <==> written.base.deletedAt != Nil)
  {
    hide Leaves, LeafValues, Conforms, Schema, Values, Stored, ColumnOf, Fits;
    BaseLeafAt(layout, written, DELETED_AT_FIELD);
    DeletedAtColumn();
    StoredAt(map[], Leaves(Schema(layout)), LeafValues(Schema(layout), Values(written)), columns,
             |Leaves(layout.before)| + DELETED_AT_FIELD);
  }

  /** With hooks that leave the base alone, what is inserted is deleted exactly when the caller's entity says so. */
  lemma CreatedAsTheCallerMarked(given: Base, generated: Option<Value>, now: Value, actor: Value)
    ensures CreatedBase(given, generated, now, actor).deletedAt == given.deletedAt
  {
  }

  /** A force-delete is that of the protocol: any row, which is then gone. */
  lemma ForceDeleteIsProtocolStep(encode: Encoding, before: map<Value, Row>, id: Value, after: map<Value, Row>, key: SoftDelete.Id)
    requires id in before && after == before - {id}
    ensures var step := SoftDelete.ForceDelete(key);
            var row := Some(Abstract(encode, before[id]));
            SoftDelete.Admits(step, row) && id !in after && SoftDelete.Apply(row, SoftDelete.ChangeOf(step)) == None
  {
  }
}
