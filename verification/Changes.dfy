/** The dirty tracking of lifecycle/changes.go. */
module Changes {
  import opened ModelSchema
  import Ordering

  datatype Change = Change(field: string, column: string, before: Value, after: Value)

  /** `normalizedValue`: times are compared as instants. */
  function Normalized(value: Value): Value {
    if value.Instant? then Instant(value.nanoseconds, "UTC")
    else if value.Pointer? && value.target.Instant? then Pointer(Instant(value.target.nanoseconds, "UTC"))
    else value
  }

  /** The recorded changes after comparing the leaves. */
  function Compared(leaves: seq<Member>, olds: seq<Value>, news: seq<Value>, changes: map<string, Change>): map<string, Change>
    requires |leaves| == |olds| == |news|
    decreases |leaves|
  {
    if leaves == [] then changes
    else
      var n := |leaves| - 1;
      var rest := Compared(leaves[..n], olds[..n], news[..n], changes);
      var before, after := Normalized(olds[n]), Normalized(news[n]);
      if before == after then rest
      else rest[leaves[n].name := Change(leaves[n].name, ColumnOf(leaves[n]), before, after)]
  }

  lemma {:induction false} ComparedAppend(a: seq<Member>, b: seq<Member>, oldA: seq<Value>, oldB: seq<Value>,
                                          newA: seq<Value>, newB: seq<Value>, changes: map<string, Change>)
    requires |a| == |oldA| == |newA| && |b| == |oldB| == |newB|
    ensures Compared(a + b, oldA + oldB, newA + newB, changes) == Compared(b, oldB, newB, Compared(a, oldA, newA, changes))
    decreases |b|
  {
    hide ColumnOf, Normalized;
    if b == [] {
      assert a + b == a && oldA + oldB == oldA && newA + newB == newA;
    } else {
      var n, m := |b| - 1, |a| + |b| - 1;
      assert (a + b)[..m] == a + b[..n] && (oldA + oldB)[..m] == oldA + oldB[..n] && (newA + newB)[..m] == newA + newB[..n];
      ComparedAppend(a, b[..n], oldA, oldB[..n], newA, newB[..n], changes);
      assert (a + b)[m] == b[n] && (oldA + oldB)[m] == oldB[n] && (newA + newB)[m] == newB[n];
    }
  }

  /** `Compare` on two values of one type. */
  function Comparison(schema: seq<Member>, olds: seq<Value>, news: seq<Value>): map<string, Change>
    requires Conforms(schema, olds) && Conforms(schema, news)
  {
    Compared(Leaves(schema), LeafValues(schema, olds), LeafValues(schema, news), map[])
  }

  class ChangeSet {
    var values: map<string, Change>

    constructor ()
      ensures values == map[]
    {
      values := map[];
    }

    method CompareStruct(schema: seq<Member>, olds: seq<Value>, news: seq<Value>)
      requires Conforms(schema, olds) && Conforms(schema, news)
      modifies this
      ensures values == Compared(Leaves(schema), LeafValues(schema, olds), LeafValues(schema, news), old(values))
      decreases schema
    {
      for i := 0 to |schema|
        invariant values == Compared(Leaves(schema[..i]), LeafValues(schema[..i], olds[..i]),
                                     LeafValues(schema[..i], news[..i]), old(values))
      {
        assert ConformsTo(schema[i], olds[i]) && ConformsTo(schema[i], news[i]);
        CompareField(schema[i], olds[i], news[i]);
        ComparedAppend(Leaves(schema[..i]), LeavesOf(schema[i]),
                       LeafValues(schema[..i], olds[..i]), LeafValuesOf(schema[i], olds[i]),
                       LeafValues(schema[..i], news[..i]), LeafValuesOf(schema[i], news[i]), old(values));
        LeavesStep(schema, olds, i);
        LeavesStep(schema, news, i);
      }
      assert schema[..|schema|] == schema && olds[..|schema|] == olds && news[..|schema|] == news;
    }

    method CompareField(field: Member, before: Value, after: Value)
      requires ConformsTo(field, before) && ConformsTo(field, after)
      modifies this
      ensures values == Compared(LeavesOf(field), LeafValuesOf(field, before), LeafValuesOf(field, after), old(values))
      decreases field
    {
      ComparedOne(field, before, after, values);
      if !field.exported {
        return;
      }
      if FirstTagPart(field.tag) == "-" {
        return;
      }
      if field.anonymous && field.shape.Struct? && |field.tag| == 0 {
        CompareStruct(field.shape.fields, before.fields, after.fields);
        return;
      }
      var oldInterface := Normalized(before);
      var newInterface := Normalized(after);
      if oldInterface == newInterface {
        return;
      }
      values := values[field.name := Change(field.name, ColumnOf(field), oldInterface, newInterface)];
    }

    /** `Fields`: the changed field names in order. */
    method Fields() returns (fields: seq<string>)
      ensures Ordering.Enumerates(fields, values.Keys)
    {
      fields := Ordering.SortedKeys(values.Keys);
    }
  }

  lemma LeavesStep(schema: seq<Member>, values: seq<Value>, i: nat)
    requires i < |schema| && Conforms(schema, values)
    ensures Leaves(schema[..i + 1]) == Leaves(schema[..i]) + LeavesOf(schema[i])
    ensures LeafValues(schema[..i + 1], values[..i + 1]) == LeafValues(schema[..i], values[..i]) + LeafValuesOf(schema[i], values[i])
  {
    hide LeavesOf, LeafValuesOf;
    assert schema[..i + 1][..i] == schema[..i] && values[..i + 1][..i] == values[..i];
  }

  lemma ComparedOne(field: Member, before: Value, after: Value, changes: map<string, Change>)
    ensures Compared([], [], [], changes) == changes
    ensures Compared([field], [before], [after], changes)
            == if Normalized(before) == Normalized(after) then changes
               else changes[field.name := Change(field.name, ColumnOf(field), Normalized(before), Normalized(after))]
  {
    assert [field][..0] == [] && [before][..0] == [] && [after][..0] == [];
  }

  // ------------------------------------------------------------------------------- what is recorded

  /** Only names of leaves that differ are recorded. */
  lemma {:induction false} RecordedIsLeaf(leaves: seq<Member>, olds: seq<Value>, news: seq<Value>, name: string) returns (i: nat)
    requires |leaves| == |olds| == |news| && name in Compared(leaves, olds, news, map[])
    ensures i < |leaves| && leaves[i].name == name && Normalized(olds[i]) != Normalized(news[i])
    ensures Compared(leaves, olds, news, map[])[name] == Change(name, ColumnOf(leaves[i]), Normalized(olds[i]), Normalized(news[i]))
    decreases |leaves|
  {
    hide ColumnOf, Normalized;
    var n := |leaves| - 1;
    if leaves[n].name == name && Normalized(olds[n]) != Normalized(news[n]) {
      i := n;
    } else {
      i := RecordedIsLeaf(leaves[..n], olds[..n], news[..n], name);
    }
  }

  /** Every leaf that differs is recorded, with its normalised values. */
  lemma {:induction false} LeafIsRecorded(leaves: seq<Member>, olds: seq<Value>, news: seq<Value>, i: nat)
    requires |leaves| == |olds| == |news| && i < |leaves| && DistinctNames(leaves)
    ensures var changes := Compared(leaves, olds, news, map[]);
            (leaves[i].name in changes <==> Normalized(olds[i]) != Normalized(news[i]))
            && (leaves[i].name in changes ==>
                  changes[leaves[i].name] == Change(leaves[i].name, ColumnOf(leaves[i]), Normalized(olds[i]), Normalized(news[i])))
    decreases |leaves|
  {
    hide ColumnOf, Normalized, Compared;
    var name := leaves[i].name;
    if name in Compared(leaves, olds, news, map[]) {
      var k := RecordedIsLeaf(leaves, olds, news, name);
      assert k == i;
    } else if Normalized(olds[i]) != Normalized(news[i]) {
      DifferenceIsRecorded(leaves, olds, news, i);
    }
  }

  lemma {:induction false} DifferenceIsRecorded(leaves: seq<Member>, olds: seq<Value>, news: seq<Value>, i: nat)
    requires |leaves| == |olds| == |news| && i < |leaves| && Normalized(olds[i]) != Normalized(news[i])
    ensures leaves[i].name in Compared(leaves, olds, news, map[])
    decreases |leaves|
  {
    hide ColumnOf, Normalized;
    var n := |leaves| - 1;
    if i < n {
      DifferenceIsRecorded(leaves[..n], olds[..n], news[..n], i);
    }
  }

  // ---------------------------------------------------------------------------------- rows and updates

  /** A database row: the values of its columns, times as instants. */
  type Row = map<string, Value>

  /** A value scanned from the row. */
  predicate Scanned(row: Row, leaves: seq<Member>, values: seq<Value>)
    requires |leaves| == |values|
  {
    forall i :: 0 <= i < |leaves| && IsColumn(leaves[i]) ==>
      ColumnOf(leaves[i]) in row && row[ColumnOf(leaves[i])] == Normalized(values[i])
  }

  /** The row after writing the listed columns of a value. */
  function Stored(row: Row, leaves: seq<Member>, values: seq<Value>, columns: seq<string>): Row
    requires |leaves| == |values|
    decreases |leaves|
  {
    if leaves == [] then row
    else
      var n := |leaves| - 1;
      var rest := Stored(row, leaves[..n], values[..n], columns);
      if IsColumn(leaves[n]) && ColumnOf(leaves[n]) in columns then rest[ColumnOf(leaves[n]) := Normalized(values[n])] else rest
  }

  lemma {:induction false} StoredElsewhere(row: Row, leaves: seq<Member>, values: seq<Value>, columns: seq<string>, column: string)
    requires |leaves| == |values|
    requires column !in columns || forall i :: 0 <= i < |leaves| && IsColumn(leaves[i]) ==> ColumnOf(leaves[i]) != column
    ensures column in Stored(row, leaves, values, columns) <==> column in row
    ensures column in row ==> Stored(row, leaves, values, columns)[column] == row[column]
    decreases |leaves|
  {
    hide ColumnOf, IsColumn, Normalized;
    if leaves != [] {
      var n := |leaves| - 1;
      StoredElsewhere(row, leaves[..n], values[..n], columns, column);
    }
  }

  lemma {:induction false} StoredAt(row: Row, leaves: seq<Member>, values: seq<Value>, columns: seq<string>, i: nat)
    requires |leaves| == |values| && i < |leaves| && DistinctColumns(leaves) && IsColumn(leaves[i]) && ColumnOf(leaves[i]) in columns
    ensures ColumnOf(leaves[i]) in Stored(row, leaves, values, columns)
    ensures Stored(row, leaves, values, columns)[ColumnOf(leaves[i])] == Normalized(values[i])
    decreases |leaves|
  {
    hide ColumnOf, IsColumn, Normalized;
    var n := |leaves| - 1;
    if i < n {
      StoredAt(row, leaves[..n], values[..n], columns, i);
    }
  }

  /** `patched` is `row` with every recorded change to a listed column applied, and nothing else. */
  predicate IsPatch(row: Row, changes: map<string, Change>, columns: seq<string>, patched: Row) {
    && patched.Keys == row.Keys
    && (forall name :: name in changes && changes[name].column in columns && changes[name].column in row ==>
          patched[changes[name].column] == changes[name].after)
    && (forall column :: column in row && patched[column] != row[column] ==>
          column in columns && exists name :: name in changes && changes[name].column == column)
  }

  lemma ChangeOfColumn(row: Row, leaves: seq<Member>, olds: seq<Value>, news: seq<Value>, columns: seq<string>, i: nat)
    requires |leaves| == |olds| == |news| && DistinctNames(leaves) && DistinctColumns(leaves) && Scanned(row, leaves, olds)
    requires i < |leaves| && IsColumn(leaves[i]) && ColumnOf(leaves[i]) in columns
    ensures var changes, written := Compared(leaves, olds, news, map[]), Stored(row, leaves, news, columns);
            ColumnOf(leaves[i]) in row && ColumnOf(leaves[i]) in written
            && (leaves[i].name in changes <==> row[ColumnOf(leaves[i])] != written[ColumnOf(leaves[i])])
            && (leaves[i].name in changes ==> changes[leaves[i].name].column == ColumnOf(leaves[i]))
            && (leaves[i].name in changes ==> written[ColumnOf(leaves[i])] == changes[leaves[i].name].after)
  {
    hide ColumnOf, IsColumn, Normalized, Compared, Stored;
    LeafIsRecorded(leaves, olds, news, i);
    StoredAt(row, leaves, news, columns, i);
  }

  lemma {:induction false} PatchColumns(row: Row, leaves: seq<Member>, news: seq<Value>, columns: seq<string>, column: string)
    requires |leaves| == |news|
    requires forall i :: 0 <= i < |leaves| && IsColumn(leaves[i]) ==> ColumnOf(leaves[i]) in row
    requires DistinctColumns(leaves)
    ensures column in Stored(row, leaves, news, columns) <==> column in row
  {
    hide ColumnOf, IsColumn, Normalized, Stored;
    if column in columns && exists i :: 0 <= i < |leaves| && IsColumn(leaves[i]) && ColumnOf(leaves[i]) == column {
      var i :| 0 <= i < |leaves| && IsColumn(leaves[i]) && ColumnOf(leaves[i]) == column;
      StoredAt(row, leaves, news, columns, i);
    } else {
      StoredElsewhere(row, leaves, news, columns, column);
    }
  }

  /** Writing the update columns of the new value is patching the scanned row with the recorded changes, and leaves
      the immutable columns alone. */
  lemma ChangesDescribeTheWrite(row: Row, leaves: seq<Member>, olds: seq<Value>, news: seq<Value>, columns: seq<string>)
    requires |leaves| == |olds| == |news| && DistinctNames(leaves) && DistinctColumns(leaves) && Scanned(row, leaves, olds)
    requires AreUpdateColumns(columns, Collected(leaves, map[]))
    ensures IsPatch(row, Compared(leaves, olds, news, map[]), columns, Stored(row, leaves, news, columns))
    ensures forall column :: column in IMMUTABLE && column in row ==>
              column in Stored(row, leaves, news, columns) && Stored(row, leaves, news, columns)[column] == row[column]
  {
    hide ColumnOf, IsColumn, Normalized, Compared, Stored, Collected, AreUpdateColumns, IMMUTABLE;
    UpdateColumnsAre(leaves, columns);
    var changes, written := Compared(leaves, olds, news, map[]), Stored(row, leaves, news, columns);
    forall column ensures column in written <==> column in row {
      PatchColumns(row, leaves, news, columns, column);
    }
    forall name | name in changes && changes[name].column in columns
      ensures changes[name].column in written && written[changes[name].column] == changes[name].after
    {
      var i := RecordedIsLeaf(leaves, olds, news, name);
      ChangeOfColumn(row, leaves, olds, news, columns, i);
    }
    forall column | column in row && written[column] != row[column]
      ensures column in columns && exists name :: name in changes && changes[name].column == column
    {
      if column !in columns || forall i :: 0 <= i < |leaves| && IsColumn(leaves[i]) ==> ColumnOf(leaves[i]) != column {
        StoredElsewhere(row, leaves, news, columns, column);
        assert false;
      }
      var i :| 0 <= i < |leaves| && IsColumn(leaves[i]) && ColumnOf(leaves[i]) == column;
      ChangeOfColumn(row, leaves, olds, news, columns, i);
      assert leaves[i].name in changes;
    }
  }
}
