/** Model types as repository/metadata.go and lifecycle/changes.go walk them: a struct type is a list of members,
    an embedded struct without a tag is walked in place, and a struct value lists its members' values. */
module ModelSchema {
  import Names
  import Ordering

  datatype Shape = Struct(fields: seq<Member>) | Other

  /** A struct member; `tag` is its `bun` tag cut at the commas, `[]` when there is none. */
  datatype Member = Member(name: string, tag: seq<string>, exported: bool, anonymous: bool, shape: Shape)

  /** Values as reflection sees them. `Instant` is `time.Time`; `Embedded` is the value of an embedded struct. */
  datatype Value =
    | Nil
    | Scalar(text: string)
    | Instant(nanoseconds: int, zone: string)
    | Pointer(target: Value)
    | Slice(items: seq<Value>)
    | Map(entries: map<string, Value>)
    | Embedded(fields: seq<Value>)

  function FirstTagPart(tag: seq<string>): string {
    if tag == [] then "" else tag[0]
  }

  /** `snakeCase` of either package, which agree on ASCII names. */
  function SnakeCase(name: string): string {
    if name == "" then ""
    else
      var last := name[|name| - 1];
      SnakeCase(name[..|name| - 1]) + (if |name| > 1 && Names.IsUpper(last) then ['_'] else []) + [Names.ToLower(last)]
  }

  function ColumnOf(member: Member): string {
    var first := FirstTagPart(member.tag);
    if first == "" then SnakeCase(member.name) else first
  }

  /** An embedded struct whose members are walked as if they were the model's own. */
  predicate Descends(member: Member) {
    member.exported && member.anonymous && member.shape.Struct? && member.tag == []
  }

  /** A member that `compareStruct` compares as one value. */
  predicate IsLeaf(member: Member) {
    member.exported && FirstTagPart(member.tag) != "-" && !Descends(member)
  }

  const TABLE := "table:"

  /** A member that `collectFields` takes for a column. */
  predicate IsColumn(member: Member) {
    var first := FirstTagPart(member.tag);
    IsLeaf(member) && !(|first| >= |TABLE| && first[..|TABLE|] == TABLE)
    && !(member.anonymous && first == "" && member.shape.Other?)
  }

  /** The leaves of a struct type, in the order in which they are visited. */
  function Leaves(schema: seq<Member>): (leaves: seq<Member>)
    ensures forall i :: 0 <= i < |leaves| ==> IsLeaf(leaves[i])
  {
    if schema == [] then []
    else Leaves(schema[..|schema| - 1]) + LeavesOf(schema[|schema| - 1])
  }

  function LeavesOf(member: Member): (leaves: seq<Member>)
    ensures forall i :: 0 <= i < |leaves| ==> IsLeaf(leaves[i])
  {
    if Descends(member) then Leaves(member.shape.fields) else if IsLeaf(member) then [member] else []
  }

  /** A struct value has a value for every member, and struct values where structs are walked. */
  predicate Conforms(schema: seq<Member>, values: seq<Value>) {
    |schema| == |values| && forall i :: 0 <= i < |schema| ==> ConformsTo(schema[i], values[i])
  }

  predicate ConformsTo(member: Member, value: Value) {
    Descends(member) ==> value.Embedded? && Conforms(member.shape.fields, value.fields)
  }

  /** The values of the leaves, in the same order. */
  function LeafValues(schema: seq<Member>, values: seq<Value>): (leafValues: seq<Value>)
    requires Conforms(schema, values)
    ensures |leafValues| == |Leaves(schema)|
  {
    if schema == [] then []
    else
      var n := |schema| - 1;
      LeafValues(schema[..n], values[..n]) + LeafValuesOf(schema[n], values[n])
  }

  function LeafValuesOf(member: Member, value: Value): (leafValues: seq<Value>)
    requires ConformsTo(member, value)
    ensures |leafValues| == |LeavesOf(member)|
    decreases member
  {
    if Descends(member) then LeafValues(member.shape.fields, value.fields) else if IsLeaf(member) then [value] else []
  }

  // ------------------------------------------------------------------------------------ repository metadata

  /** `fieldsByName` after visiting the leaves. */
  function Collected(leaves: seq<Member>, fields: map<string, string>): map<string, string>
    decreases |leaves|
  {
    if leaves == [] then fields
    else
      var last := leaves[|leaves| - 1];
      var rest := Collected(leaves[..|leaves| - 1], fields);
      if IsColumn(last) then rest[last.name := ColumnOf(last)] else rest
  }

  lemma {:induction false} CollectedAppend(a: seq<Member>, b: seq<Member>, fields: map<string, string>)
    ensures Collected(a + b, fields) == Collected(b, Collected(a, fields))
    decreases |b|
  {
    if b == [] {
      assert a + b == a;
    } else {
      assert (a + b)[..|a + b| - 1] == a + b[..|b| - 1];
      CollectedAppend(a, b[..|b| - 1], fields);
    }
  }

  const IMMUTABLE: set<string> := {"id", "created_at", "created_by", "deleted_at", "deleted_by"}

  class ModelMetadata {
    var fieldsByName: map<string, string>
    var updateColumns: seq<string>

    constructor ()
      ensures fieldsByName == map[] && updateColumns == []
    {
      fieldsByName := map[];
      updateColumns := [];
    }

    method CollectFields(schema: seq<Member>)
      modifies this`fieldsByName
      ensures fieldsByName == Collected(Leaves(schema), old(fieldsByName))
      decreases schema
    {
      for i := 0 to |schema|
        invariant fieldsByName == Collected(Leaves(schema[..i]), old(fieldsByName))
      {
        var field := schema[i];
        ghost var before := fieldsByName;
        CollectField(field);
        CollectedAppend(Leaves(schema[..i]), LeavesOf(field), old(fieldsByName));
        assert schema[..i + 1][..i] == schema[..i];
      }
      assert schema[..|schema|] == schema;
    }

    method CollectField(field: Member)
      modifies this`fieldsByName
      ensures fieldsByName == Collected(LeavesOf(field), old(fieldsByName))
      decreases field
    {
      hide Collected;
      CollectedOne(field, fieldsByName);
      if !field.exported {
        return;
      }
      var first := FirstTagPart(field.tag);
      if first == "-" || (|first| >= |TABLE| && first[..|TABLE|] == TABLE) {
        return;
      }
      if field.anonymous && field.shape.Struct? && |field.tag| == 0 {
        CollectFields(field.shape.fields);
        return;
      }
      if field.anonymous && first == "" && !field.shape.Struct? {
        return;
      }
      fieldsByName := fieldsByName[field.name := ColumnOf(field)];
    }

    /** Lists the columns that an update writes; the map gives them in any order. */
    method Inspect(schema: seq<Member>)
      requires fieldsByName == map[] && updateColumns == []
      modifies this
      ensures fieldsByName == Collected(Leaves(schema), map[])
      ensures AreUpdateColumns(updateColumns, fieldsByName)
    {
      CollectFields(schema);
      var remaining := fieldsByName.Keys;
      while remaining != {}
        invariant remaining <= fieldsByName.Keys
        invariant forall i :: 0 <= i < |updateColumns| ==> updateColumns[i] in fieldsByName.Values && updateColumns[i] !in IMMUTABLE
        invariant forall name :: name in fieldsByName && name !in remaining && fieldsByName[name] !in IMMUTABLE ==>
                    fieldsByName[name] in updateColumns
        invariant fieldsByName == Collected(Leaves(schema), map[])
        decreases |remaining|
      {
        var name :| name in remaining;
        remaining := remaining - {name};
        if fieldsByName[name] !in IMMUTABLE {
          updateColumns := updateColumns + [fieldsByName[name]];
        }
      }
    }

    /** `updateColumns` of the repository sorts a copy. */
    method UpdateColumns() returns (columns: seq<string>)
      requires AreUpdateColumns(updateColumns, fieldsByName)
      ensures AreUpdateColumns(columns, fieldsByName) && Ordering.Sorted(columns)
    {
      columns := Ordering.Sort(updateColumns);
      Ordering.SortSorts(updateColumns);
      SameMembers(columns, updateColumns);
    }
  }

  lemma SameMembers(a: seq<string>, b: seq<string>)
    requires multiset(a) == multiset(b)
    ensures forall x :: x in a <==> x in b
  {
    forall x ensures x in a <==> x in b {
      assert x in a <==> x in multiset(a);
      assert x in b <==> x in multiset(b);
    }
  }

  lemma CollectedOne(field: Member, fields: map<string, string>)
    ensures Collected([], fields) == fields
    ensures Collected([field], fields) == if IsColumn(field) then fields[field.name := ColumnOf(field)] else fields
  {
    assert [field][..0] == [];
  }

  /** The columns of all fields but the immutable ones. */
  ghost predicate AreUpdateColumns(columns: seq<string>, fieldsByName: map<string, string>) {
    forall column :: column in columns <==> column in fieldsByName.Values && column !in IMMUTABLE
  }

  // ----------------------------------------------------------------------------------- facts about leaves

  predicate DistinctNames(leaves: seq<Member>) {
    forall i, j :: 0 <= i < j < |leaves| ==> leaves[i].name != leaves[j].name
  }

  predicate DistinctColumns(leaves: seq<Member>) {
    forall i, j :: 0 <= i < j < |leaves| ==> ColumnOf(leaves[i]) != ColumnOf(leaves[j])
  }

  lemma {:induction false} CollectedIs(leaves: seq<Member>, name: string)
    ensures name in Collected(leaves, map[]) ==>
              exists i :: 0 <= i < |leaves| && IsColumn(leaves[i]) && leaves[i].name == name
                          && ColumnOf(leaves[i]) == Collected(leaves, map[])[name]
    decreases |leaves|
  {
    hide IsColumn, ColumnOf;
    if leaves != [] {
      var n := |leaves| - 1;
      CollectedIs(leaves[..n], name);
      if name in Collected(leaves, map[]) && !(IsColumn(leaves[n]) && leaves[n].name == name) {
        var i :| 0 <= i < n && IsColumn(leaves[..n][i]) && leaves[..n][i].name == name
                 && ColumnOf(leaves[..n][i]) == Collected(leaves[..n], map[])[name];
        assert leaves[i] == leaves[..n][i];
      }
    }
  }

  lemma {:induction false} ColumnIsCollected(leaves: seq<Member>, i: nat)
    requires i < |leaves| && DistinctNames(leaves) && IsColumn(leaves[i])
    ensures leaves[i].name in Collected(leaves, map[]) && Collected(leaves, map[])[leaves[i].name] == ColumnOf(leaves[i])
    decreases |leaves|
  {
    hide IsColumn, ColumnOf;
    if i < |leaves| - 1 {
      ColumnIsCollected(leaves[..|leaves| - 1], i);
    }
  }

  /** The update columns are the mutable columns of the leaves. */
  lemma UpdateColumnsAre(leaves: seq<Member>, columns: seq<string>)
    requires DistinctNames(leaves) && AreUpdateColumns(columns, Collected(leaves, map[]))
    ensures forall i :: 0 <= i < |leaves| && IsColumn(leaves[i]) ==> (ColumnOf(leaves[i]) in columns <==> ColumnOf(leaves[i]) !in IMMUTABLE)
    ensures forall column :: column in columns ==>
              column !in IMMUTABLE && exists i :: 0 <= i < |leaves| && IsColumn(leaves[i]) && ColumnOf(leaves[i]) == column
  {
    hide IsColumn, ColumnOf, Collected, IMMUTABLE;
    var fields := Collected(leaves, map[]);
    forall i | 0 <= i < |leaves| && IsColumn(leaves[i]) ensures ColumnOf(leaves[i]) in columns <==> ColumnOf(leaves[i]) !in IMMUTABLE {
      ColumnIsCollected(leaves, i);
      assert fields[leaves[i].name] in fields.Values;
    }
    forall column | column in columns
      ensures column !in IMMUTABLE && exists i :: 0 <= i < |leaves| && IsColumn(leaves[i]) && ColumnOf(leaves[i]) == column
    {
      var name :| name in fields && fields[name] == column;
      CollectedIs(leaves, name);
    }
  }

  lemma LeavesSnoc(schema: seq<Member>, values: seq<Value>)
    requires schema != [] && Conforms(schema, values)
    ensures var n := |schema| - 1;
            Conforms(schema[..n], values[..n]) && ConformsTo(schema[n], values[n])
            && Leaves(schema) == Leaves(schema[..n]) + LeavesOf(schema[n])
            && LeafValues(schema, values) == LeafValues(schema[..n], values[..n]) + LeafValuesOf(schema[n], values[n])
  {
    hide LeavesOf, LeafValuesOf, ConformsTo;
  }

  lemma NoLeaves()
    ensures Leaves([]) == [] && LeafValues([], []) == []
  {
  }

  lemma OneLeaf(member: Member, value: Value)
    requires IsLeaf(member)
    ensures LeavesOf(member) == [member] && ConformsTo(member, value) && LeafValuesOf(member, value) == [value]
  {
  }

  lemma {:induction false} FlatLeaves(schema: seq<Member>, values: seq<Value>)
    requires |schema| == |values| && forall i :: 0 <= i < |schema| ==> IsLeaf(schema[i])
    ensures Leaves(schema) == schema && Conforms(schema, values) && LeafValues(schema, values) == values
    decreases |schema|
  {
    hide IsLeaf, LeavesOf, LeafValuesOf, ConformsTo, Leaves, LeafValues;
    forall i | 0 <= i < |schema| ensures ConformsTo(schema[i], values[i]) {
      OneLeaf(schema[i], values[i]);
    }
    if schema == [] {
      NoLeaves();
    } else {
      var n := |schema| - 1;
      FlatLeaves(schema[..n], values[..n]);
      LeavesSnoc(schema, values);
      OneLeaf(schema[n], values[n]);
      assert schema == schema[..n] + [schema[n]] && values == values[..n] + [values[n]];
    }
  }

  lemma {:induction false} LeavesAppend(a: seq<Member>, b: seq<Member>, x: seq<Value>, y: seq<Value>)
    requires Conforms(a, x) && Conforms(b, y)
    ensures Conforms(a + b, x + y)
    ensures Leaves(a + b) == Leaves(a) + Leaves(b) && LeafValues(a + b, x + y) == LeafValues(a, x) + LeafValues(b, y)
    decreases |b|
  {
    hide LeavesOf, LeafValuesOf, ConformsTo, Leaves, LeafValues;
    assert Conforms(a + b, x + y);
    if b == [] {
      assert a + b == a && x + y == x;
      NoLeaves();
    } else {
      var n, m := |b| - 1, |a| + |b| - 1;
      LeavesAppend(a, b[..n], x, y[..n]);
      assert (a + b)[..m] == a + b[..n] && (x + y)[..m] == x + y[..n];
      assert (a + b)[m] == b[n] && (x + y)[m] == y[n];
      LeavesSnoc(a + b, x + y);
      LeavesSnoc(b, y);
    }
  }

  // --------------------------------------------------------------------------------- names and members

  /** A capitalised word ends where the next one begins. */
  lemma {:induction false} SnakeCaseOfWords(a: string, b: string)
    requires a != "" && b != "" && Names.IsUpper(b[0])
    ensures SnakeCase(a + b) == SnakeCase(a) + "_" + SnakeCase(b)
    decreases |b|
  {
    var n := |b| - 1;
    assert (a + b)[|a + b| - 1] == b[n] && (a + b)[..|a + b| - 1] == a + b[..n];
    if n == 0 {
      assert a + b[..0] == a && b[..0] == "";
    } else {
      SnakeCaseOfWords(a, b[..n]);
    }
  }

  /** A word without another capital is only lowered. */
  lemma {:induction false} SnakeCaseOfOneWord(word: string)
    requires forall i :: 0 < i < |word| ==> !Names.IsUpper(word[i])
    ensures |SnakeCase(word)| == |word| && forall i :: 0 <= i < |word| ==> SnakeCase(word)[i] == Names.ToLower(word[i])
    decreases |word|
  {
    if word != "" {
      SnakeCaseOfOneWord(word[..|word| - 1]);
    }
  }

  /** A member of the model itself is compared as one value exactly when it is exported, not excluded by its tag, and no
      untagged embedded struct; the members of such a struct are compared as the model's own. */
  lemma {:induction false} LeavesAreMembers(schema: seq<Member>, member: Member)
    ensures member in Leaves(schema) <==>
            exists i :: 0 <= i < |schema|
              && (if schema[i].exported && schema[i].anonymous && schema[i].shape.Struct? && schema[i].tag == []
                  then member in Leaves(schema[i].shape.fields)
                  else member == schema[i] && member.exported && (member.tag == [] || member.tag[0] != "-"))
    decreases |schema|
  {
    if schema != [] {
      var n := |schema| - 1;
      var before := schema[..n];
      LeavesAreMembers(before, member);
      assert forall i :: 0 <= i < n ==> before[i] == schema[i];
      assert member in Leaves(schema) <==> member in Leaves(before) || member in LeavesOf(schema[n]);
    }
  }
}
