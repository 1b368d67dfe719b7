/** Models that embed `model.Base` (model/base.go), as values. */
module Entities {
  import opened ModelSchema

  /** `model.Base`. */
  datatype Base = Base(id: Value, name: Value, description: Value, metadata: Value, createdAt: Value,
                       updatedAt: Value, deletedAt: Value, createdBy: Value, updatedBy: Value, deletedBy: Value)

  function Column(name: string, column: string): Member {
    Member(name, [column], true, false, Other)
  }

  const BASE_MEMBERS: seq<Member> :=
    [Column("ID", "id"), Column("Name", "name"), Column("Description", "description"), Column("Metadata", "metadata"),
     Column("CreatedAt", "created_at"), Column("UpdatedAt", "updated_at"), Column("DeletedAt", "deleted_at"),
     Column("CreatedBy", "created_by"), Column("UpdatedBy", "updated_by"), Column("DeletedBy", "deleted_by")]

  function BaseValues(base: Base): seq<Value> {
    [base.id, base.name, base.description, base.metadata, base.createdAt,
     base.updatedAt, base.deletedAt, base.createdBy, base.updatedBy, base.deletedBy]
  }

  /** The members of a model before and after its embedded `model.Base`. */
  datatype Layout = Layout(before: seq<Member>, after: seq<Member>)

  datatype Record = Record(before: seq<Value>, base: Base, after: seq<Value>)

  function Embedding(): Member {
    Member("Base", [], true, true, Struct(BASE_MEMBERS))
  }

  function Schema(layout: Layout): seq<Member> {
    layout.before + [Embedding()] + layout.after
  }

  function Values(record: Record): seq<Value> {
    record.before + [Embedded(BaseValues(record.base))] + record.after
  }

  predicate Fits(layout: Layout, record: Record) {
    Conforms(layout.before, record.before) && Conforms(layout.after, record.after)
  }

  lemma BaseIsFlat(base: Base)
    ensures Leaves(BASE_MEMBERS) == BASE_MEMBERS && Conforms(BASE_MEMBERS, BaseValues(base))
    ensures LeafValues(BASE_MEMBERS, BaseValues(base)) == BaseValues(base)
  {
    hide Conforms, Leaves, LeafValues;
    FlatLeaves(BASE_MEMBERS, BaseValues(base));
  }

  lemma EmbeddingLeaves(base: Base)
    ensures var value := Embedded(BaseValues(base));
            Conforms([Embedding()], [value]) && Leaves([Embedding()]) == BASE_MEMBERS
            && LeafValues([Embedding()], [value]) == BaseValues(base)
  {
    hide BASE_MEMBERS, BaseValues;
    BaseIsFlat(base);
    var value := Embedded(BaseValues(base));
    assert ConformsTo(Embedding(), value);
    LeavesSnoc([Embedding()], [value]);
    assert [Embedding()][..0] == [] && [value][..0] == [];
    NoLeaves();
  }

  /** A fitting record is a value of the model; its leaves are those before the base, the base's ten, and the rest. */
  lemma RecordLeaves(layout: Layout, record: Record)
    requires Fits(layout, record)
    ensures Conforms(Schema(layout), Values(record))
    ensures Leaves(Schema(layout)) == Leaves(layout.before) + BASE_MEMBERS + Leaves(layout.after)
    ensures LeafValues(Schema(layout), Values(record))
            == LeafValues(layout.before, record.before) + BaseValues(record.base) + LeafValues(layout.after, record.after)
  {
    hide Conforms, Leaves, LeafValues, BASE_MEMBERS, BaseValues;
    EmbeddingLeaves(record.base);
    var value := Embedded(BaseValues(record.base));
    LeavesAppend(layout.before, [Embedding()], record.before, [value]);
    LeavesAppend(layout.before + [Embedding()], layout.after, record.before + [value], record.after);
  }
}
