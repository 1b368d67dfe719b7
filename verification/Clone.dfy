/** `cloneReflect` of lifecycle/changes.go, over an explicit memory: recorded changes hold deep copies, so that a hook
    that edits a map or a slice of the entity in place does not rewrite what was recorded. */
module Clone {
  import opened ModelSchema

  /** A word holds a scalar, a nil, or the address of a map, a slice or the target of a pointer. */
  datatype Word = Immediate(value: Value) | NilWord | Ref(address: nat)

  datatype Cell = MapCell(entries: map<string, Word>) | SliceCell(items: seq<Word>) | PointerCell(target: Word)

  /** The word stands for the value, a finite tree. */
  predicate Denotes(cells: seq<Cell>, word: Word, value: Value)
    decreases value
  {
    match value
    case Nil => word.NilWord?
    case Scalar(_) => word == Immediate(value)
    case Instant(_, _) => word == Immediate(value)
    case Pointer(target) =>
      word.Ref? && word.address < |cells| && cells[word.address].PointerCell?
      && Denotes(cells, cells[word.address].target, target)
    case Slice(items) =>
      word.Ref? && word.address < |cells| && cells[word.address].SliceCell? && |cells[word.address].items| == |items|
      && forall i :: 0 <= i < |items| ==> Denotes(cells, cells[word.address].items[i], items[i])
    case Map(entries) =>
      word.Ref? && word.address < |cells| && cells[word.address].MapCell? && cells[word.address].entries.Keys == entries.Keys
      && forall key :: key in entries ==> Denotes(cells, cells[word.address].entries[key], entries[key])
    case Embedded(_) => false
  }

  /** Every address under the word lies in a range. */
  predicate Within(cells: seq<Cell>, word: Word, value: Value, low: nat, high: nat)
    requires Denotes(cells, word, value)
    decreases value
  {
    (word.Ref? ==> low <= word.address < high)
    && match value
       case Pointer(target) => Within(cells, cells[word.address].target, target, low, high)
       case Slice(items) => forall i :: 0 <= i < |items| ==> Within(cells, cells[word.address].items[i], items[i], low, high)
       case Map(entries) => forall key :: key in entries ==> Within(cells, cells[word.address].entries[key], entries[key], low, high)
       case _ => true
  }

  /** The two memories agree on a range of addresses. */
  predicate Agree(a: seq<Cell>, b: seq<Cell>, low: nat, high: nat) {
    high <= |a| && high <= |b| && forall i :: low <= i < high ==> a[i] == b[i]
  }

  /** What lies in a range survives every write outside it. */
  lemma {:induction false} Survives(a: seq<Cell>, b: seq<Cell>, word: Word, value: Value, low: nat, high: nat)
    requires Denotes(a, word, value) && Within(a, word, value, low, high) && Agree(a, b, low, high)
    ensures Denotes(b, word, value) && Within(b, word, value, low, high)
    decreases value
  {
    match value
    case Pointer(target) => Survives(a, b, a[word.address].target, target, low, high);
    case Slice(items) =>
      forall i | 0 <= i < |items|
        ensures Denotes(b, a[word.address].items[i], items[i]) && Within(b, a[word.address].items[i], items[i], low, high)
      {
        Survives(a, b, a[word.address].items[i], items[i], low, high);
      }
    case Map(entries) =>
      forall key | key in entries
        ensures Denotes(b, a[word.address].entries[key], entries[key]) && Within(b, a[word.address].entries[key], entries[key], low, high)
      {
        Survives(a, b, a[word.address].entries[key], entries[key], low, high);
      }
    case _ =>
  }

  lemma {:induction false} WithinMemory(cells: seq<Cell>, word: Word, value: Value)
    requires Denotes(cells, word, value)
    ensures Within(cells, word, value, 0, |cells|)
    decreases value
  {
    match value
    case Pointer(target) => WithinMemory(cells, cells[word.address].target, target);
    case Slice(items) =>
      forall i | 0 <= i < |items| ensures Within(cells, cells[word.address].items[i], items[i], 0, |cells|) {
        WithinMemory(cells, cells[word.address].items[i], items[i]);
      }
    case Map(entries) =>
      forall key | key in entries ensures Within(cells, cells[word.address].entries[key], entries[key], 0, |cells|) {
        WithinMemory(cells, cells[word.address].entries[key], entries[key]);
      }
    case _ =>
  }

  lemma {:induction false} Wider(cells: seq<Cell>, word: Word, value: Value, low: nat, high: nat, top: nat)
    requires Denotes(cells, word, value) && Within(cells, word, value, low, high) && high <= top
    ensures Within(cells, word, value, low, top)
    decreases value
  {
    match value
    case Pointer(target) => Wider(cells, cells[word.address].target, target, low, high, top);
    case Slice(items) =>
      forall i | 0 <= i < |items| ensures Within(cells, cells[word.address].items[i], items[i], low, top) {
        Wider(cells, cells[word.address].items[i], items[i], low, high, top);
      }
    case Map(entries) =>
      forall key | key in entries ensures Within(cells, cells[word.address].entries[key], entries[key], low, top) {
        Wider(cells, cells[word.address].entries[key], entries[key], low, high, top);
      }
    case _ =>
  }

  predicate Fresh(cells: seq<Cell>, word: Word, value: Value, low: nat) {
    Denotes(cells, word, value) && Within(cells, word, value, low, |cells|)
  }

  /** A fresh word stays fresh while the memory only grows. */
  lemma StaysFresh(cells: seq<Cell>, more: seq<Cell>, word: Word, value: Value, low: nat)
    requires Fresh(cells, word, value, low) && cells <= more
    ensures Fresh(more, word, value, low)
  {
    Survives(cells, more, word, value, low, |cells|);
    Wider(more, word, value, low, |cells|, |more|);
  }

  class Memory {
    var cells: seq<Cell>

    constructor ()
      ensures cells == []
    {
      cells := [];
    }

    method Allocate(cell: Cell) returns (word: Word)
      modifies this
      ensures word == Ref(|old(cells)|) && cells == old(cells) + [cell]
    {
      word := Ref(|cells|);
      cells := cells + [cell];
    }

    /** `cloneReflect`: the copy stands for the same value and shares nothing with what existed before. */
    method Clone(word: Word, ghost value: Value) returns (copy: Word)
      requires Denotes(cells, word, value)
      modifies this
      ensures old(cells) <= cells && Fresh(cells, copy, value, |old(cells)|)
      decreases value, 1
    {
      if !word.Ref? {
        return word;
      }
      match cells[word.address]
      case MapCell(entries) =>
        copy := CloneMap(entries, value);
      case SliceCell(items) =>
        copy := CloneSlice(items, value);
      case PointerCell(target) =>
        var cloned := Clone(target, value.target);
        ghost var before := cells;
        copy := Allocate(PointerCell(cloned));
        StaysFresh(before, cells, cloned, value.target, |old(cells)|);
    }

    method CloneSlice(items: seq<Word>, ghost value: Value) returns (copy: Word)
      requires value.Slice? && |items| == |value.items|
      requires forall i :: 0 <= i < |items| ==> Denotes(cells, items[i], value.items[i])
      modifies this
      ensures old(cells) <= cells && Fresh(cells, copy, value, |old(cells)|)
      decreases value, 0
    {
      hide Within, Denotes, Fresh;
      var cloned: seq<Word> := [];
      for i := 0 to |items|
        invariant old(cells) <= cells && |cloned| == i
        invariant forall j :: 0 <= j < i ==> Fresh(cells, cloned[j], value.items[j], |old(cells)|)
      {
        ghost var before := cells;
        StillDenotes(old(cells), cells, items[i], value.items[i]);
        var word := Clone(items[i], value.items[i]);
        forall j | 0 <= j < i ensures Fresh(cells, cloned[j], value.items[j], |old(cells)|) {
          StaysFresh(before, cells, cloned[j], value.items[j], |old(cells)|);
        }
        FreshSince(cells, word, value.items[i], |old(cells)|, |before|);
        cloned := cloned + [word];
      }
      ghost var before := cells;
      copy := Allocate(SliceCell(cloned));
      forall j | 0 <= j < |items| ensures Fresh(cells, cloned[j], value.items[j], |old(cells)|) {
        StaysFresh(before, cells, cloned[j], value.items[j], |old(cells)|);
      }
      SliceIsFresh(cells, copy, value, |old(cells)|);
    }

    method CloneMap(entries: map<string, Word>, ghost value: Value) returns (copy: Word)
      requires value.Map? && entries.Keys == value.entries.Keys
      requires forall key :: key in entries ==> Denotes(cells, entries[key], value.entries[key])
      modifies this
      ensures old(cells) <= cells && Fresh(cells, copy, value, |old(cells)|)
      decreases value, 0
    {
      hide Within, Denotes, Fresh;
      var cloned: map<string, Word> := map[];
      var remaining := entries.Keys;
      while remaining != {}
        invariant old(cells) <= cells && remaining <= entries.Keys && cloned.Keys == entries.Keys - remaining
        invariant forall key :: key in cloned ==> Fresh(cells, cloned[key], value.entries[key], |old(cells)|)
        decreases |remaining|
      {
        var key :| key in remaining;
        ghost var before := cells;
        StillDenotes(old(cells), cells, entries[key], value.entries[key]);
        var word := Clone(entries[key], value.entries[key]);
        forall other | other in cloned ensures Fresh(cells, cloned[other], value.entries[other], |old(cells)|) {
          StaysFresh(before, cells, cloned[other], value.entries[other], |old(cells)|);
        }
        FreshSince(cells, word, value.entries[key], |old(cells)|, |before|);
        cloned := cloned[key := word];
        remaining := remaining - {key};
      }
      ghost var before := cells;
      copy := Allocate(MapCell(cloned));
      forall key | key in entries ensures Fresh(cells, cloned[key], value.entries[key], |old(cells)|) {
        StaysFresh(before, cells, cloned[key], value.entries[key], |old(cells)|);
      }
      MapIsFresh(cells, copy, value, |old(cells)|);
    }
  }

  lemma StillDenotes(cells: seq<Cell>, more: seq<Cell>, word: Word, value: Value)
    requires Denotes(cells, word, value) && cells <= more
    ensures Denotes(more, word, value)
  {
    WithinMemory(cells, word, value);
    Survives(cells, more, word, value, 0, |cells|);
  }

  lemma SliceIsFresh(cells: seq<Cell>, copy: Word, value: Value, low: nat)
    requires value.Slice? && copy.Ref? && low <= copy.address < |cells| && cells[copy.address].SliceCell?
    requires |cells[copy.address].items| == |value.items|
    requires forall i :: 0 <= i < |value.items| ==> Fresh(cells, cells[copy.address].items[i], value.items[i], low)
    ensures Fresh(cells, copy, value, low)
  {
  }

  lemma MapIsFresh(cells: seq<Cell>, copy: Word, value: Value, low: nat)
    requires value.Map? && copy.Ref? && low <= copy.address < |cells| && cells[copy.address].MapCell?
    requires cells[copy.address].entries.Keys == value.entries.Keys
    requires forall key :: key in value.entries ==> Fresh(cells, cells[copy.address].entries[key], value.entries[key], low)
    ensures Fresh(cells, copy, value, low)
  {
  }

  lemma {:induction false} FreshSince(cells: seq<Cell>, word: Word, value: Value, low: nat, since: nat)
    requires Fresh(cells, word, value, since) && low <= since
    ensures Fresh(cells, word, value, low)
    decreases value
  {
    match value
    case Pointer(target) => FreshSince(cells, cells[word.address].target, target, low, since);
    case Slice(items) =>
      forall i | 0 <= i < |items| ensures Fresh(cells, cells[word.address].items[i], items[i], low) {
        FreshSince(cells, cells[word.address].items[i], items[i], low, since);
      }
    case Map(entries) =>
      forall key | key in entries ensures Fresh(cells, cells[word.address].entries[key], entries[key], low) {
        FreshSince(cells, cells[word.address].entries[key], entries[key], low, since);
      }
    case _ =>
  }

  /** A copy taken when the memory had `low` cells keeps its value whatever is later written to those cells. */
  lemma CopySurvivesEdits(cells: seq<Cell>, edited: seq<Cell>, copy: Word, value: Value, low: nat)
    requires Fresh(cells, copy, value, low)
    requires |edited| >= |cells| && forall i :: low <= i < |cells| ==> edited[i] == cells[i]
    ensures Denotes(edited, copy, value)
  {
    Survives(cells, edited, copy, value, low, |cells|);
  }

  /** Recording the word itself would not do: editing a slice in place changes what it stands for. */
  lemma SharingIsNotEnough(text: string)
    requires text != ""
    ensures var cells := [SliceCell([Immediate(Scalar(""))])];
            Denotes(cells, Ref(0), Slice([Scalar("")]))
            && !Denotes([SliceCell([Immediate(Scalar(text))])], Ref(0), Slice([Scalar("")]))
  {
    var items := [Scalar("")];
    assert items[0] == Scalar("");
  }
}
