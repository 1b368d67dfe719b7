/** The changes that lifecycle/changes.go records, kept in memory: each holds copies of the compared values, so that what a
    comparison recorded stays, whatever hooks edit in place afterwards. */
module Recording {
  import opened ModelSchema
  import opened Changes
  import opened Clone

  /** The words of a change's old and new value. */
  datatype Kept = Kept(before: Word, after: Word)

  predicate Stands(cells: seq<Cell>, words: map<string, Kept>, changes: map<string, Change>) {
    words.Keys == changes.Keys
    && forall name :: name in changes ==>
         Denotes(cells, words[name].before, changes[name].before) && Denotes(cells, words[name].after, changes[name].after)
  }

  /** One change in cells that did not exist when the memory had `low` of them. */
  predicate FreshChange(cells: seq<Cell>, kept: Kept, change: Change, low: nat) {
    Fresh(cells, kept.before, change.before, low) && Fresh(cells, kept.after, change.after, low)
  }

  lemma ChangeStaysFresh(cells: seq<Cell>, more: seq<Cell>, kept: Kept, change: Change, low: nat)
    requires FreshChange(cells, kept, change, low) && cells <= more
    ensures FreshChange(more, kept, change, low)
  {
    StaysFresh(cells, more, kept.before, change.before, low);
    StaysFresh(cells, more, kept.after, change.after, low);
  }

  method CloneChange(memory: Memory, words: Kept, ghost change: Change) returns (kept: Kept)
    requires Denotes(memory.cells, words.before, change.before) && Denotes(memory.cells, words.after, change.after)
    modifies memory
    ensures old(memory.cells) <= memory.cells && FreshChange(memory.cells, kept, change, |old(memory.cells)|)
  {
    hide Denotes, Within;
    var before := memory.Clone(words.before, change.before);
    ghost var middle := memory.cells;
    StillDenotes(old(memory.cells), memory.cells, words.after, change.after);
    var after := memory.Clone(words.after, change.after);
    StaysFresh(middle, memory.cells, before, change.before, |old(memory.cells)|);
    FreshSince(memory.cells, after, change.after, |old(memory.cells)|, |middle|);
    kept := Kept(before, after);
  }

  /** The copies that a comparison stores, from the words of the values it found to differ. */
  method Record(memory: Memory, words: map<string, Kept>, ghost changes: map<string, Change>) returns (kept: map<string, Kept>)
    requires Stands(memory.cells, words, changes)
    modifies memory
    ensures old(memory.cells) <= memory.cells && kept.Keys == changes.Keys
    ensures forall name :: name in changes ==> FreshChange(memory.cells, kept[name], changes[name], |old(memory.cells)|)
  {
    hide Denotes, Within, FreshChange;
    kept := map[];
    var remaining := words.Keys;
    while remaining != {}
      invariant old(memory.cells) <= memory.cells && remaining <= words.Keys && kept.Keys == words.Keys - remaining
      invariant forall name :: name in kept ==> FreshChange(memory.cells, kept[name], changes[name], |old(memory.cells)|)
      decreases |remaining|
    {
      var name :| name in remaining;
      ghost var before := memory.cells;
      StillDenotes(old(memory.cells), memory.cells, words[name].before, changes[name].before);
      StillDenotes(old(memory.cells), memory.cells, words[name].after, changes[name].after);
      var copy := CloneChange(memory, words[name], changes[name]);
      forall other | other in kept ensures FreshChange(memory.cells, kept[other], changes[other], |old(memory.cells)|) {
        ChangeStaysFresh(before, memory.cells, kept[other], changes[other], |old(memory.cells)|);
      }
      FreshChangeSince(memory.cells, copy, changes[name], |old(memory.cells)|, |before|);
      kept := kept[name := copy];
      remaining := remaining - {name};
    }
  }

  lemma FreshChangeSince(cells: seq<Cell>, kept: Kept, change: Change, low: nat, since: nat)
    requires FreshChange(cells, kept, change, since) && low <= since
    ensures FreshChange(cells, kept, change, low)
  {
    FreshSince(cells, kept.before, change.before, low, since);
    FreshSince(cells, kept.after, change.after, low, since);
  }

  /** What a comparison recorded stays what it found: after any writes to cells that existed before the comparison, or that
      were added after it, the copies of a leaf stand for its normalised values at the time of the comparison, and there are
      such copies exactly when these differed. */
  lemma RecordedChangesStay(cells: seq<Cell>, edited: seq<Cell>, kept: map<string, Kept>, low: nat,
                            schema: seq<Member>, olds: seq<Value>, news: seq<Value>, i: nat)
    requires Conforms(schema, olds) && Conforms(schema, news) && DistinctNames(Leaves(schema)) && i < |Leaves(schema)|
    requires var changes := Comparison(schema, olds, news);
             kept.Keys == changes.Keys && forall name :: name in changes ==> FreshChange(cells, kept[name], changes[name], low)
    requires |edited| >= |cells| && forall k :: low <= k < |cells| ==> edited[k] == cells[k]
    ensures |LeafValues(schema, olds)| == |LeafValues(schema, news)| == |Leaves(schema)|
    ensures var name, before, after := Leaves(schema)[i].name, Normalized(LeafValues(schema, olds)[i]), Normalized(LeafValues(schema, news)[i]);
            (name in kept <==> before != after)
            && (name in kept ==> Denotes(edited, kept[name].before, before) && Denotes(edited, kept[name].after, after))
  {
    hide Leaves, LeafValues, Conforms, Normalized, Denotes, Within, Compared;
    var name, changes := Leaves(schema)[i].name, Comparison(schema, olds, news);
    LeafIsRecorded(Leaves(schema), LeafValues(schema, olds), LeafValues(schema, news), i);
    if name in kept {
      CopySurvivesEdits(cells, edited, kept[name].before, changes[name].before, low);
      CopySurvivesEdits(cells, edited, kept[name].after, changes[name].after, low);
    }
  }
}
