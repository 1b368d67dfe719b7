/** The soft-delete protocol of repository/repository.go: any number of clients interleave finds,
    guarded writes, commits and rollbacks on shared rows. Reads see committed rows and the client's own
    writes (read committed); a write waits for the row's lock, tests its WHERE clause on the row it then
    sees, and holds the lock until its transaction ends. */
module SoftDelete {
  import opened Text

  type Id = nat
  type ClientId = nat
  type Time = int
  type Data = int

  /** A row: its deletion time, and the update columns as one value. */
  datatype Row = Row(deletedAt: Option<Time>, data: Data)

  datatype Operation =
    | Create(id: Id, deletedAt: Option<Time>, data: Data)
    | Update(id: Id, data: Data)
    | Delete(id: Id, at: Time)
    | Restore(id: Id)
    | ForceDelete(id: Id)

  /** What a write did to its row. An insertion takes the deletion time from the entity, as the caller and the hooks
      left it. */
  datatype Change = Inserted(deletedAt: Option<Time>, data: Data) | Updated(data: Data) | Deleted(at: Time) | Restored | ForceDeleted

  datatype Entry = Entry(id: Id, change: Change)

  /** `Found(operation)` is a client between its find and its write. */
  datatype Task = Idle | Found(operation: Operation)

  /** A client's transaction: its own writes in order, its locks, and whether it can only roll back. */
  datatype Client = Client(changes: seq<Entry>, locked: set<Id>, doomed: bool, task: Task)

  datatype State = State(rows: map<Id, Row>, history: seq<Entry>, clients: map<ClientId, Client>)

  const NEW_CLIENT := Client([], {}, false, Idle)

  function Get(rows: map<Id, Row>, id: Id): Option<Row> {
    if id in rows then Some(rows[id]) else None
  }

  function Put(rows: map<Id, Row>, id: Id, row: Option<Row>): map<Id, Row> {
    if row.Some? then rows[id := row.value] else rows - {id}
  }

  /** What the statement of an operation writes: Update leaves `deleted_at` alone, and the deletion
      statements write it and no data. */
  function ChangeOf(operation: Operation): Change {
    match operation
    case Create(_, deletedAt, data) => Inserted(deletedAt, data)
    case Update(_, data) => Updated(data)
    case Delete(_, at) => Deleted(at)
    case Restore(_) => Restored
    case ForceDelete(_) => ForceDeleted
  }

  function Apply(row: Option<Row>, change: Change): Option<Row> {
    match change
    case Inserted(deletedAt, data) => Some(Row(deletedAt, data))
    case Updated(data) => if row.Some? then Some(row.value.(data := data)) else None
    case Deleted(at) => if row.Some? then Some(row.value.(deletedAt := Some(at))) else None
    case Restored => if row.Some? then Some(row.value.(deletedAt := None)) else None
    case ForceDeleted => None
  }

  /** The scope of the find, which is also the guard of the statement. Insertion needs a free id. */
  predicate Admits(operation: Operation, row: Option<Row>) {
    match operation
    case Create(_, _, _) => row.None?
    case Update(_, _) => row.Some? && row.value.deletedAt.None?
    case Delete(_, _) => row.Some? && row.value.deletedAt.None?
    case Restore(_) => row.Some? && row.value.deletedAt.Some?
    case ForceDelete(_) => row.Some?
  }

  function ChangesOf(entries: seq<Entry>, id: Id): seq<Change> {
    if entries == [] then []
    else if entries[0].id == id then [entries[0].change] + ChangesOf(entries[1..], id)
    else ChangesOf(entries[1..], id)
  }

  function ApplyAll(row: Option<Row>, changes: seq<Change>): Option<Row>
    decreases |changes|
  {
    if changes == [] then row else ApplyAll(Apply(row, changes[0]), changes[1..])
  }

  /** The row as the client sees it. */
  function View(s: State, c: ClientId, id: Id): Option<Row>
    requires c in s.clients
  {
    ApplyAll(Get(s.rows, id), ChangesOf(s.clients[c].changes, id))
  }

  predicate LockFree(s: State, c: ClientId, id: Id) {
    forall other :: other in s.clients && other != c ==> id !in s.clients[other].locked
  }

  // ---- Steps

  datatype Step =
    | Find(client: ClientId, operation: Operation)
    | Write(client: ClientId)
    | Insert(client: ClientId, id: Id, deletedAt: Option<Time>, data: Data)
    | Commit(client: ClientId)
    | Rollback(client: ClientId)

  function Publish(rows: map<Id, Row>, entries: seq<Entry>): map<Id, Row>
    decreases |entries|
  {
    if entries == [] then rows
    else Publish(Put(rows, entries[0].id, Apply(Get(rows, entries[0].id), entries[0].change)), entries[1..])
  }

  /** The statement of `operation` by a client that holds or can take the row's lock: it affects its row or,
      when its guard fails, no row, which makes the operation and so its transaction fail. */
  function Execute(s: State, c: ClientId, operation: Operation): State
    requires c in s.clients
  {
    var client := s.clients[c];
    if Admits(operation, View(s, c, operation.id)) then
      s.(clients := s.clients[c := client.(changes := client.changes + [Entry(operation.id, ChangeOf(operation))],
                                           locked := client.locked + {operation.id}, task := Idle)])
    else
      s.(clients := s.clients[c := client.(doomed := true, task := Idle)])
  }

  /** The state after a step; `None` when the step is not possible. */
  function Next(s: State, step: Step): Option<State> {
    if step.client !in s.clients then None
    else
      var c, client := step.client, s.clients[step.client];
      match step
      case Find(_, operation) =>
        if !client.task.Idle? || operation.Create? then None
        else if Admits(operation, View(s, c, operation.id)) then
          Some(s.(clients := s.clients[c := client.(task := Found(operation))]))
        else Some(s.(clients := s.clients[c := client.(doomed := true)]))
      case Write(_) =>
        if client.task.Idle? || !LockFree(s, c, client.task.operation.id) then None
        else Some(Execute(s, c, client.task.operation))
      case Insert(_, id, deletedAt, data) =>
        if !client.task.Idle? || !LockFree(s, c, id) then None
        else Some(Execute(s, c, Create(id, deletedAt, data)))
      case Commit(_) =>
        if !client.task.Idle? || client.doomed then None
        else
          Some(State(Publish(s.rows, client.changes), s.history + client.changes, s.clients[c := NEW_CLIENT]))
      case Rollback(_) =>
        Some(s.(clients := s.clients[c := NEW_CLIENT]))
  }

  /** Running a list of steps; `None` when one of them is not possible. */
  function Run(s: State, steps: seq<Step>): Option<State>
    decreases |steps|
  {
    if steps == [] then Some(s)
    else
      var next := Next(s, steps[0]);
      if next.None? then None else Run(next.value, steps[1..])
  }

  predicate Initial(s: State) {
    s.rows == map[] && s.history == [] && forall c :: c in s.clients ==> s.clients[c] == NEW_CLIENT
  }

  // ---- The life of a row

  /** Whether a row in the given state may undergo the change: the row automaton. */
  predicate Legal(row: Option<Row>, change: Change) {
    match change
    case Inserted(_, _) => row.None?
    case Updated(_) => row.Some? && row.value.deletedAt.None?
    case Deleted(_) => row.Some? && row.value.deletedAt.None?
    case Restored => row.Some? && row.value.deletedAt.Some?
    case ForceDeleted => row.Some?
  }

  predicate LegalLife(row: Option<Row>, changes: seq<Change>)
    decreases |changes|
  {
    changes == [] || (Legal(row, changes[0]) && LegalLife(Apply(row, changes[0]), changes[1..]))
  }

  lemma {:induction false} ChangesOfAppend(a: seq<Entry>, b: seq<Entry>, id: Id)
    ensures ChangesOf(a + b, id) == ChangesOf(a, id) + ChangesOf(b, id)
  {
    if a == [] {
      assert a + b == b;
    } else {
      assert (a + b)[1..] == a[1..] + b;
      ChangesOfAppend(a[1..], b, id);
    }
  }

  lemma {:induction false} LifeAppend(row: Option<Row>, a: seq<Change>, b: seq<Change>)
    ensures ApplyAll(row, a + b) == ApplyAll(ApplyAll(row, a), b)
    ensures LegalLife(row, a + b) <==> LegalLife(row, a) && LegalLife(ApplyAll(row, a), b)
    decreases |a|
  {
    if a == [] {
      assert a + b == b;
    } else {
      assert (a + b)[0] == a[0] && (a + b)[1..] == a[1..] + b;
      LifeAppend(Apply(row, a[0]), a[1..], b);
    }
  }

  lemma {:induction false} PublishGet(rows: map<Id, Row>, entries: seq<Entry>, id: Id)
    ensures Get(Publish(rows, entries), id) == ApplyAll(Get(rows, id), ChangesOf(entries, id))
    decreases |entries|
  {
    if entries != [] {
      var e := entries[0];
      PublishGet(Put(rows, e.id, Apply(Get(rows, e.id), e.change)), entries[1..], id);
    }
  }

  // ---- The invariant

  /** A client has locked every row it has changed, and its changes are a legal life of each row from the
      committed row on. */
  ghost predicate ClientOk(rows: map<Id, Row>, client: Client) {
    && (forall id :: id !in client.locked ==> ChangesOf(client.changes, id) == [])
    && (forall id :: LegalLife(Get(rows, id), ChangesOf(client.changes, id)))
  }

  predicate LocksDisjoint(clients: map<ClientId, Client>) {
    forall c, d :: c in clients && d in clients && c != d ==> clients[c].locked !! clients[d].locked
  }

  /** The committed history of every row is a legal life that ends in the committed row. */
  ghost predicate HistoryOk(s: State) {
    forall id :: LegalLife(None, ChangesOf(s.history, id))
                 && ApplyAll(None, ChangesOf(s.history, id)) == Get(s.rows, id)
  }

  ghost predicate Invariant(s: State) {
    HistoryOk(s) && LocksDisjoint(s.clients) && forall c :: c in s.clients ==> ClientOk(s.rows, s.clients[c])
  }

  lemma AdmitsIsLegal(operation: Operation, row: Option<Row>)
    ensures Admits(operation, row) <==> Legal(row, ChangeOf(operation))
  {
  }

  lemma NewClientOk(rows: map<Id, Row>)
    ensures ClientOk(rows, NEW_CLIENT)
  {
  }

  lemma ExecuteKeeps(s: State, c: ClientId, operation: Operation)
    requires Invariant(s) && c in s.clients && LockFree(s, c, operation.id)
    ensures Invariant(Execute(s, c, operation))
  {
    var client, after := s.clients[c], Execute(s, c, operation);
    var updated := after.clients[c];
    if Admits(operation, View(s, c, operation.id)) {
      var entry := [Entry(operation.id, ChangeOf(operation))];
      forall id
        ensures id !in updated.locked ==> ChangesOf(updated.changes, id) == []
        ensures LegalLife(Get(s.rows, id), ChangesOf(updated.changes, id))
      {
        ChangesOfAppend(client.changes, entry, id);
        assert entry[1..] == [];
        if id == operation.id {
          AdmitsIsLegal(operation, View(s, c, id));
          assert ChangesOf(entry, id) == [ChangeOf(operation)] && [ChangeOf(operation)][1..] == [];
          LifeAppend(Get(s.rows, id), ChangesOf(client.changes, id), [ChangeOf(operation)]);
        } else {
          assert ChangesOf(client.changes, id) + [] == ChangesOf(client.changes, id);
        }
      }
    }
    assert ClientOk(s.rows, updated);
  }

  lemma CommitKeeps(s: State, c: ClientId)
    requires Invariant(s) && c in s.clients
    ensures var client := s.clients[c];
            Invariant(State(Publish(s.rows, client.changes), s.history + client.changes, s.clients[c := NEW_CLIENT]))
  {
    var client := s.clients[c];
    var rows := Publish(s.rows, client.changes);
    var after := State(rows, s.history + client.changes, s.clients[c := NEW_CLIENT]);
    forall id
      ensures LegalLife(None, ChangesOf(after.history, id))
      ensures ApplyAll(None, ChangesOf(after.history, id)) == Get(rows, id)
    {
      ChangesOfAppend(s.history, client.changes, id);
      LifeAppend(None, ChangesOf(s.history, id), ChangesOf(client.changes, id));
      PublishGet(s.rows, client.changes, id);
    }
    NewClientOk(rows);
    forall d | d in after.clients && d != c ensures ClientOk(rows, after.clients[d]) {
      var other := s.clients[d];
      forall id ensures LegalLife(Get(rows, id), ChangesOf(other.changes, id)) {
        PublishGet(s.rows, client.changes, id);
        if id in client.locked {
          assert id !in other.locked;
        }
      }
    }
  }

  /** Every step of every client keeps the invariant. */
  lemma StepKeeps(s: State, step: Step)
    requires Invariant(s) && Next(s, step).Some?
    ensures Invariant(Next(s, step).value)
  {
    var c, client := step.client, s.clients[step.client];
    match step
    case Find(_, operation) =>
      assert ClientOk(s.rows, client);
      assert Next(s, step).value.clients[c].changes == client.changes;
    case Write(_) => ExecuteKeeps(s, c, client.task.operation);
    case Insert(_, id, deletedAt, data) => ExecuteKeeps(s, c, Create(id, deletedAt, data));
    case Commit(_) => CommitKeeps(s, c);
    case Rollback(_) => NewClientOk(s.rows);
  }

  lemma InitialInvariant(s: State)
    requires Initial(s)
    ensures Invariant(s)
  {
    NewClientOk(s.rows);
  }

  lemma {:induction false} RunKeeps(s: State, steps: seq<Step>)
    requires Invariant(s) && Run(s, steps).Some?
    ensures Invariant(Run(s, steps).value)
    decreases |steps|
  {
    hide Invariant, Next;
    if steps != [] {
      StepKeeps(s, steps[0]);
      RunKeeps(Next(s, steps[0]).value, steps[1..]);
    }
  }

  /** After any run of any number of clients, the committed changes of every row are a legal life of that
      row, and the committed row is where that life ends. */
  lemma EveryRowLivesLegally(s: State, steps: seq<Step>, id: Id)
    requires Initial(s) && Run(s, steps).Some?
    ensures var end := Run(s, steps).value;
            LegalLife(None, ChangesOf(end.history, id)) &&
            ApplyAll(None, ChangesOf(end.history, id)) == Get(end.rows, id)
  {
    InitialInvariant(s);
    RunKeeps(s, steps);
  }

  // ---- What a legal life means

  /** The state of a legal life before its change `i`. */
  function At(changes: seq<Change>, i: nat): Option<Row>
    requires i <= |changes|
  {
    ApplyAll(None, changes[..i])
  }

  lemma LifeStep(changes: seq<Change>, i: nat)
    requires LegalLife(None, changes) && i < |changes|
    ensures Legal(At(changes, i), changes[i]) && At(changes, i + 1) == Apply(At(changes, i), changes[i])
  {
    LifeAppend(None, changes[..i], changes[i..]);
    assert changes[..i] + changes[i..] == changes;
    LifeAppend(None, changes[..i], [changes[i]]);
    assert changes[..i] + [changes[i]] == changes[..i + 1] && [changes[i]][1..] == [];
  }

  /** The deletion time that a change gives its row. */
  function MarkOf(change: Change): Option<Time> {
    match change
    case Inserted(deletedAt, _) => deletedAt
    case Deleted(at) => Some(at)
    case _ => None
  }

  /** Once marked, by a deletion or by its insertion, a row keeps its deletion time until it is restored or
      force-deleted. */
  lemma {:induction false} DeletionTimeStays(changes: seq<Change>, i: nat, j: nat)
    requires LegalLife(None, changes) && i < j <= |changes| && MarkOf(changes[i]).Some?
    requires forall k :: i < k < j ==> !changes[k].Restored? && !changes[k].ForceDeleted?
    ensures At(changes, j).Some? && At(changes, j).value.deletedAt == MarkOf(changes[i])
    decreases j - i
  {
    LifeStep(changes, i);
    if j > i + 1 {
      DeletionTimeStays(changes, i, j - 1);
      LifeStep(changes, j - 1);
    }
  }

  /** Between two deletions of a row there is a restore or a force-delete, so a committed deletion time is
      never overwritten by a second deletion; and an update commits only on a row that is not deleted. */
  lemma DeletionsAlternate(changes: seq<Change>, i: nat, j: nat)
    requires LegalLife(None, changes) && i < j < |changes|
    requires MarkOf(changes[i]).Some? && (changes[j].Deleted? || changes[j].Updated? || changes[j].Inserted?)
    ensures exists k :: i < k < j && (changes[k].Restored? || changes[k].ForceDeleted?)
  {
    if forall k :: i < k < j ==> !changes[k].Restored? && !changes[k].ForceDeleted? {
      DeletionTimeStays(changes, i, j);
      LifeStep(changes, j);
    }
  }

  /** What leaves a row that is not deleted. */
  predicate Revives(change: Change) {
    change.Restored? || (change.Inserted? && change.deletedAt.None?)
  }

  lemma {:induction false} LiveStays(changes: seq<Change>, i: nat, j: nat)
    requires LegalLife(None, changes) && i < j <= |changes| && Revives(changes[i])
    requires forall k :: i < k < j ==> !changes[k].Deleted? && !changes[k].ForceDeleted?
    ensures At(changes, j).Some? && At(changes, j).value.deletedAt == None
    decreases j - i
  {
    LifeStep(changes, i);
    if j > i + 1 {
      LiveStays(changes, i, j - 1);
      LifeStep(changes, j - 1);
    }
  }

  /** A restore is preceded by a deletion since the last restore or since an insertion without a deletion time. */
  lemma RestoresAlternate(changes: seq<Change>, i: nat, j: nat)
    requires LegalLife(None, changes) && i < j < |changes|
    requires Revives(changes[i]) && changes[j].Restored?
    ensures exists k :: i < k < j && (changes[k].Deleted? || changes[k].ForceDeleted?)
  {
    if forall k :: i < k < j ==> !changes[k].Deleted? && !changes[k].ForceDeleted? {
      LiveStays(changes, i, j);
      LifeStep(changes, j);
    }
  }

  /** The first restore after an insertion is preceded by a deletion exactly when the insertion had no deletion time. */
  lemma FirstRestoreNeedsADeletion(changes: seq<Change>, i: nat, j: nat)
    requires LegalLife(None, changes) && i < j < |changes| && changes[i].Inserted? && changes[j].Restored?
    requires forall k :: i < k < j ==> !changes[k].Restored? && !changes[k].ForceDeleted?
    ensures (exists k :: i < k < j && changes[k].Deleted?) <==> changes[i].deletedAt.None?
  {
    if changes[i].deletedAt.None? {
      RestoresAlternate(changes, i, j);
    } else {
      forall k | i < k < j ensures !changes[k].Deleted? {
        DeletionTimeStays(changes, i, k);
        LifeStep(changes, k);
      }
    }
  }

  /** The steps of one client that creates a row and then restores it, in two transactions. */
  function CreateThenRestore(c: ClientId, id: Id, deletedAt: Option<Time>, data: Data): seq<Step> {
    [Insert(c, id, deletedAt, data), Commit(c), Find(c, Restore(id)), Write(c), Commit(c)]
  }

  /** Creating and then restoring a row, with no deletion between, commits exactly when the entity was created with a
      deletion time. */
  lemma RestoreWithoutADeletion(s: State, c: ClientId, id: Id, deletedAt: Option<Time>, data: Data)
    requires s.rows == map[] && s.history == [] && s.clients == map[c := NEW_CLIENT]
    ensures Run(s, CreateThenRestore(c, id, deletedAt, data)).Some? <==> deletedAt.Some?
    ensures deletedAt.Some? ==>
              ChangesOf(Run(s, CreateThenRestore(c, id, deletedAt, data)).value.history, id)
              == [Inserted(deletedAt, data), Restored]
  {
    var steps := CreateThenRestore(c, id, deletedAt, data);
    var inserted := Entry(id, Inserted(deletedAt, data));
    var s1 := s.(clients := map[c := Client([inserted], {id}, false, Idle)]);
    OneChange(inserted);
    assert View(s, c, id) == None;
    assert Next(s, steps[0]) == Some(s1) by {
      assert [] + [inserted] == [inserted] && {} + {id} == {id};
      assert Execute(s, c, Create(id, deletedAt, data)).clients == s1.clients;
    }
    var rows := map[id := Row(deletedAt, data)];
    var s2 := State(rows, [inserted], map[c := NEW_CLIENT]);
    assert Next(s1, steps[1]) == Some(s2) by {
      assert [inserted][1..] == [] && [] + [inserted] == [inserted];
      assert Publish(map[], [inserted]) == rows;
      assert s1.clients[c := NEW_CLIENT] == s2.clients;
    }
    AfterCreation(s2, c, id, deletedAt, data);
    RunTwo(s, steps);
    assert steps[2..] == [Find(c, Restore(id)), Write(c), Commit(c)];
  }

  lemma OneChange(entry: Entry)
    ensures ChangesOf([entry], entry.id) == [entry.change]
    ensures forall row :: ApplyAll(row, [entry.change]) == Apply(row, entry.change)
  {
    assert [entry][1..] == [] && [entry.change][1..] == [];
  }

  lemma RunTwo(s: State, steps: seq<Step>)
    requires |steps| >= 2 && Next(s, steps[0]).Some? && Next(Next(s, steps[0]).value, steps[1]).Some?
    ensures Run(s, steps) == Run(Next(Next(s, steps[0]).value, steps[1]).value, steps[2..])
  {
    assert steps[1..][0] == steps[1] && steps[1..][1..] == steps[2..];
  }

  lemma AfterCreation(s: State, c: ClientId, id: Id, deletedAt: Option<Time>, data: Data)
    requires s == State(map[id := Row(deletedAt, data)], [Entry(id, Inserted(deletedAt, data))], map[c := NEW_CLIENT])
    ensures var r := Run(s, [Find(c, Restore(id)), Write(c), Commit(c)]);
            (r.Some? <==> deletedAt.Some?)
            && (r.Some? ==> ChangesOf(r.value.history, id) == [Inserted(deletedAt, data), Restored])
  {
    var steps := [Find(c, Restore(id)), Write(c), Commit(c)];
    var restored := Entry(id, Restored);
    OneChange(restored);
    assert View(s, c, id) == Some(Row(deletedAt, data));
    assert steps[1..] == [Write(c), Commit(c)] && steps[1..][1..] == [Commit(c)] && [Commit(c)][1..] == [];
    if deletedAt.Some? {
      var s1 := s.(clients := s.clients[c := NEW_CLIENT.(task := Found(Restore(id)))]);
      assert Next(s, steps[0]) == Some(s1) && View(s1, c, id) == View(s, c, id);
      var s2 := Next(s1, Write(c)).value;
      assert s2.clients[c].changes == [] + [restored] == [restored];
      var s3 := Next(s2, Commit(c)).value;
      RunTwo(s, steps);
      assert steps[2..] == [Commit(c)];
      assert Run(s3, []) == Some(s3);
      assert Run(s, steps) == Some(s3) && s3.history == s.history + [restored];
      OneChange(s.history[0]);
      ChangesOfAppend(s.history, [restored], id);
    } else {
      var s1 := Next(s, steps[0]).value;
      assert s1.clients[c].doomed && s1.clients[c].task.Idle?;
      assert Next(s1, Write(c)).None?;
    }
  }
}
