/** The meaning of programs that run under the transaction coordinator of database/transaction.go.
    A context carries at most one transaction state, the innermost; a call on the same database
    joins it, a call on another database opens a transaction of its own. */
module Transaction {
  import opened Text

  type Db = nat

  datatype Write = Write(db: Db, key: string, value: string)

  datatype Cause =
    | Raised(code: string) | NoTransaction | TxDone | BeginFailed | CommitFailed | RollbackOnly | RollbackFailed

  /** An error as the list of its causes: `[]` is nil and `errors.Join` is concatenation. */
  type Error = seq<Cause>

  /** What the server will do to a transaction that is opened: refuse to begin it, fail its
      commit, and report an error from its rollback. */
  datatype Faults = Faults(begin: bool, commit: bool, rollback: Error)

  /** Callback bodies. `Ignore` runs a body and swallows its error. */
  datatype Program =
    | Skip
    | Fail(cause: Cause)
    | Exec(write: Write)
    | OnCommit(on: Db, callback: Program)
    | OnRollback(on: Db, callback: Program)
    | Seq(first: Program, second: Program)
    | Ignore(body: Program)
    | Transact(db: Db, faults: Faults, body: Program)

  datatype Kind = AtCommit | AtRollback

  /** What happens in a run. `Returned` records the error that a frame's callback returned,
      whether the frame opened the transaction or joined it. */
  datatype Event =
    | Opened(id: nat)
    | Wrote(id: nat, write: Write)
    | Registered(id: nat, kind: Kind, callback: Program)
    | Returned(id: nat, error: Error)
    | Committed(id: nat)
    | CommitRefused(id: nat)
    | RolledBack(id: nat)
    | Called(id: nat, kind: Kind, callback: Program)
    | Direct(write: Write)

  /** `transactionState`, with the writes that wait in the server's transaction. */
  datatype Tx = Tx(id: nat, db: Db, done: bool, writes: seq<Write>, rollbackOnly: bool, rollbackCause: Error,
                   afterCommit: seq<Program>, afterRollback: seq<Program>)

  /** The committed writes of all databases in order, and the number of transactions opened. */
  datatype World = World(committed: seq<Write>, started: nat)

  /** The context's transaction afterwards, the world, what happened, and the error returned. */
  datatype Outcome = Outcome(tx: Option<Tx>, world: World, events: seq<Event>, error: Error)

  function NewTx(id: nat, db: Db): Tx {
    Tx(id, db, false, [], false, [], [], [])
  }

  /** `transactionFrom`: the context's transaction, if it belongs to the database. */
  predicate Joins(tx: Option<Tx>, db: Db) {
    tx.Some? && tx.value.db == db
  }

  /** `markRollback`, called only with an error: the first cause is kept. */
  function Mark(tx: Tx, cause: Error): Tx {
    if cause == [] then tx
    else tx.(rollbackOnly := true, rollbackCause := if tx.rollbackCause == [] then cause else tx.rollbackCause)
  }

  /** `ignoreTxDone`. */
  function IgnoreTxDone(error: Error): Error {
    if TxDone in error then [] else error
  }

  ghost predicate Known(callbacks: seq<Program>, before: seq<Program>, p: Program) {
    forall c :: c in callbacks ==> c in before || c < p
  }

  /** `IDB(ctx)` and a statement on it. */
  function RunExec(tx: Option<Tx>, world: World, write: Write): Outcome {
    if Joins(tx, write.db) then
      if tx.value.done then Outcome(tx, world, [], [TxDone])
      else Outcome(Some(tx.value.(writes := tx.value.writes + [write])), world, [Wrote(tx.value.id, write)], [])
    else
      Outcome(tx, world.(committed := world.committed + [write]), [Direct(write)], [])
  }

  /** `AfterCommit` and `AfterRollback`. */
  function RunRegister(tx: Option<Tx>, world: World, db: Db, kind: Kind, callback: Program): Outcome {
    if !Joins(tx, db) then Outcome(tx, world, [], [NoTransaction])
    else
      var state := tx.value;
      Outcome(Some(if kind.AtCommit? then state.(afterCommit := state.afterCommit + [callback])
                   else state.(afterRollback := state.afterRollback + [callback])),
              world, [Registered(state.id, kind, callback)], [])
  }

  /** Running a program in a context. */
  function Run(tx: Option<Tx>, world: World, p: Program): (r: Outcome)
    ensures r.tx.Some? <==> tx.Some?
    ensures tx.Some? ==> r.tx.value.id == tx.value.id && r.tx.value.db == tx.value.db
    ensures tx.Some? ==> Known(r.tx.value.afterCommit, tx.value.afterCommit, p)
    ensures tx.Some? ==> Known(r.tx.value.afterRollback, tx.value.afterRollback, p)
    decreases p, 0
  {
    match p
    case Skip => Outcome(tx, world, [], [])
    case Fail(cause) => Outcome(tx, world, [], [cause])
    case Exec(write) => RunExec(tx, world, write)
    case OnCommit(db, callback) => RunRegister(tx, world, db, AtCommit, callback)
    case OnRollback(db, callback) => RunRegister(tx, world, db, AtRollback, callback)
    case Seq(first, second) =>
      var r := Run(tx, world, first);
      if r.error != [] then r
      else
        var rest := Run(r.tx, r.world, second);
        rest.(events := r.events + rest.events)
    case Ignore(body) => Run(tx, world, body).(error := [])
    case Transact(db, faults, body) =>
      if Joins(tx, db) then
        var r := Run(tx, world, body);
        Outcome(Some(Mark(r.tx.value, r.error)), r.world, r.events + [Returned(tx.value.id, r.error)], r.error)
      else if faults.begin then Outcome(tx, world, [], [BeginFailed])
      else
        var r := RunBody(world, db, body);
        var end := Finish(Settled(world, db, body), r.world, faults, body);
        Outcome(tx, end.world, [Opened(world.started)] + r.events + [Returned(world.started, r.error)] + end.events,
                end.error)
  }

  /** The body of a frame that opens its own transaction. */
  function RunBody(world: World, db: Db, body: Program): (r: Outcome)
    ensures r.tx.Some? && r.tx.value.id == world.started && r.tx.value.db == db
    ensures Known(r.tx.value.afterCommit, [], body) && Known(r.tx.value.afterRollback, [], body)
    decreases body, 1
  {
    Run(Some(NewTx(world.started, db)), world.(started := world.started + 1), body)
  }

  /** The state of that frame when its body has returned. */
  function Settled(world: World, db: Db, body: Program): (state: Tx)
    ensures state.id == world.started && state.db == db
    ensures forall c :: c in state.afterCommit || c in state.afterRollback ==> c < body
    decreases body, 2
  {
    var r := RunBody(world, db, body);
    Mark(r.tx.value, r.error)
  }

  /** The end of the outermost frame: commit or roll back, then the snapshot of one callback list. */
  function Finish(state: Tx, world: World, faults: Faults, ghost bound: Program): (r: Outcome)
    requires forall c :: c in state.afterCommit || c in state.afterRollback ==> c < bound
    decreases bound, |state.afterCommit| + |state.afterRollback| + 1
  {
    var ended := state.(done := true);
    if state.rollbackOnly then
      var cause := if state.rollbackCause == [] then [RollbackOnly] else state.rollbackCause;
      var hooks := RunCallbacks(ended, world, AtRollback, state.afterRollback, bound);
      hooks.(events := [RolledBack(state.id)] + hooks.events,
             error := cause + IgnoreTxDone(faults.rollback) + hooks.error)
    else if faults.commit then
      var hooks := RunCallbacks(ended, world, AtRollback, state.afterRollback, bound);
      hooks.(events := [CommitRefused(state.id)] + hooks.events,
             error := [CommitFailed] + IgnoreTxDone(faults.rollback) + hooks.error)
    else
      var published := world.(committed := world.committed + state.writes);
      var hooks := RunCallbacks(ended, published, AtCommit, state.afterCommit, bound);
      hooks.(events := [Committed(state.id)] + hooks.events)
  }

  /** `runCallbacks`: every callback runs, and their errors are joined. */
  function RunCallbacks(state: Tx, world: World, kind: Kind, callbacks: seq<Program>, ghost bound: Program): (r: Outcome)
    requires forall c :: c in callbacks ==> c < bound
    ensures r.tx.Some?
    decreases bound, |callbacks|
  {
    if callbacks == [] then Outcome(Some(state), world, [], [])
    else
      assert callbacks[0] in callbacks && forall c :: c in callbacks[1..] ==> c in callbacks;
      var r := Run(Some(state), world, callbacks[0]);
      var rest := RunCallbacks(r.tx.value, r.world, kind, callbacks[1..], bound);
      Outcome(rest.tx, rest.world, [Called(state.id, kind, callbacks[0])] + r.events + rest.events,
              r.error + rest.error)
  }

  lemma RunOpening(tx: Option<Tx>, world: World, db: Db, faults: Faults, body: Program)
    requires !Joins(tx, db) && !faults.begin
    ensures var r := RunBody(world, db, body);
            var end := Finish(Settled(world, db, body), r.world, faults, body);
            Run(tx, world, Transact(db, faults, body)) ==
            Outcome(tx, end.world, [Opened(world.started)] + r.events + [Returned(world.started, r.error)] + end.events,
                    end.error)
  {
  }
}
