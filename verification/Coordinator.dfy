/** The coordinator of database/transaction.go over a mutable transaction state, proved to behave
    as `Transaction.Run` says. */
module Coordinator {
  import opened Text
  import opened Transaction

  /** `transactionState`. */
  class TransactionState {
    const id: nat
    const db: Db
    var done: bool
    var writes: seq<Write>
    var rollbackOnly: bool
    var rollbackCause: Error
    var afterCommit: seq<Program>
    var afterRollback: seq<Program>

    function Value(): Tx
      reads this
    {
      Tx(id, db, done, writes, rollbackOnly, rollbackCause, afterCommit, afterRollback)
    }

    constructor (id: nat, db: Db)
      ensures Value() == NewTx(id, db)
    {
      this.id, this.db := id, db;
      done, writes, rollbackOnly, rollbackCause := false, [], false, [];
      afterCommit, afterRollback := [], [];
    }

    method MarkRollback(cause: Error)
      requires cause != []
      modifies this
      ensures Value() == Mark(old(Value()), cause)
    {
      rollbackOnly := true;
      if rollbackCause == [] {
        rollbackCause := cause;
      }
    }
  }

  function ValueOf(ctx: TransactionState?): Option<Tx>
    reads ctx
  {
    if ctx == null then None else Some(ctx.Value())
  }

  /** The database server and the events of the run. */
  class Server {
    var committed: seq<Write>
    var started: nat
    var events: seq<Event>

    function State(): World
      reads this
    {
      World(committed, started)
    }

    /** The state after a call that began in context `tx` and returned `error`. */
    ghost predicate Has(outcome: Outcome, before: seq<Event>, ctx: TransactionState?, error: Error)
      reads this, ctx
    {
      && ValueOf(ctx) == outcome.tx && State() == outcome.world
      && events == before + outcome.events && error == outcome.error
    }

    /** `transactionFrom`. */
    function TransactionFrom(ctx: TransactionState?, db: Db): (state: TransactionState?)
      reads ctx
      ensures state == if Joins(ValueOf(ctx), db) then ctx else null
    {
      if ctx == null || ctx.db != db then null else ctx
    }

    method Exec(ctx: TransactionState?, write: Write) returns (error: Error)
      modifies this, if ctx == null then {} else {ctx}
      ensures Has(RunExec(old(ValueOf(ctx)), old(State()), write), old(events), ctx, error)
    {
      var state := TransactionFrom(ctx, write.db);
      if state == null {
        committed := committed + [write];
        events := events + [Direct(write)];
        return [];
      }
      if state.done {
        return [TxDone];
      }
      state.writes := state.writes + [write];
      events := events + [Wrote(state.id, write)];
      return [];
    }

    method AfterCommit(ctx: TransactionState?, db: Db, callback: Program) returns (error: Error)
      modifies this, if ctx == null then {} else {ctx}
      ensures Has(RunRegister(old(ValueOf(ctx)), old(State()), db, AtCommit, callback), old(events), ctx, error)
    {
      var state := TransactionFrom(ctx, db);
      if state == null {
        return [NoTransaction];
      }
      state.afterCommit := state.afterCommit + [callback];
      events := events + [Registered(state.id, AtCommit, callback)];
      return [];
    }

    method AfterRollback(ctx: TransactionState?, db: Db, callback: Program) returns (error: Error)
      modifies this, if ctx == null then {} else {ctx}
      ensures Has(RunRegister(old(ValueOf(ctx)), old(State()), db, AtRollback, callback), old(events), ctx, error)
    {
      var state := TransactionFrom(ctx, db);
      if state == null {
        return [NoTransaction];
      }
      state.afterRollback := state.afterRollback + [callback];
      events := events + [Registered(state.id, AtRollback, callback)];
      return [];
    }

    /** Runs a callback body in a context. */
    method Execute(ctx: TransactionState?, p: Program) returns (error: Error)
      modifies this, if ctx == null then {} else {ctx}
      ensures Has(Run(old(ValueOf(ctx)), old(State()), p), old(events), ctx, error)
      decreases p, 0
    {
      match p
      case Skip => error := [];
      case Fail(cause) => error := [cause];
      case Exec(write) => error := Exec(ctx, write);
      case OnCommit(db, callback) => error := AfterCommit(ctx, db, callback);
      case OnRollback(db, callback) => error := AfterRollback(ctx, db, callback);
      case Seq(first, second) =>
        error := Execute(ctx, first);
        if error == [] {
          error := Execute(ctx, second);
        }
      case Ignore(body) =>
        var ignored := Execute(ctx, body);
        error := [];
      case Transact(db, faults, body) =>
        error := InTransaction(ctx, db, faults, body);
    }

    /** `Transaction`. */
    method InTransaction(ctx: TransactionState?, db: Db, faults: Faults, body: Program) returns (error: Error)
      modifies this, if ctx == null then {} else {ctx}
      ensures Has(Run(old(ValueOf(ctx)), old(State()), Transact(db, faults, body)), old(events), ctx, error)
      decreases body, 5
    {
      var existing := TransactionFrom(ctx, db);
      if existing != null {
        RunJoining(ValueOf(ctx), State(), db, faults, body);
        hide Run;
        error := Execute(ctx, body);
        if error != [] {
          existing.MarkRollback(error);
        }
        events := events + [Returned(existing.id, error)];
        return;
      }
      if faults.begin {
        return [BeginFailed];
      }
      RunOpening(ValueOf(ctx), State(), db, faults, body);
      hide Run;
      error := Open(db, faults, body);
    }

    /** The part of `Transaction` that begins a transaction of its own. */
    method Open(db: Db, faults: Faults, body: Program) returns (error: Error)
      modifies this
      ensures var world := old(State());
              var r := RunBody(world, db, body);
              var end := Finish(Settled(world, db, body), r.world, faults, body);
              State() == end.world && error == end.error &&
              events == old(events) + ([Opened(world.started)] + r.events + [Returned(world.started, r.error)] + end.events)
      decreases body, 4
    {
      hide Run, RunCallbacks, Finish;
      ghost var world := State();
      var state := new TransactionState(started, db);
      events := events + [Opened(started)];
      started := started + 1;
      var callbackError := Execute(state, body);
      if callbackError != [] {
        state.MarkRollback(callbackError);
      }
      events := events + [Returned(state.id, callbackError)];
      assert state.Value() == Settled(world, db, body);
      error := End(state, faults, body);
    }

    /** The part of `Transaction` that follows the outermost callback. */
    method End(state: TransactionState, faults: Faults, ghost bound: Program) returns (error: Error)
      requires forall c :: c in state.afterCommit || c in state.afterRollback ==> c < bound
      modifies this, state
      ensures var r := Finish(old(state.Value()), old(State()), faults, bound);
              State() == r.world && events == old(events) + r.events && error == r.error
      decreases bound, 3
    {
      hide Run, RunCallbacks;
      if state.rollbackOnly {
        var rollbackCause := state.rollbackCause;
        if rollbackCause == [] {
          rollbackCause := [RollbackOnly];
        }
        state.done := true;
        events := events + [RolledBack(state.id)];
        var hookError := RunAll(state, AtRollback, state.afterRollback, bound);
        return rollbackCause + IgnoreTxDone(faults.rollback) + hookError;
      }
      state.done := true;
      if faults.commit {
        events := events + [CommitRefused(state.id)];
        var hookError := RunAll(state, AtRollback, state.afterRollback, bound);
        return [CommitFailed] + IgnoreTxDone(faults.rollback) + hookError;
      }
      committed := committed + state.writes;
      events := events + [Committed(state.id)];
      error := RunAll(state, AtCommit, state.afterCommit, bound);
    }

    /** `runCallbacks`, on a snapshot of one list. */
    method RunAll(state: TransactionState, kind: Kind, callbacks: seq<Program>, ghost bound: Program)
      returns (result: Error)
      requires forall c :: c in callbacks ==> c < bound
      modifies this, state
      ensures Has(RunCallbacks(old(state.Value()), old(State()), kind, callbacks, bound), old(events), state, result)
      decreases bound, 2
    {
      hide Run, RunCallbacks;
      result := [];
      ghost var total := RunCallbacks(state.Value(), State(), kind, callbacks, bound);
      ghost var seen: seq<Event> := [];
      assert callbacks[0..] == callbacks;
      for i := 0 to |callbacks|
        invariant events == old(events) + seen
        invariant forall c :: c in callbacks[i..] ==> c < bound
        invariant total == Prefixed(seen, result, RunCallbacks(state.Value(), State(), kind, callbacks[i..], bound))
      {
        assert callbacks[i..][0] == callbacks[i] && callbacks[i..][1..] == callbacks[i + 1..];
        assert callbacks[i] in callbacks[i..];
        CallStep(seen, result, state.Value(), State(), kind, callbacks[i..], bound);
        ghost var r := Run(Some(state.Value()), State(), callbacks[i]);
        events := events + [Called(state.id, kind, callbacks[i])];
        var error := Execute(state, callbacks[i]);
        seen := seen + [Called(state.id, kind, callbacks[i])] + r.events;
        result := result + error;
      }
      NoMoreCalls(state.Value(), State(), kind, bound);
    }
  }

  /** The events and errors of the callbacks already run, in front of those of the rest. */
  function Prefixed(seen: seq<Event>, error: Error, outcome: Outcome): Outcome {
    outcome.(events := seen + outcome.events, error := error + outcome.error)
  }

  lemma CallStep(seen: seq<Event>, error: Error, state: Tx, world: World, kind: Kind, callbacks: seq<Program>, bound: Program)
    requires callbacks != [] && forall c :: c in callbacks ==> c < bound
    ensures forall c :: c in callbacks[1..] ==> c < bound
    ensures var r := Run(Some(state), world, callbacks[0]);
            Prefixed(seen, error, RunCallbacks(state, world, kind, callbacks, bound))
            == Prefixed(seen + [Called(state.id, kind, callbacks[0])] + r.events, error + r.error,
                        RunCallbacks(r.tx.value, r.world, kind, callbacks[1..], bound))
  {
    hide Run;
    assert forall c :: c in callbacks[1..] ==> c in callbacks;
  }

  lemma NoMoreCalls(state: Tx, world: World, kind: Kind, bound: Program)
    ensures RunCallbacks(state, world, kind, [], bound) == Outcome(Some(state), world, [], [])
  {
  }

  lemma RunJoining(tx: Option<Tx>, world: World, db: Db, faults: Faults, body: Program)
    requires Joins(tx, db)
    ensures var r := Run(tx, world, body);
            Run(tx, world, Transact(db, faults, body))
            == Outcome(Some(Mark(r.tx.value, r.error)), r.world, r.events + [Returned(tx.value.id, r.error)], r.error)
  {
  }
}
