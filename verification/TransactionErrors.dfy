/** What the error of a program depends on: the joined transaction's database and whether it has ended, and nothing
    else. Neither the store nor the other callbacks of a transaction decide what a program returns. */
module TransactionErrors {
  import opened Text
  import opened Transaction

  /** What a program adds to the transaction it runs in. */
  datatype Gain = Gain(writes: seq<Write>, failure: Error, commits: seq<Program>, rollbacks: seq<Program>)

  const NO_GAIN := Gain([], [], [], [])

  function Gained(tx: Tx, gain: Gain): Tx {
    tx.(writes := tx.writes + gain.writes,
        rollbackOnly := tx.rollbackOnly || gain.failure != [],
        rollbackCause := if tx.rollbackCause != [] then tx.rollbackCause else gain.failure,
        afterCommit := tx.afterCommit + gain.commits,
        afterRollback := tx.afterRollback + gain.rollbacks)
  }

  function Both(a: Gain, b: Gain): Gain {
    Gain(a.writes + b.writes, if a.failure != [] then a.failure else b.failure, a.commits + b.commits, a.rollbacks + b.rollbacks)
  }

  lemma GainedTwice(tx: Tx, a: Gain, b: Gain)
    ensures Gained(Gained(tx, a), b) == Gained(tx, Both(a, b))
  {
    assert tx.writes + a.writes + b.writes == tx.writes + (a.writes + b.writes);
    assert tx.afterCommit + a.commits + b.commits == tx.afterCommit + (a.commits + b.commits);
    assert tx.afterRollback + a.rollbacks + b.rollbacks == tx.afterRollback + (a.rollbacks + b.rollbacks);
  }

  lemma GainedOnce(tx: Tx, writes: seq<Write>, error: Error, callback: Program)
    ensures Gained(tx, NO_GAIN) == tx
    ensures Gained(tx, NO_GAIN.(writes := writes)) == tx.(writes := tx.writes + writes)
    ensures Gained(tx, NO_GAIN.(failure := error)) == Mark(tx, error)
    ensures Gained(tx, NO_GAIN.(commits := [callback])) == tx.(afterCommit := tx.afterCommit + [callback])
    ensures Gained(tx, NO_GAIN.(rollbacks := [callback])) == tx.(afterRollback := tx.afterRollback + [callback])
  {
    assert tx.writes + [] == tx.writes && tx.afterCommit + [] == tx.afterCommit && tx.afterRollback + [] == tx.afterRollback;
  }

  /** Both contexts carry no transaction, or transactions of one database that have both ended or not. */
  predicate SameContext(a: Option<Tx>, b: Option<Tx>) {
    a.Some? == b.Some? && (a.Some? ==> a.value.db == b.value.db && a.value.done == b.value.done)
  }

  predicate BothGain(a: Option<Tx>, x: Option<Tx>, b: Option<Tx>, y: Option<Tx>, gain: Gain)
    requires a.Some? == x.Some? == b.Some? == y.Some?
  {
    a.Some? ==> x.value == Gained(a.value, gain) && y.value == Gained(b.value, gain)
  }

  /** In the same context a program returns the same error and adds the same to its transaction, whatever the store and
      the state of that transaction. */
  lemma {:induction false} ErrorsAgree(a: Option<Tx>, u: World, b: Option<Tx>, v: World, p: Program) returns (gain: Gain)
    requires SameContext(a, b)
    ensures Run(a, u, p).error == Run(b, v, p).error
    ensures BothGain(a, Run(a, u, p).tx, b, Run(b, v, p).tx, gain)
    decreases p, 0
  {
    hide Finish, RunCallbacks, RunBody, Settled, Gained;
    gain := NO_GAIN;
    match p
    case Skip => Unchanged(a, b);
    case Fail(_) => Unchanged(a, b);
    case Exec(write) => gain := ExecAgrees(a, u, b, v, write);
    case OnCommit(db, callback) => gain := RegisterAgrees(a, u, b, v, db, AtCommit, callback);
    case OnRollback(db, callback) => gain := RegisterAgrees(a, u, b, v, db, AtRollback, callback);
    case Seq(first, second) =>
      gain := ErrorsAgree(a, u, b, v, first);
      var x, y := Run(a, u, first), Run(b, v, first);
      if x.error == [] {
        StaySame(a, x.tx, b, y.tx, gain);
        var more := ErrorsAgree(x.tx, x.world, y.tx, y.world, second);
        if a.Some? {
          GainedTwice(a.value, gain, more);
          GainedTwice(b.value, gain, more);
        }
        gain := Both(gain, more);
      }
    case Ignore(body) => gain := ErrorsAgree(a, u, b, v, body);
    case Transact(db, faults, body) =>
      if Joins(a, db) {
        var inner := ErrorsAgree(a, u, b, v, body);
        var error := Run(a, u, body).error;
        gain := Both(inner, NO_GAIN.(failure := error));
        GainedTwice(a.value, inner, NO_GAIN.(failure := error));
        GainedTwice(b.value, inner, NO_GAIN.(failure := error));
        GainedOnce(Run(a, u, body).tx.value, [], error, body);
        GainedOnce(Run(b, v, body).tx.value, [], error, body);
      } else {
        Unchanged(a, b);
        if !faults.begin {
          FrameAgrees(a, u, b, v, db, faults, body);
        }
      }
  }

  lemma Unchanged(a: Option<Tx>, b: Option<Tx>)
    requires SameContext(a, b)
    ensures BothGain(a, a, b, b, NO_GAIN)
  {
    if a.Some? {
      GainedOnce(a.value, [], [], Skip);
      GainedOnce(b.value, [], [], Skip);
    }
  }

  lemma StaySame(a: Option<Tx>, x: Option<Tx>, b: Option<Tx>, y: Option<Tx>, gain: Gain)
    requires SameContext(a, b) && a.Some? == x.Some? == y.Some? && BothGain(a, x, b, y, gain)
    ensures SameContext(x, y)
  {
  }

  lemma ExecAgrees(a: Option<Tx>, u: World, b: Option<Tx>, v: World, write: Write) returns (gain: Gain)
    requires SameContext(a, b)
    ensures var x, y := RunExec(a, u, write), RunExec(b, v, write);
            x.error == y.error && x.tx.Some? == y.tx.Some? == a.Some? && BothGain(a, x.tx, b, y.tx, gain)
  {
    gain := if Joins(a, write.db) && !a.value.done then NO_GAIN.(writes := [write]) else NO_GAIN;
    if a.Some? {
      GainedOnce(a.value, [write], [], Skip);
      GainedOnce(b.value, [write], [], Skip);
    }
  }

  lemma RegisterAgrees(a: Option<Tx>, u: World, b: Option<Tx>, v: World, db: Db, kind: Kind, callback: Program) returns (gain: Gain)
    requires SameContext(a, b)
    ensures var x, y := RunRegister(a, u, db, kind, callback), RunRegister(b, v, db, kind, callback);
            x.error == y.error && x.tx.Some? == y.tx.Some? == a.Some? && BothGain(a, x.tx, b, y.tx, gain)
  {
    gain := if !Joins(a, db) then NO_GAIN
            else if kind.AtCommit? then NO_GAIN.(commits := [callback])
            else NO_GAIN.(rollbacks := [callback]);
    if a.Some? {
      GainedOnce(a.value, [], [], callback);
      GainedOnce(b.value, [], [], callback);
    }
  }

  lemma {:induction false} FrameAgrees(a: Option<Tx>, u: World, b: Option<Tx>, v: World, db: Db, faults: Faults, body: Program)
    requires !Joins(a, db) && !Joins(b, db) && !faults.begin
    ensures Run(a, u, Transact(db, faults, body)).error == Run(b, v, Transact(db, faults, body)).error
    decreases body, 2
  {
    hide Run, Finish, RunCallbacks, RunBody, Settled;
    SettledAgrees(u, v, db, body);
    FinishAgrees(Settled(u, db, body), RunBody(u, db, body).world, Settled(v, db, body), RunBody(v, db, body).world, faults, body);
    RunOpening(a, u, db, faults, body);
    RunOpening(b, v, db, faults, body);
  }

  /** When its body has returned, a transaction is in the same state wherever it ran. */
  lemma {:induction false} SettledAgrees(u: World, v: World, db: Db, body: Program)
    ensures RunBody(u, db, body).error == RunBody(v, db, body).error
    ensures Settled(v, db, body) == Settled(u, db, body).(id := v.started)
    decreases body, 1
  {
    hide Run;
    var s, t := NewTx(u.started, db), NewTx(v.started, db);
    var gain := ErrorsAgree(Some(s), u.(started := u.started + 1), Some(t), v.(started := v.started + 1), body);
  }

  lemma {:induction false} FinishAgrees(s: Tx, u: World, t: Tx, v: World, faults: Faults, bound: Program)
    requires forall c :: c in s.afterCommit || c in s.afterRollback ==> c < bound
    requires t == s.(id := t.id)
    ensures Finish(s, u, faults, bound).error == Finish(t, v, faults, bound).error
    decreases bound, 0, |s.afterCommit| + |s.afterRollback| + 1
  {
    hide RunCallbacks;
    var x, y := s.(done := true), t.(done := true);
    if s.rollbackOnly || faults.commit {
      CallbacksAgree(x, u, y, v, AtRollback, s.afterRollback, bound);
    } else {
      CallbacksAgree(x, u.(committed := u.committed + s.writes), y, v.(committed := v.committed + t.writes), AtCommit,
                     s.afterCommit, bound);
    }
  }

  lemma {:induction false} CallbacksAgree(s: Tx, u: World, t: Tx, v: World, kind: Kind, callbacks: seq<Program>, bound: Program)
    requires forall c :: c in callbacks ==> c < bound
    requires s.db == t.db && s.done && t.done
    ensures RunCallbacks(s, u, kind, callbacks, bound).error == RunCallbacks(t, v, kind, callbacks, bound).error
    decreases bound, 0, |callbacks|
  {
    hide Run;
    if callbacks != [] {
      assert callbacks[0] in callbacks && forall c :: c in callbacks[1..] ==> c in callbacks;
      var gain := ErrorsAgree(Some(s), u, Some(t), v, callbacks[0]);
      var x, y := Run(Some(s), u, callbacks[0]), Run(Some(t), v, callbacks[0]);
      CallbacksAgree(x.tx.value, x.world, y.tx.value, y.world, kind, callbacks[1..], bound);
    }
  }

  // ------------------------------------------------------------------------------------- dry runs

  const NOWHERE := World([], 0)

  /** The state in which a transaction around `body` ends, found without its store. */
  function Dry(db: Db, body: Program): Tx {
    Settled(NOWHERE, db, body)
  }

  /** The error of a program outside any transaction. */
  function FreeError(p: Program): Error {
    Run(None, NOWHERE, p).error
  }

  /** The error of a callback that runs by itself after the end of a transaction. */
  function LateError(db: Db, callback: Program): Error {
    Run(Some(NewTx(0, db).(done := true)), NOWHERE, callback).error
  }

  function LateErrors(db: Db, callbacks: seq<Program>): Error {
    if callbacks == [] then [] else LateError(db, callbacks[0]) + LateErrors(db, callbacks[1..])
  }

  lemma FreeErrorIs(world: World, p: Program)
    ensures Run(None, world, p).error == FreeError(p)
  {
    hide Run;
    var gain := ErrorsAgree(None, world, None, NOWHERE, p);
  }

  lemma SettledIsDry(world: World, db: Db, body: Program)
    ensures Settled(world, db, body) == Dry(db, body).(id := world.started)
  {
    hide Run, Settled;
    SettledAgrees(NOWHERE, world, db, body);
  }

  /** The callbacks of a transaction do not disturb each other: the error joins what each returns by itself. */
  lemma {:induction false} CallbackErrors(state: Tx, world: World, kind: Kind, callbacks: seq<Program>, bound: Program)
    requires (forall c :: c in callbacks ==> c < bound) && state.done
    ensures RunCallbacks(state, world, kind, callbacks, bound).error == LateErrors(state.db, callbacks)
    decreases |callbacks|
  {
    hide Run;
    if callbacks != [] {
      assert callbacks[0] in callbacks && forall c :: c in callbacks[1..] ==> c in callbacks;
      var gain := ErrorsAgree(Some(state), world, Some(NewTx(0, state.db).(done := true)), NOWHERE, callbacks[0]);
      var r := Run(Some(state), world, callbacks[0]);
      CallbackErrors(r.tx.value, r.world, kind, callbacks[1..], bound);
    }
  }

  /** The transaction around `body` commits. */
  predicate Commits(db: Db, faults: Faults, body: Program) {
    !faults.begin && !faults.commit && !Dry(db, body).rollbackOnly
  }

  /** The error of an outermost frame on any store: what stopped it, and what its callbacks return by themselves. */
  lemma FrameErrorIs(world: World, db: Db, faults: Faults, body: Program)
    ensures var r, state := Run(None, world, Transact(db, faults, body)), Dry(db, body);
            r.error ==
            if faults.begin then [BeginFailed]
            else if Commits(db, faults, body) then LateErrors(db, state.afterCommit)
            else (if !state.rollbackOnly then [CommitFailed] else if state.rollbackCause == [] then [RollbackOnly] else state.rollbackCause)
                 + (if TxDone in faults.rollback then [] else faults.rollback) + LateErrors(db, state.afterRollback)
    ensures faults.begin ==> Run(None, world, Transact(db, faults, body)).world == world
  {
    hide Run, RunCallbacks, Settled;
    if faults.begin {
      NoBegin(world, db, faults, body);
    } else {
      var state := Settled(world, db, body);
      var w := RunBody(world, db, body).world;
      var ended := state.(done := true);
      SettledIsDry(world, db, body);
      RunOpening(None, world, db, faults, body);
      if state.rollbackOnly || faults.commit {
        CallbackErrors(ended, w, AtRollback, state.afterRollback, body);
      } else {
        CallbackErrors(ended, w.(committed := w.committed + state.writes), AtCommit, state.afterCommit, body);
      }
    }
  }

  lemma NoBegin(world: World, db: Db, faults: Faults, body: Program)
    requires faults.begin
    ensures Run(None, world, Transact(db, faults, body)) == Outcome(None, world, [], [BeginFailed])
  {
  }

  // --------------------------------------------------------------------- programs that return no error

  /** Outside any transaction, or after the end of the given database's, the program returns no error, as its text
      shows: it uses the ended transaction for nothing but registrations, and swallows what may fail. */
  predicate NeverFails(p: Program, ended: Option<Db>) {
    match p
    case Skip => true
    case Fail(_) => false
    case Exec(write) => ended != Some(write.db)
    case OnCommit(on, _) => ended == Some(on)
    case OnRollback(on, _) => ended == Some(on)
    case Seq(first, second) => NeverFails(first, ended) && NeverFails(second, ended)
    case Ignore(_) => true
    case Transact(on, _, body) => ended == Some(on) && NeverFails(body, ended)
  }

  lemma {:induction false} NeverFailsIsSound(tx: Option<Tx>, world: World, p: Program)
    requires tx.Some? ==> tx.value.done
    requires NeverFails(p, if tx.Some? then Some(tx.value.db) else None)
    ensures var r := Run(tx, world, p);
            r.error == [] && (r.tx.Some? ==> r.tx.value.done)
    decreases p
  {
    hide Finish, RunCallbacks, RunBody, Settled;
    match p
    case Seq(first, second) =>
      NeverFailsIsSound(tx, world, first);
      var r := Run(tx, world, first);
      NeverFailsIsSound(r.tx, r.world, second);
    case Ignore(body) => StaysDone(tx, world, body);
    case Transact(_, _, body) => NeverFailsIsSound(tx, world, body);
    case _ =>
  }

  lemma StaysDone(tx: Option<Tx>, world: World, p: Program)
    requires tx.Some? ==> tx.value.done
    ensures var r := Run(tx, world, p);
            r.tx.Some? ==> r.tx.value.done
  {
    hide Run;
    var gain := ErrorsAgree(tx, world, tx, world, p);
  }

  /** Every after-commit callback that the program registers with a transaction of `db` it joins returns no error. */
  predicate QuietCommitHooks(p: Program, db: Db) {
    match p
    case OnCommit(on, callback) => on == db ==> NeverFails(callback, Some(db))
    case Seq(first, second) => QuietCommitHooks(first, db) && QuietCommitHooks(second, db)
    case Ignore(body) => QuietCommitHooks(body, db)
    case Transact(on, _, body) => on == db ==> QuietCommitHooks(body, db)
    case _ => true
  }

  predicate AllQuiet(callbacks: seq<Program>, db: Db) {
    forall i :: 0 <= i < |callbacks| ==> NeverFails(callbacks[i], Some(db))
  }

  lemma {:induction false} HooksAreQuiet(tx: Tx, world: World, p: Program)
    requires QuietCommitHooks(p, tx.db) && AllQuiet(tx.afterCommit, tx.db)
    ensures AllQuiet(Run(Some(tx), world, p).tx.value.afterCommit, tx.db)
    decreases p
  {
    hide Finish, RunCallbacks, RunBody, Settled, NeverFails;
    match p
    case Seq(first, second) =>
      HooksAreQuiet(tx, world, first);
      var r := Run(Some(tx), world, first);
      if r.error == [] {
        HooksAreQuiet(r.tx.value, r.world, second);
      }
    case Ignore(body) => HooksAreQuiet(tx, world, body);
    case Transact(on, _, body) =>
      if on == tx.db {
        HooksAreQuiet(tx, world, body);
      }
    case _ =>
  }

  lemma {:induction false} QuietHooksReturnNothing(db: Db, callbacks: seq<Program>)
    requires AllQuiet(callbacks, db)
    ensures LateErrors(db, callbacks) == []
    decreases |callbacks|
  {
    hide Run, NeverFails;
    if callbacks != [] {
      NeverFailsIsSound(Some(NewTx(0, db).(done := true)), NOWHERE, callbacks[0]);
      QuietHooksReturnNothing(db, callbacks[1..]);
    }
  }

  lemma QuietBody(db: Db, body: Program)
    requires QuietCommitHooks(body, db)
    ensures LateErrors(db, Dry(db, body).afterCommit) == []
  {
    hide Run, LateErrors, QuietCommitHooks;
    HooksAreQuiet(NewTx(0, db), NOWHERE.(started := 1), body);
    assert Dry(db, body).afterCommit == RunBody(NOWHERE, db, body).tx.value.afterCommit;
    QuietHooksReturnNothing(db, Dry(db, body).afterCommit);
  }

  // ---------------------------------------------------------------------------- single calls in a context

  /** A callback can be registered exactly in a transaction of its database, ended or not; anywhere else the call fails and
      changes nothing. */
  lemma RegistrationNeedsATransaction(tx: Option<Tx>, world: World, db: Db, callback: Program)
    ensures tx.Some? && tx.value.db == db ==>
              Run(tx, world, OnCommit(db, callback)).error == [] && Run(tx, world, OnRollback(db, callback)).error == []
              && Run(tx, world, OnCommit(db, callback)).tx == Some(tx.value.(afterCommit := tx.value.afterCommit + [callback]))
              && Run(tx, world, OnRollback(db, callback)).tx == Some(tx.value.(afterRollback := tx.value.afterRollback + [callback]))
    ensures !(tx.Some? && tx.value.db == db) ==>
              Run(tx, world, OnCommit(db, callback)) == Outcome(tx, world, [], [NoTransaction])
              && Run(tx, world, OnRollback(db, callback)) == Outcome(tx, world, [], [NoTransaction])
  {
  }

  /** A statement waits in the transaction of its database, fails once that has ended, and takes effect at once where there is
      none. */
  lemma StatementsGoWhereTheyBelong(tx: Option<Tx>, world: World, write: Write)
    ensures var r := Run(tx, world, Exec(write));
            if tx.Some? && tx.value.db == write.db then
              r.world == world
              && (if tx.value.done then r.error == [TxDone] && r.tx == tx
                  else r.error == [] && r.tx == Some(tx.value.(writes := tx.value.writes + [write])))
            else r.error == [] && r.tx == tx && r.world == world.(committed := world.committed + [write])
  {
  }
}
