/** The writing endpoints of api/resource.go: what a request returns, and what it leaves in the store when that is an
    error. */
module Endpoints {
  import opened Text
  import opened Transaction
  import opened TransactionLaws
  import opened TransactionStore
  import opened TransactionAtomicity
  import opened TransactionErrors
  import opened OperationPrograms
  import Lifecycle
  import Repository

  /** What a resource's configuration does for one request. */
  datatype Endpoint = Endpoint(createEntity: Program, find: Program, authorize: Program, before: Program,
                               updateEntity: Program, after: Program, serialize: Program)

  datatype Action = CreateAction | UpdateAction | DestroyAction

  /** The steps in front of the repository's operation. */
  function Guards(endpoint: Endpoint, action: Action): seq<Program> {
    match action
    case CreateAction => [endpoint.createEntity, endpoint.authorize, endpoint.before]
    case UpdateAction => [endpoint.find, endpoint.authorize, endpoint.before, endpoint.updateEntity]
    case DestroyAction => [endpoint.find, endpoint.authorize, endpoint.before]
  }

  function RequestBody(endpoint: Endpoint, action: Action, operation: Program): Program {
    Sequence(Guards(endpoint, action) + [operation, endpoint.after])
  }

  /** What is sent back is made when the transaction is over; `destroy` sends nothing. */
  function Answer(endpoint: Endpoint, action: Action): Program {
    if action.DestroyAction? then Skip else endpoint.serialize
  }

  /** `create`, `update` and `destroy`: one transaction around the guards, the operation and the after-hook, and then
      the answer. */
  function Request(db: Db, faults: Faults, endpoint: Endpoint, action: Action, operation: Program): Program {
    Seq(Transact(db, faults, RequestBody(endpoint, action, operation)), Answer(endpoint, action))
  }

  // ------------------------------------------------------------------------------- errors and writes

  /** Every request, whatever its programs, faults and store. One that does not commit returns an error and leaves its
      database as it was. One that commits publishes all its writes, and returns what its after-commit hooks return,
      each by itself, or else what the serializer returns. */
  lemma RequestOutcome(world: World, db: Db, faults: Faults, body: Program, answer: Program)
    requires Contained(body, db) && Absent(answer, db)
    ensures var r, state := Run(None, world, Seq(Transact(db, faults, body), answer)), Dry(db, body);
            if Commits(db, faults, body) then
              var hooks := LateErrors(db, state.afterCommit);
              r.error == (if hooks != [] then hooks else FreeError(answer))
              && OnDb(r.world.committed, db) == OnDb(world.committed, db) + state.writes
            else
              r == Run(None, world, Transact(db, faults, body)) && r.error != []
              && OnDb(r.world.committed, db) == OnDb(world.committed, db)
  {
    hide Run, OnDb, Contained, Absent, LateErrors, IgnoreTxDone;
    var whole := Transact(db, faults, body);
    var t := Run(None, world, whole);
    FrameErrorIs(world, db, faults, body);
    SeqRun(None, world, whole, answer);
    FrameStore(world, db, faults, body);
    if t.error == [] {
      FreeErrorIs(t.world, answer);
      RunForeign(None, t.world, answer, db);
    }
  }

  /** What an outermost frame publishes on its database. */
  lemma FrameStore(world: World, db: Db, faults: Faults, body: Program)
    requires Contained(body, db)
    ensures OnDb(Run(None, world, Transact(db, faults, body)).world.committed, db)
            == OnDb(world.committed, db) + (if Commits(db, faults, body) then Dry(db, body).writes else [])
  {
    hide Run, OnDb, Contained, RunBody, Settled;
    SettledIsDry(world, db, body);
    FrameErrorIs(world, db, faults, body);
    if !faults.begin {
      DatabaseIsAtomic(world, db, faults, body);
      OwnWritesAre(world, db, faults, body);
    }
    assert OnDb(world.committed, db) + [] == OnDb(world.committed, db);
  }

  /** An error means an unchanged database for exactly those requests that do not commit, or write nothing, or have
      after-commit hooks and a serializer that return no error by themselves. */
  lemma ErrorsAndWrites(world: World, db: Db, faults: Faults, body: Program, answer: Program)
    requires Contained(body, db) && Absent(answer, db)
    ensures var r, state := Run(None, world, Seq(Transact(db, faults, body), answer)), Dry(db, body);
            (r.error != [] ==> OnDb(r.world.committed, db) == OnDb(world.committed, db))
            <==> !Commits(db, faults, body) || state.writes == [] || LateErrors(db, state.afterCommit) + FreeError(answer) == []
  {
    hide Run, OnDb, Contained, Absent, LateErrors, FreeError, Commits, Dry;
    RequestOutcome(world, db, faults, body, answer);
    SamePrefix(OnDb(world.committed, db), Dry(db, body).writes, []);
    assert OnDb(world.committed, db) + [] == OnDb(world.committed, db);
  }

  /** A request whose text shows that its after-commit hooks and its serializer return no error: it returns an error
      exactly when it does not commit, and then its database is as it was. */
  lemma QuietRequestIsAtomic(world: World, db: Db, faults: Faults, endpoint: Endpoint, action: Action, operation: Program)
    requires Contained(RequestBody(endpoint, action, operation), db) && Absent(endpoint.serialize, db)
    requires QuietCommitHooks(RequestBody(endpoint, action, operation), db) && NeverFails(endpoint.serialize, None)
    ensures var r := Run(None, world, Request(db, faults, endpoint, action, operation));
            var body := RequestBody(endpoint, action, operation);
            if r.error != [] then !Commits(db, faults, body) && OnDb(r.world.committed, db) == OnDb(world.committed, db)
            else Commits(db, faults, body) && OnDb(r.world.committed, db) == OnDb(world.committed, db) + Dry(db, body).writes
  {
    hide Run, OnDb, Contained, Absent, LateErrors, Commits, Dry, QuietCommitHooks, NeverFails, RequestBody;
    var body, answer := RequestBody(endpoint, action, operation), Answer(endpoint, action);
    AnswerIsQuiet(endpoint, action, db);
    QuietBody(db, body);
    NeverFailsIsSound(None, NOWHERE, answer);
    RequestOutcome(world, db, faults, body, answer);
  }

  lemma AnswerIsQuiet(endpoint: Endpoint, action: Action, db: Db)
    requires Absent(endpoint.serialize, db) && NeverFails(endpoint.serialize, None)
    ensures Absent(Answer(endpoint, action), db) && NeverFails(Answer(endpoint, action), None)
  {
  }

  // ------------------------------------------------------------------------------------------- guards

  /** A request that cannot build or find its entity, is not authorised or fails its before-hook never reaches the
      repository's operation, nor its serializer, and leaves its database as it was. */
  lemma RefusedRequestWritesNothing(world: World, db: Db, faults: Faults, endpoint: Endpoint, action: Action, operation: Program)
    requires Contained(RequestBody(endpoint, action, operation), db) && !faults.begin
    requires RunBody(world, db, Sequence(Guards(endpoint, action))).error != []
    ensures RunBody(world, db, RequestBody(endpoint, action, operation)) == RunBody(world, db, Sequence(Guards(endpoint, action)))
    ensures var r := Run(None, world, Request(db, faults, endpoint, action, operation));
            r == Run(None, world, Transact(db, faults, RequestBody(endpoint, action, operation))) && r.error != []
            && BodyFailure(world, db, RequestBody(endpoint, action, operation)) <= r.error
            && OnDb(r.world.committed, db) == OnDb(world.committed, db)
  {
    hide Run, OnDb, Contained, Guards, Dry;
    var guards, body := Guards(endpoint, action), RequestBody(endpoint, action, operation);
    SequenceAppend(Some(NewTx(world.started, db)), world.(started := world.started + 1), guards, [operation, endpoint.after]);
    DatabaseIsAtomic(world, db, faults, body);
    SeqRun(None, world, Transact(db, faults, body), Answer(endpoint, action));
    FailingBodyFails(world, db, body);
    assert OnDb(world.committed, db) + [] == OnDb(world.committed, db);
  }

  lemma FailingBodyFails(world: World, db: Db, body: Program)
    requires RunBody(world, db, body).error != []
    ensures BodyFailure(world, db, body) != []
  {
    hide RunBody;
    var r := RunBody(world, db, body);
    FirstFailureAppend(Of(r.events, world.started), [Returned(world.started, r.error)]);
    assert [Returned(world.started, r.error)][1..] == [];
  }

  // -------------------------------------------------------------------------------- the terminal hooks

  /** The hole behind a list of programs. */
  function Behind(programs: seq<Program>, hole: Hole): Hole {
    if programs == [] then hole else SecondOf(programs[0], Behind(programs[1..], hole))
  }

  lemma {:induction false} FilledBehind(programs: seq<Program>, hole: Hole, p: Program, rest: seq<Program>)
    ensures Filled(Behind(programs, FirstOf(hole, Sequence(rest))), p) == Sequence(programs + [Filled(hole, p)] + rest)
    decreases |programs|
  {
    if programs == [] {
      assert ([] + [Filled(hole, p)] + rest)[1..] == rest;
    } else {
      FilledBehind(programs[1..], hole, p, rest);
      assert (programs + [Filled(hole, p)] + rest)[1..] == programs[1..] + [Filled(hole, p)] + rest;
    }
  }

  lemma {:induction false} ArrivesBehind(programs: seq<Program>, hole: Hole, tx: Option<Tx>, world: World)
    requires Run(tx, world, Sequence(programs)).error == []
    ensures var r := Run(tx, world, Sequence(programs));
            Arrives(Behind(programs, hole), tx, world) == Arrives(hole, r.tx, r.world)
    decreases |programs|
  {
    hide Run;
    if programs == [] {
      NothingHappens(tx, world, Skip);
    } else {
      SeqRun(tx, world, programs[0], Sequence(programs[1..]));
      var r := Run(tx, world, programs[0]);
      ArrivesBehind(programs[1..], hole, r.tx, r.world);
    }
  }

  /** The place of the repository's operation in a request. */
  function OperationHole(db: Db, faults: Faults, endpoint: Endpoint, action: Action, check: Program, inner: Faults): Hole {
    FirstOf(Framed(db, faults, Behind(Guards(endpoint, action),
                                      FirstOf(SecondOf(check, Framed(db, inner, Here)), Sequence([endpoint.after])))),
            Answer(endpoint, action))
  }

  lemma RequestIsFilled(db: Db, faults: Faults, inner: Faults, endpoint: Endpoint, action: Action, behaviour: Behaviour,
                        settings: Repository.Settings, operation: Repository.Operation)
    ensures Filled(OperationHole(db, faults, endpoint, action, Checked(behaviour, operation), inner), Body(db, behaviour, settings, operation))
            == Request(db, faults, endpoint, action, Operate(db, inner, behaviour, settings, operation))
  {
    hide Body, Guards, Checked, Sequence, Behind;
    var guards, check, body := Guards(endpoint, action), Checked(behaviour, operation), Body(db, behaviour, settings, operation);
    var hole := SecondOf(check, Framed(db, inner, Here));
    var operate := Operate(db, inner, behaviour, settings, operation);
    assert Filled(Framed(db, inner, Here), body) == Transact(db, inner, body);
    assert Filled(hole, body) == operate;
    FilledBehind(guards, hole, body, [endpoint.after]);
    assert guards + [operate] + [endpoint.after] == guards + [operate, endpoint.after];
  }

  /** The context in which a request checks its operation. */
  function AtOperation(world: World, db: Db, endpoint: Endpoint, action: Action): Outcome {
    RunBody(world, db, Sequence(Guards(endpoint, action)))
  }

  lemma ArrivesAtOperation(world: World, db: Db, faults: Faults, inner: Faults, endpoint: Endpoint, action: Action, check: Program)
    requires !faults.begin && AtOperation(world, db, endpoint, action).error == []
    requires var at := AtOperation(world, db, endpoint, action);
             Run(at.tx, at.world, check).error == []
    ensures var at := AtOperation(world, db, endpoint, action);
            var r := Run(at.tx, at.world, check);
            Arrives(OperationHole(db, faults, endpoint, action, check, inner), None, world) == Some(Place(r.tx, r.world))
            && Joins(r.tx, db) && r.tx.value.id == world.started
  {
    hide Run, Guards, Behind, Sequence;
    var at := AtOperation(world, db, endpoint, action);
    var r := Run(at.tx, at.world, check);
    var tail := FirstOf(SecondOf(check, Framed(db, inner, Here)), Sequence([endpoint.after]));
    ArrivesBehind(Guards(endpoint, action), tail, Some(NewTx(world.started, db)), world.(started := world.started + 1));
    assert Arrives(Framed(db, inner, Here), r.tx, r.world) == Some(Place(r.tx, r.world));
    assert Arrives(tail, at.tx, at.world) == Some(Place(r.tx, r.world));
  }

  /** The operation of a request whose guards pass, and which gets past its find, gets one terminal hook, at the end of
      the request's transaction: the commit hook when the request commits, the rollback hook when anything in the
      request, before or after the operation, keeps it from committing. */
  lemma RequestGetsOneTerminalHook(world: World, db: Db, faults: Faults, inner: Faults, endpoint: Endpoint, action: Action,
                                   behaviour: Behaviour, settings: Repository.Settings, operation: Repository.Operation)
    requires !Repository.Skips(settings, Lifecycle.AfterCommit) && !Repository.Skips(settings, Lifecycle.AfterRollback)
    requires !faults.begin && AtOperation(world, db, endpoint, action).error == []
    requires var at := AtOperation(world, db, endpoint, action);
             var checked := Run(at.tx, at.world, Checked(behaviour, operation));
             checked.error == [] && Registers(checked.tx.value, checked.world, behaviour, operation)
    ensures var request := Request(db, faults, endpoint, action, Operate(db, inner, behaviour, settings, operation));
            var own := Of(Run(None, world, request).events, world.started);
            FollowsFate(own, behaviour(Repository.Hook(Lifecycle.AfterCommit)), behaviour(Repository.Hook(Lifecycle.AfterRollback)))
  {
    hide Run, Registers, Body, Checked, FollowsFate, OperationHole, Arrives, Request, Operate, Filled, AtOperation;
    var hole := OperationHole(db, faults, endpoint, action, Checked(behaviour, operation), inner);
    RequestIsFilled(db, faults, inner, endpoint, action, behaviour, settings, operation);
    ArrivesAtOperation(world, db, faults, inner, endpoint, action, Checked(behaviour, operation));
    OperationGetsOneTerminalHook(world, hole, db, behaviour, settings, operation);
  }

  // ---------------------------------------------------------------------- errors after the transaction

  /** A serializer that fails makes a request return an error although its write stands. */
  lemma SerializerFailsAfterTheWrite(world: World, write: Write, cause: Cause)
    requires write.db == 0
    ensures var r := Run(None, world, Seq(Transact(0, NO_FAULTS, Exec(write)), Fail(cause)));
            r.error == [cause] && r.world.committed == world.committed + [write]
  {
    hide Finish, RunCallbacks;
    var exec := Exec(write);
    var inside, begun := world.(started := world.started + 1), NewTx(world.started, 0);
    assert begun.writes + [write] == [write];
    assert RunBody(world, 0, exec) == Outcome(Some(begun.(writes := [write])), inside, [Wrote(world.started, write)], []);
    assert Settled(world, 0, exec) == begun.(writes := [write]);
    QuietFrame(None, world, 0, exec);
    SeqFails(None, world, Transact(0, NO_FAULTS, exec), cause);
  }

  /** A failing commit hook makes a request return an error although its write stands. */
  lemma CommitHookFailsAfterTheWrite(world: World, write: Write, cause: Cause)
    requires write.db == 0
    ensures var r := Run(None, world, Transact(0, NO_FAULTS, Seq(OnCommit(0, Fail(cause)), Exec(write))));
            r.error == [cause] && r.world.committed == world.committed + [write]
  {
    var hook, exec := Fail(cause), Exec(write);
    var body := Seq(OnCommit(0, hook), exec);
    var begun, inside := NewTx(world.started, 0), world.(started := world.started + 1);
    RegisterRun(begun, inside, AtCommit, hook);
    var a := RunRegister(Some(begun), inside, 0, AtCommit, hook);
    SeqRun(Some(begun), inside, OnCommit(0, hook), exec);
    assert begun.afterCommit + [hook] == [hook] && begun.writes + [write] == [write];
    var settled := begun.(afterCommit := [hook], writes := [write]);
    assert Run(a.tx, inside, exec) == RunExec(a.tx, inside, write);
    assert Settled(world, 0, body) == settled && RunBody(world, 0, body).world == inside;
    RunOpening(None, world, 0, NO_FAULTS, body);
    OneCallback(settled.(done := true), inside.(committed := inside.committed + [write]), hook, cause, body);
  }

  lemma OneCallback(state: Tx, world: World, hook: Program, cause: Cause, bound: Program)
    requires hook == Fail(cause) && hook < bound
    ensures RunCallbacks(state, world, AtCommit, [hook], bound).error == [cause]
    ensures RunCallbacks(state, world, AtCommit, [hook], bound).world == world
  {
    var rest := RunCallbacks(state, world, AtCommit, [], bound);
    assert [hook][1..] == [] && rest == Outcome(Some(state), world, [], []);
    assert Run(Some(state), world, hook) == Outcome(Some(state), world, [], [cause]);
    assert [cause] + [] == [cause];
  }

  // ------------------------------------------------------------------------------------ guard by guard

  /** The steps that must succeed, in this order, before anything is written. */
  function MustSucceed(endpoint: Endpoint, action: Action, n: nat): seq<Program> {
    var first := if action.CreateAction? then endpoint.createEntity else endpoint.find;
    if n == 0 then []
    else if n == 1 then [first]
    else if n == 2 then [first, endpoint.authorize]
    else if n == 3 then [first, endpoint.authorize, endpoint.before]
    else if action.UpdateAction? then [first, endpoint.authorize, endpoint.before, endpoint.updateEntity]
    else [first, endpoint.authorize, endpoint.before]
  }

  lemma GuardsBegin(endpoint: Endpoint, action: Action, n: nat) returns (rest: seq<Program>)
    ensures Guards(endpoint, action) == MustSucceed(endpoint, action, n) + rest
  {
    var k := |MustSucceed(endpoint, action, n)|;
    rest := Guards(endpoint, action)[k..];
  }

  /** A create that cannot build its entity, an update or destroy that cannot find it, any of them that is not authorised or
      fails its before-hook, and an update whose input cannot be applied: nothing after that step runs, the request returns
      an error, and its database is as it was. */
  lemma EachGuardRefuses(world: World, db: Db, faults: Faults, endpoint: Endpoint, action: Action, operation: Program, n: nat)
    requires Contained(RequestBody(endpoint, action, operation), db) && !faults.begin
    requires RunBody(world, db, Sequence(MustSucceed(endpoint, action, n))).error != []
    ensures RunBody(world, db, RequestBody(endpoint, action, operation)) == RunBody(world, db, Sequence(MustSucceed(endpoint, action, n)))
    ensures var r := Run(None, world, Request(db, faults, endpoint, action, operation));
            r.error != [] && OnDb(r.world.committed, db) == OnDb(world.committed, db)
  {
    hide Run, OnDb, Contained, Guards, MustSucceed, Sequence, Request;
    var rest := GuardsBegin(endpoint, action, n);
    SequenceAppend(Some(NewTx(world.started, db)), world.(started := world.started + 1), MustSucceed(endpoint, action, n), rest);
    RefusedRequestWritesNothing(world, db, faults, endpoint, action, operation);
  }
}
