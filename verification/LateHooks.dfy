/** Operations that a terminal hook starts: they join a transaction that has ended, and what they register with it comes
    too late. */
module LateHooks {
  import opened Text
  import opened Transaction
  import opened TransactionLaws
  import opened TransactionStore
  import opened OperationPrograms
  import Lifecycle
  import Repository

  // ------------------------------------------------------------------------------- what a frame calls

  function FateKind(state: Tx, faults: Faults): Kind {
    if state.rollbackOnly || faults.commit then AtRollback else AtCommit
  }

  /** The callbacks that the end of a frame takes its snapshot of. */
  function Fired(state: Tx, faults: Faults): seq<Program> {
    if FateKind(state, faults).AtCommit? then state.afterCommit else state.afterRollback
  }

  /** The context and the world in which callback `k` of the terminal phase runs. */
  function AtCallback(state: Tx, world: World, callbacks: seq<Program>, k: nat): Place
    requires k < |callbacks|
    decreases k
  {
    if k == 0 then Place(Some(state), world)
    else
      var r := Run(Some(state), world, callbacks[0]);
      AtCallback(r.tx.value, r.world, callbacks[1..], k - 1)
  }

  /** A callback of the terminal phase runs there, in the ended transaction. */
  lemma {:induction false} CallbackRuns(state: Tx, world: World, kind: Kind, callbacks: seq<Program>, bound: Program, k: nat)
    returns (before: seq<Event>, after: seq<Event>)
    requires (forall c :: c in callbacks ==> c < bound) && k < |callbacks|
    requires Runnable(Some(state), world) && state.done
    ensures var at := AtCallback(state, world, callbacks, k);
            at.tx.Some? && at.tx.value.id == state.id && at.tx.value.db == state.db && at.tx.value.done && Runnable(at.tx, at.world)
            && RunCallbacks(state, world, kind, callbacks, bound).events == before + Run(at.tx, at.world, callbacks[k]).events + after
    decreases k
  {
    hide Run, Runnable;
    assert callbacks[0] in callbacks && forall c :: c in callbacks[1..] ==> c in callbacks;
    var call := [Called(state.id, kind, callbacks[0])];
    var r := Run(Some(state), world, callbacks[0]);
    var rest := RunCallbacks(r.tx.value, r.world, kind, callbacks[1..], bound);
    if k == 0 {
      before, after := call, rest.events;
    } else {
      RunnableAfter(Some(state), world, callbacks[0]);
      KeepsDone(state, world, callbacks[0]);
      before, after := CallbackRuns(r.tx.value, r.world, kind, callbacks[1..], bound, k - 1);
      var at := AtCallback(state, world, callbacks, k);
      MoreAround(call + r.events, before, Run(at.tx, at.world, callbacks[k]).events, after, []);
      before := call + r.events + before;
    }
  }

  lemma KeepsDone(state: Tx, world: World, p: Program)
    requires Runnable(Some(state), world)
    ensures Run(Some(state), world, p).tx.value.done == state.done
  {
    hide Run, After;
    StateFollowsEvents(state, world, p);
    AfterKeepsDone(state, Of(Run(Some(state), world, p).events, state.id));
  }

  /** The world in which the terminal phase of a frame begins. */
  function AtTheEnd(world: World, db: Db, faults: Faults, body: Program): World {
    var w, state := RunBody(world, db, body).world, Settled(world, db, body);
    if FateKind(state, faults).AtCommit? then w.(committed := w.committed + state.writes) else w
  }

  lemma FinishCalls(state: Tx, world: World, faults: Faults, bound: Program)
    requires forall c :: c in state.afterCommit || c in state.afterRollback ==> c < bound
    ensures var w := if FateKind(state, faults).AtCommit? then world.(committed := world.committed + state.writes) else world;
            var events := Finish(state, world, faults, bound).events;
            events != [] && IsFate(events[0]) && KindAfter(events[0]) == FateKind(state, faults) && events[0].id == state.id
            && events[1..] == RunCallbacks(state.(done := true), w, FateKind(state, faults), Fired(state, faults), bound).events
  {
    hide RunCallbacks;
  }

  /** The events of a frame that opens its transaction, from its terminal phase on. */
  lemma FrameEnds(tx: Option<Tx>, world: World, db: Db, faults: Faults, body: Program) returns (lead: seq<Event>)
    requires !Joins(tx, db) && !faults.begin
    ensures var state, end := Settled(world, db, body), AtTheEnd(world, db, faults, body);
            Run(tx, world, Transact(db, faults, body)).events
            == lead + RunCallbacks(state.(done := true), end, FateKind(state, faults), Fired(state, faults), body).events
    ensures Runnable(Some(Settled(world, db, body).(done := true)), AtTheEnd(world, db, faults, body))
    ensures Settled(world, db, body).id == world.started
  {
    hide Run, RunBody, Settled, RunCallbacks, Finish, After, Fired;
    var state, r := Settled(world, db, body), RunBody(world, db, body);
    RunOpening(tx, world, db, faults, body);
    SettledFollows(world, db, body);
    FinishCalls(state, r.world, faults, body);
    var end := Finish(state, r.world, faults, body).events;
    lead := [Opened(world.started)] + r.events + [Returned(world.started, r.error)] + [end[0]];
    assert end == [end[0]] + end[1..];
    assert lead + end[1..] == [Opened(world.started)] + r.events + [Returned(world.started, r.error)] + end;
  }

  /** A frame calls the snapshot of its list and nothing else, whatever those callbacks do. */
  lemma FrameCalls(tx: Option<Tx>, world: World, db: Db, faults: Faults, body: Program)
    requires !Joins(tx, db) && !faults.begin && (tx.Some? ==> tx.value.id < world.started)
    ensures var own, state := Of(Run(tx, world, Transact(db, faults, body)).events, world.started), Settled(world, db, body);
            Lawful(own, world.started)
            && Calls(own, FateKind(state, faults)) == Fired(state, faults) && Calls(own, OtherKind(FateKind(state, faults))) == []
  {
    hide Run, RunBody, Settled, RunCallbacks, Finish, After, Fired, FateKind, Lawful, BodyEvents;
    var id, state, r := world.started, Settled(world, db, body), RunBody(world, db, body);
    var kind, end := FateKind(state, faults), AtTheEnd(world, db, faults, body);
    var ended := state.(done := true);
    OpenedIsLawful(tx, world, db, faults, body);
    RunOpening(tx, world, db, faults, body);
    SettledFollows(world, db, body);
    FinishCalls(state, r.world, faults, body);
    var finish := Finish(state, r.world, faults, body).events;
    OfFrame(id, r.events, r.error, finish);
    FiredAreSmaller(state, faults, body);
    AtTheEndStarts(world, db, faults, body);
    CallbacksAreCalled(ended, end, kind, Fired(state, faults), body);
    var hooks := RunCallbacks(ended, end, kind, Fired(state, faults), body).events;
    assert finish == [finish[0]] + hooks;
    OfAppend([finish[0]], hooks, id);
    OfOne(finish[0], id);
    var mine := Of(r.events, id) + [Returned(id, r.error)];
    OnlyTheEndCalls(id, mine, finish[0], Of(hooks, id), kind);
    OnlyTheEndCalls(id, mine, finish[0], Of(hooks, id), OtherKind(kind));
    assert [Opened(id)] + mine + ([finish[0]] + Of(hooks, id)) == [Opened(id)] + mine + [finish[0]] + Of(hooks, id);
  }

  lemma AtTheEndStarts(world: World, db: Db, faults: Faults, body: Program)
    ensures AtTheEnd(world, db, faults, body).started == RunBody(world, db, body).world.started
  {
  }

  lemma FiredAreSmaller(state: Tx, faults: Faults, bound: Program)
    requires forall c :: c in state.afterCommit || c in state.afterRollback ==> c < bound
    ensures forall c :: c in Fired(state, faults) ==> c < bound
  {
  }

  lemma OnlyTheEndCalls(id: nat, mine: seq<Event>, fate: Event, post: seq<Event>, kind: Kind)
    requires BodyEvents(mine, false) && IsFate(fate)
    ensures Calls([Opened(id)] + mine + [fate] + post, kind) == Calls(post, kind)
  {
    CallsAppend([Opened(id)] + mine + [fate], post, kind);
    CallsAppend([Opened(id)] + mine, [fate], kind);
    CallsAppend([Opened(id)], mine, kind);
    BodyHasNoCalls(mine, kind);
    assert [Opened(id)][1..] == [] && [fate][1..] == [];
  }

  // --------------------------------------------------------------------- an operation inside a callback

  lemma {:induction false} OfHolds(events: seq<Event>, id: nat, event: Event)
    ensures event in Of(events, id) <==> event in events && Mentions(event, id)
  {
    if events != [] {
      OfHolds(events[1..], id, event);
      assert events == [events[0]] + events[1..];
    }
  }

  lemma RegisteredInHolds(own: seq<Event>, id: nat, kind: Kind, callback: Program)
    requires RegisteredIn(own, kind, callback) && forall i :: 0 <= i < |own| ==> Mentions(own[i], id)
    ensures Registered(id, kind, callback) in own
  {
    var i :| 0 <= i < |own| && own[i].Registered? && own[i].kind == kind && own[i].callback == callback;
    assert own[i] == Registered(id, kind, callback);
  }

  lemma {:induction false} OfMentions(events: seq<Event>, id: nat)
    ensures forall i :: 0 <= i < |Of(events, id)| ==> Mentions(Of(events, id)[i], id)
  {
    if events != [] {
      OfMentions(events[1..], id);
    }
  }

  /** An operation at a hole of some program registers its hooks in the events of that program's run. */
  lemma HoleRegisters(hole: Hole, tx: Option<Tx>, world: World, behaviour: Behaviour, settings: Repository.Settings,
                      operation: Repository.Operation, db: Db)
    requires !Repository.Skips(settings, Lifecycle.AfterCommit) && !Repository.Skips(settings, Lifecycle.AfterRollback)
    requires Runnable(tx, world) && ArrivesIn(hole, tx, world, db)
    requires var place := Arrives(hole, tx, world).value;
             Registers(place.tx.value, place.world, behaviour, operation)
    ensures var id := Arrives(hole, tx, world).value.tx.value.id;
            var events := Run(tx, world, Filled(hole, Body(db, behaviour, settings, operation))).events;
            Registered(id, AtCommit, behaviour(Repository.Hook(Lifecycle.AfterCommit))) in events
            && Registered(id, AtRollback, behaviour(Repository.Hook(Lifecycle.AfterRollback))) in events
  {
    hide Run, Registers, RegisteredIn, Body, Arrives, Of;
    var place := Arrives(hole, tx, world).value;
    var id, body := place.tx.value.id, Body(db, behaviour, settings, operation);
    var commit := behaviour(Repository.Hook(Lifecycle.AfterCommit));
    var rollback := behaviour(Repository.Hook(Lifecycle.AfterRollback));
    var before, after := AtTheHole(hole, tx, world, body);
    OperationRegisters(place.tx.value, place.world, behaviour, settings, operation);
    var middle := Run(place.tx, place.world, body).events;
    OfMentions(middle, id);
    RegisteredInHolds(Of(middle, id), id, AtCommit, commit);
    RegisteredInHolds(Of(middle, id), id, AtRollback, rollback);
    OfHolds(middle, id, Registered(id, AtCommit, commit));
    OfHolds(middle, id, Registered(id, AtRollback, rollback));
  }

  /** The run of a frame's callback `k` gets, in the ended transaction, to the operation at this place of the callback, and
      the operation gets to its registrations. */
  predicate StartsInCallback(world: World, db: Db, faults: Faults, body: Program, k: nat, hole: Hole, behaviour: Behaviour,
                             settings: Repository.Settings, operation: Repository.Operation)
  {
    var state := Settled(world, db, body);
    k < |Fired(state, faults)| && Fired(state, faults)[k] == Filled(hole, Body(db, behaviour, settings, operation))
    && var at := AtCallback(state.(done := true), AtTheEnd(world, db, faults, body), Fired(state, faults), k);
       ArrivesIn(hole, at.tx, at.world, db)
       && var place := Arrives(hole, at.tx, at.world).value;
          place.tx.value.id == world.started && Registers(place.tx.value, place.world, behaviour, operation)
  }

  /** Of any frame, by any callback and in any place of it: an operation that the terminal phase starts in the ended
      transaction registers both of its terminal hooks there, and neither registration has an effect. The transaction calls
      the snapshot that it took before, so that a hook is called only if it had been registered before the end. */
  lemma OperationInAHookGetsNone(tx: Option<Tx>, world: World, db: Db, faults: Faults, body: Program, k: nat, hole: Hole,
                                 behaviour: Behaviour, settings: Repository.Settings, operation: Repository.Operation)
    requires !Joins(tx, db) && !faults.begin && (tx.Some? ==> tx.value.id < world.started)
    requires !Repository.Skips(settings, Lifecycle.AfterCommit) && !Repository.Skips(settings, Lifecycle.AfterRollback)
    requires StartsInCallback(world, db, faults, body, k, hole, behaviour, settings, operation)
    ensures var own, state := Of(Run(tx, world, Transact(db, faults, body)).events, world.started), Settled(world, db, body);
            var commit, rollback := behaviour(Repository.Hook(Lifecycle.AfterCommit)), behaviour(Repository.Hook(Lifecycle.AfterRollback));
            Registered(world.started, AtCommit, commit) in own && Registered(world.started, AtRollback, rollback) in own
            && Calls(own, FateKind(state, faults)) == Fired(state, faults) && Calls(own, OtherKind(FateKind(state, faults))) == []
            && (!RegisteredIn(own, AtCommit, commit) ==> commit !in Calls(own, AtCommit))
            && (!RegisteredIn(own, AtRollback, rollback) ==> rollback !in Calls(own, AtRollback))
  {
    hide Run, RunBody, Settled, RunCallbacks, Registers, Body, Arrives, ArrivesIn, Fired, FateKind, AtTheEnd, AtCallback, Lawful, EndsFor,
      RegisteredIn, Runnable, Of, Calls;
    var id, state, end := world.started, Settled(world, db, body), AtTheEnd(world, db, faults, body);
    var ended, fired := state.(done := true), Fired(state, faults);
    var commit, rollback := behaviour(Repository.Hook(Lifecycle.AfterCommit)), behaviour(Repository.Hook(Lifecycle.AfterRollback));
    var whole := Run(tx, world, Transact(db, faults, body)).events;
    FrameCalls(tx, world, db, faults, body);
    var lead := FrameEnds(tx, world, db, faults, body);
    FiredAreSmaller(state, faults, body);
    var before, after := CallbackRuns(ended, end, FateKind(state, faults), fired, body, k);
    var at := AtCallback(ended, end, fired, k);
    HoleRegisters(hole, at.tx, at.world, behaviour, settings, operation, db);
    OfHolds(whole, id, Registered(id, AtCommit, commit));
    OfHolds(whole, id, Registered(id, AtRollback, rollback));
    var own := Of(whole, id);
    LawfulCalls(own, id, AtCommit);
    LawfulCalls(own, id, AtRollback);
    RegisteredBeforeEnd(own, AtCommit, commit);
    RegisteredBeforeEnd(own, AtRollback, rollback);
  }

  // ---------------------------------------------------------------------------------- such an operation

  /** The ended transaction in which the one commit hook of a frame runs. */
  function Ended(world: World, db: Db, hook: Program): Tx {
    NewTx(world.started, db).(done := true, afterCommit := [hook])
  }

  lemma OneHookBody(world: World, db: Db, hook: Program)
    ensures var r := RunBody(world, db, OnCommit(db, hook));
            r.tx == Some(NewTx(world.started, db).(afterCommit := [hook])) && r.world == world.(started := world.started + 1)
            && r.error == []
  {
    hide Finish, RunCallbacks, Settled;
    assert [] + [hook] == [hook];
  }

  lemma OneHookSettles(world: World, db: Db, hook: Program)
    ensures Settled(world, db, OnCommit(db, hook)) == NewTx(world.started, db).(afterCommit := [hook])
    ensures AtTheEnd(world, db, NO_FAULTS, OnCommit(db, hook)) == world.(started := world.started + 1)
  {
    hide Run, RunBody, Finish, RunCallbacks;
    OneHookBody(world, db, hook);
    assert world.committed + [] == world.committed;
  }

  lemma {:induction false} SmallerThanSequence(programs: seq<Program>, k: nat)
    requires k < |programs|
    ensures programs[k] < Sequence(programs)
    decreases k
  {
    if k > 0 {
      SmallerThanSequence(programs[1..], k - 1);
    }
  }

  /** An operation is not its own hook. */
  lemma HookIsSmaller(db: Db, faults: Faults, behaviour: Behaviour, settings: Repository.Settings, operation: Repository.Operation)
    requires !Repository.Skips(settings, Lifecycle.AfterCommit) && !Repository.Skips(settings, Lifecycle.AfterRollback)
    ensures behaviour(Repository.Hook(Lifecycle.AfterCommit)) < Operate(db, faults, behaviour, settings, operation)
  {
    hide Inside, Repository.Kept, Checked, Sequence;
    KeptWhole(settings, operation);
    var kept := Repository.Kept(settings, Inside(operation));
    assert kept[1] == kept[..3][1] == Repository.Terminal(Lifecycle.AfterCommit);
    var programs := Programs(db, behaviour, kept);
    assert programs[1] == OnCommit(db, behaviour(Repository.Hook(Lifecycle.AfterCommit)));
    SmallerThanSequence(programs, 1);
  }

  /** An operation in an after-commit hook, that gets to its registrations there: both of its hooks are registered, the only
      call is the outer hook, and its own commit hook is not called although the transaction has committed. */
  lemma OperationInACommitHook(world: World, db: Db, behaviour: Behaviour, settings: Repository.Settings, operation: Repository.Operation)
    requires !Repository.Skips(settings, Lifecycle.AfterCommit) && !Repository.Skips(settings, Lifecycle.AfterRollback)
    requires var operate := Operate(db, NO_FAULTS, behaviour, settings, operation);
             var checked := Run(Some(Ended(world, db, operate)), world.(started := world.started + 1), Checked(behaviour, operation));
             checked.error == [] && Registers(checked.tx.value, checked.world, behaviour, operation)
    ensures var operate := Operate(db, NO_FAULTS, behaviour, settings, operation);
            var own := Of(Run(None, world, Transact(db, NO_FAULTS, OnCommit(db, operate))).events, world.started);
            var commit, rollback := behaviour(Repository.Hook(Lifecycle.AfterCommit)), behaviour(Repository.Hook(Lifecycle.AfterRollback));
            Registered(world.started, AtCommit, commit) in own && Registered(world.started, AtRollback, rollback) in own
            && Calls(own, AtCommit) == [operate] && Calls(own, AtRollback) == [] && commit !in Calls(own, AtCommit)
  {
    hide Run, Settled, RunCallbacks, Registers, Body, Checked, AtTheEnd, Of, Calls;
    var operate := Operate(db, NO_FAULTS, behaviour, settings, operation);
    var body, hole := OnCommit(db, operate), SecondOf(Checked(behaviour, operation), Framed(db, NO_FAULTS, Here));
    var inside, ended := world.(started := world.started + 1), Ended(world, db, operate);
    var checked := Run(Some(ended), inside, Checked(behaviour, operation));
    OneHookSettles(world, db, operate);
    HookIsSmaller(db, NO_FAULTS, behaviour, settings, operation);
    assert Filled(Framed(db, NO_FAULTS, Here), Body(db, behaviour, settings, operation))
        == Transact(db, NO_FAULTS, Body(db, behaviour, settings, operation));
    assert Filled(hole, Body(db, behaviour, settings, operation)) == operate;
    assert Arrives(Framed(db, NO_FAULTS, Here), checked.tx, checked.world) == Some(Place(checked.tx, checked.world));
    assert Arrives(hole, Some(ended), inside) == Some(Place(checked.tx, checked.world));
    assert StartsInCallback(world, db, NO_FAULTS, body, 0, hole, behaviour, settings, operation);
    OperationInAHookGetsNone(None, world, db, NO_FAULTS, body, 0, hole, behaviour, settings, operation);
  }

  /** Creating an entity in an after-commit hook is such an operation. */
  lemma CreateInACommitHook(world: World, db: Db, behaviour: Behaviour, settings: Repository.Settings)
    requires !Repository.Skips(settings, Lifecycle.AfterCommit) && !Repository.Skips(settings, Lifecycle.AfterRollback)
    requires behaviour(Repository.NewId) == Skip
    ensures var operate := Operate(db, NO_FAULTS, behaviour, settings, Repository.Create);
            var own := Of(Run(None, world, Transact(db, NO_FAULTS, OnCommit(db, operate))).events, world.started);
            var commit, rollback := behaviour(Repository.Hook(Lifecycle.AfterCommit)), behaviour(Repository.Hook(Lifecycle.AfterRollback));
            Registered(world.started, AtCommit, commit) in own && Registered(world.started, AtRollback, rollback) in own
            && Calls(own, AtCommit) == [operate] && Calls(own, AtRollback) == [] && commit !in Calls(own, AtCommit)
  {
    hide Operate, Of, Calls;
    var operate := Operate(db, NO_FAULTS, behaviour, settings, Repository.Create);
    var tx, inside := Some(Ended(world, db, operate)), world.(started := world.started + 1);
    var steps := Inside(Repository.Create);
    assert steps[..1] == [Repository.NewId] + [];
    ChainStep(db, behaviour, Repository.NewId, []);
    assert Chain(db, behaviour, []) == Skip;
    assert Chain(db, behaviour, steps[..1]) == Seq(Skip, Skip);
    SeqRun(tx, inside, Skip, Skip);
    assert Run(tx, inside, Skip) == Outcome(tx, inside, [], []);
    OperationInACommitHook(world, db, behaviour, settings, Repository.Create);
  }
}
