/** The operations of repository/repository.go as programs that run under the transaction coordinator: which terminal
    hook an operation gets, in its own transaction or joined to one at any depth. */
module OperationPrograms {
  import opened Text
  import opened Transaction
  import opened TransactionLaws
  import opened TransactionStore
  import Lifecycle
  import Repository

  /** What every step of an operation does: its handlers, the validator, the statement. `step(Hook(AfterCommit))` and
      `step(Hook(AfterRollback))` are the bodies of the terminal hooks. */
  type Behaviour = Repository.Step -> Program

  function StepProgram(db: Db, behaviour: Behaviour, step: Repository.Step): Program {
    match step
    case Terminal(stage) =>
      if stage.AfterCommit? then OnCommit(db, behaviour(Repository.Hook(stage)))
      else OnRollback(db, behaviour(Repository.Hook(stage)))
    case _ => behaviour(step)
  }

  function Programs(db: Db, behaviour: Behaviour, steps: seq<Repository.Step>): seq<Program> {
    seq(|steps|, i requires 0 <= i < |steps| => StepProgram(db, behaviour, steps[i]))
  }

  /** Programs one after the other, up to the first that fails. */
  function Sequence(programs: seq<Program>): Program {
    if programs == [] then Skip else Seq(programs[0], Sequence(programs[1..]))
  }

  function Chain(db: Db, behaviour: Behaviour, steps: seq<Repository.Step>): Program {
    Sequence(Programs(db, behaviour, steps))
  }

  /** The steps inside an operation's transaction: all but the check of the id, which comes before it. */
  function Inside(operation: Repository.Operation): (steps: seq<Repository.Step>)
    ensures 3 <= |steps| && steps[0] in [Repository.NewId, Repository.Find]
    ensures steps[1] == Repository.Terminal(Lifecycle.AfterCommit) && steps[2] == Repository.Terminal(Lifecycle.AfterRollback)
    ensures Repository.Plan(operation) == (if operation.Create? then [] else [Repository.Check]) + steps
  {
    if operation.Create? then Repository.Plan(operation) else Repository.Plan(operation)[1..]
  }

  /** The callback that an operation runs in its transaction. */
  function Body(db: Db, behaviour: Behaviour, settings: Repository.Settings, operation: Repository.Operation): Program {
    Chain(db, behaviour, Repository.Kept(settings, Inside(operation)))
  }

  /** What an operation does before its transaction. */
  function Checked(behaviour: Behaviour, operation: Repository.Operation): Program {
    if operation.Create? then Skip else behaviour(Repository.Check)
  }

  function Operate(db: Db, faults: Faults, behaviour: Behaviour, settings: Repository.Settings, operation: Repository.Operation): Program {
    Seq(Checked(behaviour, operation), Transact(db, faults, Body(db, behaviour, settings, operation)))
  }

  /** An operation that is refused before its transaction, by a caller that ignores the error, leaves an outer
      transaction as it was: nothing is marked for rollback. */
  lemma RefusedCheckDoomsNothing(tx: Option<Tx>, world: World, db: Db, faults: Faults, behaviour: Behaviour,
                                 settings: Repository.Settings, operation: Repository.Operation, cause: Cause)
    requires !operation.Create? && behaviour(Repository.Check) == Fail(cause)
    ensures Run(tx, world, Operate(db, faults, behaviour, settings, operation)).error == [cause]
    ensures Run(tx, world, Ignore(Operate(db, faults, behaviour, settings, operation))) == Outcome(tx, world, [], [])
  {
    hide Body;
    SeqRun(tx, world, Fail(cause), Transact(db, faults, Body(db, behaviour, settings, operation)));
  }

  lemma {:induction false} SequenceAppend(tx: Option<Tx>, world: World, a: seq<Program>, b: seq<Program>)
    ensures var first := Run(tx, world, Sequence(a));
            var whole := Run(tx, world, Sequence(a + b));
            if first.error != [] then whole == first
            else whole == Run(first.tx, first.world, Sequence(b)).(
                   events := first.events + Run(first.tx, first.world, Sequence(b)).events)
    decreases |a|
  {
    hide Run;
    if a == [] {
      assert a + b == b;
      NothingHappens(tx, world, Sequence(b));
    } else {
      assert (a + b)[0] == a[0] && (a + b)[1..] == a[1..] + b;
      SeqRun(tx, world, a[0], Sequence(a[1..]));
      SeqRun(tx, world, a[0], Sequence(a[1..] + b));
      var r := Run(tx, world, a[0]);
      if r.error == [] {
        SequenceAppend(r.tx, r.world, a[1..], b);
        var rest := Run(r.tx, r.world, Sequence(a[1..]));
        var last := Run(rest.tx, rest.world, Sequence(b));
        assert r.events + (rest.events + last.events) == (r.events + rest.events) + last.events;
      }
    }
  }

  lemma ChainAppend(tx: Option<Tx>, world: World, db: Db, behaviour: Behaviour, a: seq<Repository.Step>, b: seq<Repository.Step>)
    ensures var first := Run(tx, world, Chain(db, behaviour, a));
            var whole := Run(tx, world, Chain(db, behaviour, a + b));
            if first.error != [] then whole == first
            else whole == Run(first.tx, first.world, Chain(db, behaviour, b)).(
                   events := first.events + Run(first.tx, first.world, Chain(db, behaviour, b)).events)
  {
    hide Run, StepProgram;
    SequenceAppend(tx, world, Programs(db, behaviour, a), Programs(db, behaviour, b));
    assert Programs(db, behaviour, a + b) == Programs(db, behaviour, a) + Programs(db, behaviour, b);
  }

  lemma NothingHappens(tx: Option<Tx>, world: World, p: Program)
    ensures Run(tx, world, Skip) == Outcome(tx, world, [], [])
    ensures Run(tx, world, p).(events := [] + Run(tx, world, p).events) == Run(tx, world, p)
  {
    assert [] + Run(tx, world, p).events == Run(tx, world, p).events;
  }

  lemma SeqRun(tx: Option<Tx>, world: World, first: Program, second: Program)
    ensures var r := Run(tx, world, first);
            Run(tx, world, Seq(first, second))
            == if r.error != [] then r else Run(r.tx, r.world, second).(events := r.events + Run(r.tx, r.world, second).events)
  {
    hide Finish, RunCallbacks, RunBody, Settled, RunExec, RunRegister;
  }

  // ------------------------------------------------------------------------------- one terminal hook runs

  predicate IsFate(event: Event) {
    event.Committed? || event.CommitRefused? || event.RolledBack?
  }

  /** The callback is registered with the transaction before it ends. */
  predicate RegisteredIn(own: seq<Event>, kind: Kind, callback: Program) {
    exists i :: 0 <= i < |own| && own[i].Registered? && own[i].kind == kind && own[i].callback == callback
                && forall k :: 0 <= k < i ==> !IsFate(own[k])
  }

  lemma {:induction false} BodyHasNoCalls(body: seq<Event>, kind: Kind)
    requires BodyEvents(body, false)
    ensures Calls(body, kind) == []
  {
    if body != [] {
      BodyHasNoCalls(body[1..], kind);
    }
  }

  lemma CallsOfParts(own: seq<Event>, id: nat, body: seq<Event>, fate: Event, post: seq<Event>, kind: Kind)
    requires LawfulParts(own, id, body, fate, post)
    ensures Calls(own, kind) == Calls(post, kind)
  {
    CallsAppend([Opened(id)] + body + [fate], post, kind);
    CallsAppend([Opened(id)] + body, [fate], kind);
    CallsAppend([Opened(id)], body, kind);
    BodyHasNoCalls(body, kind);
    assert [Opened(id)][1..] == [] && [fate][1..] == [];
  }

  predicate NoFate(events: seq<Event>) {
    forall i :: 0 <= i < |events| ==> !IsFate(events[i])
  }

  /** The transaction's events up to its end. */
  function BeforeEnd(own: seq<Event>): seq<Event> {
    if own == [] || IsFate(own[0]) then [] else [own[0]] + BeforeEnd(own[1..])
  }

  /** The transaction ends, with the fate at which callbacks of this kind are called. */
  predicate EndsFor(own: seq<Event>, kind: Kind) {
    exists i :: 0 <= i < |own| && IsFate(own[i]) && KindAfter(own[i]) == kind
  }

  lemma {:induction false} BeforeEndIs(lead: seq<Event>, fate: Event, post: seq<Event>)
    requires NoFate(lead) && IsFate(fate)
    ensures BeforeEnd(lead + [fate] + post) == lead
  {
    var own := lead + [fate] + post;
    if lead == [] {
      assert own[0] == fate;
    } else {
      assert own[0] == lead[0] && own[1..] == lead[1..] + [fate] + post;
      BeforeEndIs(lead[1..], fate, post);
    }
  }

  lemma RegistrationsOfBody(id: nat, body: seq<Event>, kind: Kind)
    ensures Registrations([Opened(id)] + body, kind) == Registrations(body, kind)
  {
    RegistrationsAppend([Opened(id)], body, kind);
    assert [Opened(id)][1..] == [];
  }

  lemma {:induction false} RegisteredBeforeEnd(own: seq<Event>, kind: Kind, callback: Program)
    ensures RegisteredIn(own, kind, callback) <==> callback in Registrations(BeforeEnd(own), kind)
  {
    if own != [] && !IsFate(own[0]) {
      RegisteredBeforeEnd(own[1..], kind, callback);
      RegisteredStep(own, kind, callback);
      var now := BeforeEnd(own);
      assert now[0] == own[0] && now[1..] == BeforeEnd(own[1..]);
    }
  }

  lemma RegisteredStep(own: seq<Event>, kind: Kind, callback: Program)
    requires own != [] && !IsFate(own[0])
    ensures RegisteredIn(own, kind, callback) <==>
            (own[0].Registered? && own[0].kind == kind && own[0].callback == callback) || RegisteredIn(own[1..], kind, callback)
  {
    if RegisteredIn(own[1..], kind, callback) {
      RegisteredLater([own[0]], own[1..], [], kind, callback);
      assert [own[0]] + own[1..] + [] == own;
    }
    if RegisteredIn(own, kind, callback) {
      var i :| 0 <= i < |own| && own[i].Registered? && own[i].kind == kind && own[i].callback == callback
               && forall k :: 0 <= k < i ==> !IsFate(own[k]);
      if i > 0 {
        assert own[1..][i - 1] == own[i] && forall k :: 0 <= k < i - 1 ==> own[1..][k] == own[k + 1];
      }
    }
  }

  /** What a transaction calls: the callbacks registered before its end for the way it ends, once for each registration and
      in that order, and nothing else. */
  lemma LawfulCalls(own: seq<Event>, id: nat, kind: Kind)
    requires Lawful(own, id)
    ensures Calls(own, kind) == if EndsFor(own, kind) then Registrations(BeforeEnd(own), kind) else []
    ensures EndsFor(own, kind) <==> !EndsFor(own, OtherKind(kind))
  {
    hide Calls, Registrations, Lawful;
    var body, fate, post :| LawfulParts(own, id, body, fate, post) by { LawfulHasParts(own, id); }
    CallsOfParts(own, id, body, fate, post, kind);
    OneFate(own, id, body, fate, post);
    BeforeEndIs([Opened(id)] + body, fate, post);
    RegistrationsOfBody(id, body, kind);
    assert own[1 + |body|] == fate;
    assert EndsFor(own, KindAfter(fate));
  }

  lemma LawfulHasParts(own: seq<Event>, id: nat)
    requires Lawful(own, id)
    ensures exists body, fate, post :: LawfulParts(own, id, body, fate, post)
  {
  }

  /** In every run of every program, for every transaction: the calls of a kind are exactly the callbacks registered before
      its end, once for each registration and in that order, when it ends that way, and none otherwise. What is registered
      later is not called. */
  lemma CallsAreTheEarlyRegistrations(world: World, p: Program, id: nat, kind: Kind)
    ensures var own := Of(Run(None, world, p).events, id);
            Calls(own, kind) == if EndsFor(own, kind) then Registrations(BeforeEnd(own), kind) else []
  {
    hide Run, Lawful, EndsFor;
    var own := Of(Run(None, world, p).events, id);
    if own == [] {
      assert Calls(own, kind) == Registrations(BeforeEnd(own), kind) == [];
    } else {
      OpenedByThen(world, p, id);
      EveryTransactionIsLawful(world, p, id);
      LawfulCalls(own, id, kind);
    }
  }

  /** A callback is called exactly when it was registered before the end of its transaction, for the way that it ends. */
  lemma CalledExactlyWhenRegistered(world: World, p: Program, id: nat, kind: Kind, callback: Program)
    ensures var own := Of(Run(None, world, p).events, id);
            callback in Calls(own, kind) <==> RegisteredIn(own, kind, callback) && EndsFor(own, kind)
  {
    hide Run, RegisteredIn, EndsFor;
    CallsAreTheEarlyRegistrations(world, p, id, kind);
    RegisteredBeforeEnd(Of(Run(None, world, p).events, id), kind, callback);
  }

  /** The callback is called, as often as it was registered and in its place among the others of its kind, and nothing of the
      other kind is. */
  predicate CalledAsRegistered(own: seq<Event>, kind: Kind, callback: Program) {
    && callback in Calls(own, kind)
    && Calls(own, kind) == Registrations(BeforeEnd(own), kind)
    && Calls(own, OtherKind(kind)) == []
  }

  /** Of two hooks, the one for the way the transaction ends is called and no hook of the other kind. */
  predicate FollowsFate(own: seq<Event>, commit: Program, rollback: Program) {
    if exists i :: 0 <= i < |own| && own[i].Committed? then CalledAsRegistered(own, AtCommit, commit)
    else CalledAsRegistered(own, AtRollback, rollback)
  }

  /** In every run of every program, whatever else happens in the transaction: of a commit hook and a rollback hook
      registered before the transaction ends, the one for its fate runs, once for each registration, and no hook of the
      other kind does. */
  lemma OneTerminalHookRuns(world: World, p: Program, id: nat, commit: Program, rollback: Program)
    requires var own := Of(Run(None, world, p).events, id);
             RegisteredIn(own, AtCommit, commit) && RegisteredIn(own, AtRollback, rollback)
    ensures FollowsFate(Of(Run(None, world, p).events, id), commit, rollback)
  {
    hide Run, RegisteredIn, Lawful;
    var own := Of(Run(None, world, p).events, id);
    SomethingRegistered(own, AtCommit, commit);
    OpenedByThen(world, p, id);
    EveryTransactionIsLawful(world, p, id);
    LawfulCalls(own, id, AtCommit);
    LawfulCalls(own, id, AtRollback);
    RegisteredBeforeEnd(own, AtCommit, commit);
    RegisteredBeforeEnd(own, AtRollback, rollback);
    assert EndsFor(own, AtCommit) <==> exists i :: 0 <= i < |own| && own[i].Committed?;
  }

  lemma SomethingRegistered(own: seq<Event>, kind: Kind, callback: Program)
    requires RegisteredIn(own, kind, callback)
    ensures own != []
  {
  }

  /** A transaction with events was opened during the run. */
  lemma OpenedByThen(world: World, p: Program, id: nat)
    requires Of(Run(None, world, p).events, id) != []
    ensures world.started <= id < Run(None, world, p).world.started
  {
    hide Run;
    SpanOfRun(None, world, p);
    var r := Run(None, world, p);
    if !(world.started <= id < r.world.started) {
      Outside(r.events, None, world.started, r.world.started, id);
    }
  }

  lemma OneFate(own: seq<Event>, id: nat, body: seq<Event>, fate: Event, post: seq<Event>)
    requires LawfulParts(own, id, body, fate, post)
    ensures IsFate(fate) && |own| > 1 + |body| && own[1 + |body|] == fate
    ensures forall i :: 0 <= i < |own| && IsFate(own[i]) ==> own[i] == fate
  {
    var lead := [Opened(id)] + body;
    assert forall i :: 0 <= i < |lead| ==> own[i] == lead[i] && !IsFate(lead[i]);
    assert forall i :: |lead| < i < |own| ==> own[i] == post[i - |lead| - 1] && !IsFate(own[i]);
  }

  // ------------------------------------------------------------------------------ operations register both

  /** The operation got as far as registering its terminal hooks. */
  predicate Registers(tx: Tx, world: World, behaviour: Behaviour, operation: Repository.Operation) {
    Run(Some(tx), world, Chain(tx.db, behaviour, Inside(operation)[..1])).error == []
  }

  lemma KeptWhole(settings: Repository.Settings, operation: Repository.Operation)
    requires !Repository.Skips(settings, Lifecycle.AfterCommit) && !Repository.Skips(settings, Lifecycle.AfterRollback)
    ensures 3 <= |Repository.Kept(settings, Inside(operation))|
    ensures Repository.Kept(settings, Inside(operation))[..3] == Inside(operation)[..3]
  {
    hide Inside, Repository.Plan;
    var steps := Inside(operation);
    assert !Repository.SkipsStep(settings, steps[0]);
    KeptPrefix(settings, steps, 3);
    KeptAll(settings, steps[..3]);
  }

  lemma {:induction false} KeptAll(settings: Repository.Settings, plan: seq<Repository.Step>)
    requires forall i :: 0 <= i < |plan| ==> !Repository.SkipsStep(settings, plan[i])
    ensures Repository.Kept(settings, plan) == plan
  {
    if plan != [] {
      KeptAll(settings, plan[..|plan| - 1]);
      assert plan == plan[..|plan| - 1] + [plan[|plan| - 1]];
    }
  }

  lemma {:induction false} KeptPrefix(settings: Repository.Settings, plan: seq<Repository.Step>, n: nat)
    requires n <= |plan|
    ensures Repository.Kept(settings, plan[..n]) <= Repository.Kept(settings, plan)
    decreases |plan|
  {
    if n == |plan| {
      assert plan[..n] == plan;
    } else {
      KeptPrefix(settings, plan[..|plan| - 1], n);
      assert plan[..|plan| - 1][..n] == plan[..n];
    }
  }

  lemma ChainStep(db: Db, behaviour: Behaviour, step: Repository.Step, rest: seq<Repository.Step>)
    ensures Chain(db, behaviour, [step] + rest) == Seq(StepProgram(db, behaviour, step), Chain(db, behaviour, rest))
  {
    assert Programs(db, behaviour, [step] + rest)[1..] == Programs(db, behaviour, rest);
  }

  /** The two registrations, in a transaction of the operation's database. */
  lemma RegistersBoth(tx: Tx, world: World, behaviour: Behaviour, rest: seq<Repository.Step>)
    ensures var steps := [Repository.Terminal(Lifecycle.AfterCommit), Repository.Terminal(Lifecycle.AfterRollback)] + rest;
            var commit, rollback := behaviour(Repository.Hook(Lifecycle.AfterCommit)), behaviour(Repository.Hook(Lifecycle.AfterRollback));
            [Registered(tx.id, AtCommit, commit), Registered(tx.id, AtRollback, rollback)]
            <= Run(Some(tx), world, Chain(tx.db, behaviour, steps)).events
  {
    hide Run, RunRegister;
    var first, second := Repository.Terminal(Lifecycle.AfterCommit), Repository.Terminal(Lifecycle.AfterRollback);
    var steps := [first, second] + rest;
    var commit := behaviour(Repository.Hook(Lifecycle.AfterCommit));
    var rollback := behaviour(Repository.Hook(Lifecycle.AfterRollback));
    var p, q := OnCommit(tx.db, commit), OnRollback(tx.db, rollback);
    RegisterRun(tx, world, AtCommit, commit);
    var a := RunRegister(Some(tx), world, tx.db, AtCommit, commit);
    RegisterRun(a.tx.value, world, AtRollback, rollback);
    assert StepProgram(tx.db, behaviour, first) == p && StepProgram(tx.db, behaviour, second) == q;
    ChainStep(tx.db, behaviour, first, [second] + rest);
    ChainStep(tx.db, behaviour, second, rest);
    assert steps == [first] + ([second] + rest);
    SeqRun(Some(tx), world, p, Chain(tx.db, behaviour, [second] + rest));
    SeqRun(a.tx, world, q, Chain(tx.db, behaviour, rest));
  }

  lemma RegisterRun(tx: Tx, world: World, kind: Kind, callback: Program)
    ensures Run(Some(tx), world, if kind.AtCommit? then OnCommit(tx.db, callback) else OnRollback(tx.db, callback))
            == RunRegister(Some(tx), world, tx.db, kind, callback)
    ensures var r := RunRegister(Some(tx), world, tx.db, kind, callback);
            r.error == [] && r.world == world && r.events == [Registered(tx.id, kind, callback)]
            && r.tx.Some? && r.tx.value.id == tx.id && r.tx.value.db == tx.db
  {
  }

  /** An operation that gets past its find registers both of its terminal hooks with the transaction it runs in. */
  lemma OperationRegisters(tx: Tx, world: World, behaviour: Behaviour, settings: Repository.Settings, operation: Repository.Operation)
    requires tx.id < world.started && Coherent(tx) && Registers(tx, world, behaviour, operation)
    requires !Repository.Skips(settings, Lifecycle.AfterCommit) && !Repository.Skips(settings, Lifecycle.AfterRollback)
    ensures var own := Of(Run(Some(tx), world, Body(tx.db, behaviour, settings, operation)).events, tx.id);
            RegisteredIn(own, AtCommit, behaviour(Repository.Hook(Lifecycle.AfterCommit)))
            && RegisteredIn(own, AtRollback, behaviour(Repository.Hook(Lifecycle.AfterRollback)))
  {
    hide Run, Chain, Repository.Plan, Repository.Kept, Inside;
    var steps, kept := Inside(operation), Repository.Kept(settings, Inside(operation));
    KeptWhole(settings, operation);
    var terminal := [Repository.Terminal(Lifecycle.AfterCommit), Repository.Terminal(Lifecycle.AfterRollback)];
    var rest := kept[3..];
    assert steps[..3] == steps[..1] + terminal;
    assert kept == steps[..1] + (terminal + rest);
    ChainAppend(Some(tx), world, tx.db, behaviour, steps[..1], terminal + rest);
    var lead := Run(Some(tx), world, Chain(tx.db, behaviour, steps[..1]));
    RegistersBoth(lead.tx.value, lead.world, behaviour, rest);
    var more := Run(lead.tx, lead.world, Chain(tx.db, behaviour, terminal + rest));
    var both := [Registered(tx.id, AtCommit, behaviour(Repository.Hook(Lifecycle.AfterCommit))),
                 Registered(tx.id, AtRollback, behaviour(Repository.Hook(Lifecycle.AfterRollback)))];
    assert more.events == both + more.events[2..];
    OfAppend(lead.events, more.events, tx.id);
    OfAppend(both, more.events[2..], tx.id);
    OfBoth(both, tx.id);
    StateFollowsEvents(tx, world, Chain(tx.db, behaviour, steps[..1]));
    RegisteredAt(Of(lead.events, tx.id), both, Of(more.events[2..], tx.id), 0);
    RegisteredAt(Of(lead.events, tx.id), both, Of(more.events[2..], tx.id), 1);
    assert Of(lead.events, tx.id) + (both + Of(more.events[2..], tx.id)) == Of(lead.events, tx.id) + both + Of(more.events[2..], tx.id);
  }

  lemma OfBoth(both: seq<Event>, id: nat)
    requires |both| == 2 && Mentions(both[0], id) && Mentions(both[1], id)
    ensures Of(both, id) == both
  {
    assert both[1..][1..] == [] && both == [both[0]] + [both[1]];
    assert Of(both[1..], id) == [both[1]];
  }

  lemma RegisteredAt(lead: seq<Event>, both: seq<Event>, rest: seq<Event>, k: nat)
    requires k < |both| && (forall i :: 0 <= i < |both| ==> both[i].Registered?) && (forall i :: 0 <= i < |lead| ==> !IsFate(lead[i]))
    ensures RegisteredIn(lead + both + rest, both[k].kind, both[k].callback)
  {
    var own := lead + both + rest;
    assert own[|lead| + k] == both[k];
    assert forall i :: 0 <= i < |lead| ==> own[i] == lead[i];
    assert forall i :: |lead| <= i < |lead| + k ==> own[i] == both[i - |lead|];
  }

  lemma RegisteredLater(before: seq<Event>, own: seq<Event>, after: seq<Event>, kind: Kind, callback: Program)
    requires RegisteredIn(own, kind, callback) && forall i :: 0 <= i < |before| ==> !IsFate(before[i])
    ensures RegisteredIn(before + own + after, kind, callback)
  {
    var i :| 0 <= i < |own| && own[i].Registered? && own[i].kind == kind && own[i].callback == callback
             && forall k :: 0 <= k < i ==> !IsFate(own[k]);
    var all := before + own + after;
    assert all[|before| + i] == own[i];
    assert forall k :: 0 <= k < |before| ==> all[k] == before[k];
    assert forall k :: |before| <= k < |before| + i ==> all[k] == own[k - |before|];
  }

  // ------------------------------------------------------------------------------------- joined operations

  /** A place inside a program that can be reached: the frames, steps and ignored bodies around it. */
  datatype Hole =
    | Here
    | FirstOf(hole: Hole, second: Program)
    | SecondOf(first: Program, hole: Hole)
    | Ignored(hole: Hole)
    | Framed(db: Db, faults: Faults, hole: Hole)

  function Filled(hole: Hole, p: Program): Program {
    match hole
    case Here => p
    case FirstOf(inner, second) => Seq(Filled(inner, p), second)
    case SecondOf(first, inner) => Seq(first, Filled(inner, p))
    case Ignored(inner) => Ignore(Filled(inner, p))
    case Framed(db, faults, inner) => Transact(db, faults, Filled(inner, p))
  }

  datatype Place = Place(tx: Option<Tx>, world: World)

  /** The context and the world in which a run gets to the hole, if it does. */
  function Arrives(hole: Hole, tx: Option<Tx>, world: World): Option<Place> {
    match hole
    case Here => Some(Place(tx, world))
    case FirstOf(inner, _) => Arrives(inner, tx, world)
    case SecondOf(first, inner) =>
      var r := Run(tx, world, first);
      if r.error != [] then None else Arrives(inner, r.tx, r.world)
    case Ignored(inner) => Arrives(inner, tx, world)
    case Framed(db, faults, inner) =>
      if Joins(tx, db) then Arrives(inner, tx, world)
      else if faults.begin then None
      else Arrives(inner, Some(NewTx(world.started, db)), world.(started := world.started + 1))
  }

  /** The run gets to the hole inside a transaction of `db`. */
  predicate ArrivesIn(hole: Hole, tx: Option<Tx>, world: World, db: Db) {
    Arrives(hole, tx, world).Some? && Joins(Arrives(hole, tx, world).value.tx, db)
  }

  predicate Runnable(tx: Option<Tx>, world: World) {
    tx.Some? ==> tx.value.id < world.started && Coherent(tx.value)
  }

  lemma RunnableAfter(tx: Option<Tx>, world: World, p: Program)
    requires Runnable(tx, world)
    ensures Runnable(Run(tx, world, p).tx, Run(tx, world, p).world)
  {
    hide Run, After;
    SpanOfRun(tx, world, p);
    if tx.Some? {
      StateFollowsEvents(tx.value, world, p);
    }
  }

  /** Before the context's transaction or a later one ends, nothing a program does is its end. */
  lemma NoFateYet(tx: Option<Tx>, world: World, p: Program, id: nat)
    requires Runnable(tx, world)
    requires OwnId(tx) == Some(id) || Run(tx, world, p).world.started <= id
    ensures NoFate(Of(Run(tx, world, p).events, id))
  {
    hide Run, After;
    SpanOfRun(tx, world, p);
    if OwnId(tx) == Some(id) {
      StateFollowsEvents(tx.value, world, p);
    } else {
      Outside(Run(tx, world, p).events, OwnId(tx), world.started, Run(tx, world, p).world.started, id);
    }
  }

  /** A run that gets to the hole does there what the program does from there; the transaction it is in has not ended
      before. */
  lemma {:induction false} AtTheHole(hole: Hole, tx: Option<Tx>, world: World, p: Program)
    returns (before: seq<Event>, after: seq<Event>)
    requires Runnable(tx, world) && Arrives(hole, tx, world).Some? && Arrives(hole, tx, world).value.tx.Some?
    ensures var place := Arrives(hole, tx, world).value;
            var id := place.tx.value.id;
            Run(tx, world, Filled(hole, p)).events == before + Run(place.tx, place.world, p).events + after
            && NoFate(Of(before, id)) && Runnable(place.tx, place.world)
            && (OwnId(tx) == Some(id) || world.started <= id)
    decreases hole
  {
    hide Run, Runnable, IsFate, Of, NoFate;
    var place := Arrives(hole, tx, world).value;
    var id := place.tx.value.id;
    match hole
    case Here =>
      before, after := [], [];
      NothingAround(Run(tx, world, p).events, id);
    case FirstOf(inner, second) =>
      before, after := AtTheHole(inner, tx, world, p);
      SeqRun(tx, world, Filled(inner, p), second);
      var r := Run(tx, world, Filled(inner, p));
      if r.error == [] {
        var later := Run(r.tx, r.world, second).events;
        MoreAround([], before, Run(place.tx, place.world, p).events, after, later);
        after := after + later;
      }
    case SecondOf(first, inner) =>
      var r := Run(tx, world, first);
      RunnableAfter(tx, world, first);
      before, after := AtTheHole(inner, r.tx, r.world, p);
      SeqRun(tx, world, first, Filled(inner, p));
      SpanOfFirst(tx, world, first);
      NoFateYet(tx, world, first, id);
      NoFateAppend(r.events, before, id);
      MoreAround(r.events, before, Run(place.tx, place.world, p).events, after, []);
      before := r.events + before;
    case Ignored(inner) =>
      before, after := AtTheHole(inner, tx, world, p);
      IgnoreRun(tx, world, Filled(inner, p));
    case Framed(db, faults, inner) =>
      var q := Filled(inner, p);
      if Joins(tx, db) {
        before, after := AtTheHole(inner, tx, world, p);
        JoinedRun(tx, world, db, faults, q);
        var returned := [Returned(tx.value.id, Run(tx, world, q).error)];
        MoreAround([], before, Run(place.tx, place.world, p).events, after, returned);
        after := after + returned;
      } else {
        NewIsRunnable(world, db);
        before, after := AtTheHole(inner, Some(NewTx(world.started, db)), world.(started := world.started + 1), p);
        before, after := AroundOpening(tx, world, db, faults, q, id, before, Run(place.tx, place.world, p).events, after);
      }
  }

  lemma NothingAround(middle: seq<Event>, id: nat)
    ensures [] + middle + [] == middle && NoFate(Of([], id))
  {
  }

  lemma MoreAround(first: seq<Event>, before: seq<Event>, middle: seq<Event>, after: seq<Event>, last: seq<Event>)
    ensures (first + before) + middle + (after + last) == first + (before + middle + after) + last
    ensures [] + before == before && after + [] == after && [] + (before + middle + after) + last == before + middle + after + last
    ensures first + (before + middle + after) + [] == first + (before + middle + after)
  {
  }

  lemma NewIsRunnable(world: World, db: Db)
    ensures Runnable(Some(NewTx(world.started, db)), world.(started := world.started + 1))
    ensures NoFate([Opened(world.started)])
  {
  }

  lemma SpanOfFirst(tx: Option<Tx>, world: World, p: Program)
    requires Runnable(tx, world)
    ensures world.started <= Run(tx, world, p).world.started
  {
    hide Run;
    SpanOfRun(tx, world, p);
  }

  lemma AroundOpening(tx: Option<Tx>, world: World, db: Db, faults: Faults, body: Program, id: nat, before: seq<Event>,
                      middle: seq<Event>, after: seq<Event>) returns (earlier: seq<Event>, later: seq<Event>)
    requires !Joins(tx, db) && !faults.begin && NoFate(Of(before, id))
    requires RunBody(world, db, body).events == before + middle + after
    ensures Run(tx, world, Transact(db, faults, body)).events == earlier + middle + later && NoFate(Of(earlier, id))
  {
    hide Run, RunBody, Settled, Finish;
    RunOpening(tx, world, db, faults, body);
    var r := RunBody(world, db, body);
    var end := [Returned(world.started, r.error)] + Finish(Settled(world, db, body), r.world, faults, body).events;
    OfOne(Opened(world.started), id);
    NoFateAppend([Opened(world.started)], before, id);
    MoreAround([Opened(world.started)], before, middle, after, end);
    earlier, later := [Opened(world.started)] + before, after + end;
    assert [Opened(world.started)] + r.events + end == Run(tx, world, Transact(db, faults, body)).events;
  }

  lemma IgnoreRun(tx: Option<Tx>, world: World, p: Program)
    ensures Run(tx, world, Ignore(p)) == Run(tx, world, p).(error := [])
  {
  }

  lemma JoinedRun(tx: Option<Tx>, world: World, db: Db, faults: Faults, p: Program)
    requires Joins(tx, db)
    ensures var r := Run(tx, world, p);
            Run(tx, world, Transact(db, faults, p))
            == Outcome(Some(Mark(r.tx.value, r.error)), r.world, r.events + [Returned(tx.value.id, r.error)], r.error)
  {
  }

  lemma NoFateAppend(a: seq<Event>, b: seq<Event>, id: nat)
    requires NoFate(Of(a, id)) && NoFate(Of(b, id))
    ensures NoFate(Of(a + b, id))
  {
    OfAppend(a, b, id);
  }

  /** An operation with any hooks that gets past its find, wherever a program runs it: in a frame of its own, joined to
      an outer transaction at any depth, after other steps, with its error ignored or not. When the transaction that it
      runs in commits, its commit hook runs and no rollback hook, and otherwise its rollback hook and no commit hook. */
  lemma OperationGetsOneTerminalHook(world: World, hole: Hole, db: Db, behaviour: Behaviour, settings: Repository.Settings,
                                     operation: Repository.Operation)
    requires !Repository.Skips(settings, Lifecycle.AfterCommit) && !Repository.Skips(settings, Lifecycle.AfterRollback)
    requires ArrivesIn(hole, None, world, db)
    requires var place := Arrives(hole, None, world).value;
             Registers(place.tx.value, place.world, behaviour, operation)
    ensures var id := Arrives(hole, None, world).value.tx.value.id;
            var own := Of(Run(None, world, Filled(hole, Body(db, behaviour, settings, operation))).events, id);
            FollowsFate(own, behaviour(Repository.Hook(Lifecycle.AfterCommit)), behaviour(Repository.Hook(Lifecycle.AfterRollback)))
  {
    hide Run, Registers, RegisteredIn, Body, IsFate, Arrives, FollowsFate;
    var place := Arrives(hole, None, world).value;
    var id, body := place.tx.value.id, Body(db, behaviour, settings, operation);
    var whole := Filled(hole, body);
    var commit := behaviour(Repository.Hook(Lifecycle.AfterCommit));
    var rollback := behaviour(Repository.Hook(Lifecycle.AfterRollback));
    var before, after := AtTheHole(hole, None, world, body);
    OperationRegisters(place.tx.value, place.world, behaviour, settings, operation);
    var middle := Run(place.tx, place.world, body).events;
    OfAppend(before + middle, after, id);
    OfAppend(before, middle, id);
    RegisteredLater(Of(before, id), Of(middle, id), Of(after, id), AtCommit, commit);
    RegisteredLater(Of(before, id), Of(middle, id), Of(after, id), AtRollback, rollback);
    OneTerminalHookRuns(world, whole, id, commit, rollback);
  }

  /** An operation that a caller starts outside any transaction. */
  lemma OwnOperationGetsOneTerminalHook(world: World, db: Db, faults: Faults, behaviour: Behaviour,
                                        settings: Repository.Settings, operation: Repository.Operation)
    requires !faults.begin && !Repository.Skips(settings, Lifecycle.AfterCommit) && !Repository.Skips(settings, Lifecycle.AfterRollback)
    requires var checked := Run(None, world, Checked(behaviour, operation));
             checked.error == [] && Registers(NewTx(checked.world.started, db),
                                              checked.world.(started := checked.world.started + 1), behaviour, operation)
    ensures var id := Run(None, world, Checked(behaviour, operation)).world.started;
            var own := Of(Run(None, world, Operate(db, faults, behaviour, settings, operation)).events, id);
            FollowsFate(own, behaviour(Repository.Hook(Lifecycle.AfterCommit)), behaviour(Repository.Hook(Lifecycle.AfterRollback)))
  {
    hide Run, Registers, Body, Checked, FollowsFate;
    var hole := SecondOf(Checked(behaviour, operation), Framed(db, faults, Here));
    var checked := Run(None, world, Checked(behaviour, operation));
    assert checked.tx == None;
    assert Arrives(Framed(db, faults, Here), None, checked.world)
        == Some(Place(Some(NewTx(checked.world.started, db)), checked.world.(started := checked.world.started + 1)));
    assert Filled(Framed(db, faults, Here), Body(db, behaviour, settings, operation))
        == Transact(db, faults, Body(db, behaviour, settings, operation));
    OperationGetsOneTerminalHook(world, hole, db, behaviour, settings, operation);
  }
}
