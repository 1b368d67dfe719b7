/** Laws of the transaction coordinator, for every program, every nesting and every fault. */
module TransactionLaws {
  import opened Text
  import opened Transaction

  // ---- Reading a list of events

  predicate Mentions(event: Event, id: nat) {
    !event.Direct? && event.id == id
  }

  /** The events of one transaction. */
  function Of(events: seq<Event>, id: nat): seq<Event> {
    if events == [] then []
    else if Mentions(events[0], id) then [events[0]] + Of(events[1..], id)
    else Of(events[1..], id)
  }

  /** The error of the first frame, in time, to return one. */
  function FirstFailure(events: seq<Event>): Error {
    if events == [] then []
    else if events[0].Returned? && events[0].error != [] then events[0].error
    else FirstFailure(events[1..])
  }

  function Writes(events: seq<Event>): seq<Write> {
    if events == [] then []
    else if events[0].Wrote? then [events[0].write] + Writes(events[1..])
    else Writes(events[1..])
  }

  function Registrations(events: seq<Event>, kind: Kind): seq<Program> {
    if events == [] then []
    else if events[0].Registered? && events[0].kind == kind then [events[0].callback] + Registrations(events[1..], kind)
    else Registrations(events[1..], kind)
  }

  function Calls(events: seq<Event>, kind: Kind): seq<Program> {
    if events == [] then []
    else if events[0].Called? && events[0].kind == kind then [events[0].callback] + Calls(events[1..], kind)
    else Calls(events[1..], kind)
  }

  lemma {:induction false} OfAppend(a: seq<Event>, b: seq<Event>, id: nat)
    ensures Of(a + b, id) == Of(a, id) + Of(b, id)
  {
    if a == [] {
      assert a + b == b;
    } else {
      assert (a + b)[1..] == a[1..] + b;
      OfAppend(a[1..], b, id);
    }
  }

  lemma {:induction false} FirstFailureAppend(a: seq<Event>, b: seq<Event>)
    ensures FirstFailure(a + b) == if FirstFailure(a) == [] then FirstFailure(b) else FirstFailure(a)
  {
    if a == [] {
      assert a + b == b;
    } else {
      assert (a + b)[1..] == a[1..] + b;
      FirstFailureAppend(a[1..], b);
    }
  }

  lemma {:induction false} WritesAppend(a: seq<Event>, b: seq<Event>)
    ensures Writes(a + b) == Writes(a) + Writes(b)
  {
    if a == [] {
      assert a + b == b;
    } else {
      assert (a + b)[1..] == a[1..] + b;
      WritesAppend(a[1..], b);
    }
  }

  lemma {:induction false} RegistrationsAppend(a: seq<Event>, b: seq<Event>, kind: Kind)
    ensures Registrations(a + b, kind) == Registrations(a, kind) + Registrations(b, kind)
  {
    if a == [] {
      assert a + b == b;
    } else {
      assert (a + b)[1..] == a[1..] + b;
      RegistrationsAppend(a[1..], b, kind);
    }
  }

  lemma {:induction false} CallsAppend(a: seq<Event>, b: seq<Event>, kind: Kind)
    ensures Calls(a + b, kind) == Calls(a, kind) + Calls(b, kind)
  {
    if a == [] {
      assert a + b == b;
    } else {
      assert (a + b)[1..] == a[1..] + b;
      CallsAppend(a[1..], b, kind);
    }
  }

  // ---- Which transactions an execution can touch

  /** Every event belongs to the context's transaction or to one opened meanwhile. */
  predicate InSpan(events: seq<Event>, own: Option<nat>, low: nat, high: nat) {
    forall i :: 0 <= i < |events| ==> events[i].Direct? || own == Some(events[i].id) || low <= events[i].id < high
  }

  function OwnId(tx: Option<Tx>): Option<nat> {
    if tx.Some? then Some(tx.value.id) else None
  }

  lemma {:induction false} Outside(events: seq<Event>, own: Option<nat>, low: nat, high: nat, id: nat)
    requires InSpan(events, own, low, high) && own != Some(id) && !(low <= id < high)
    ensures Of(events, id) == []
  {
    if events != [] {
      Outside(events[1..], own, low, high, id);
    }
  }

  lemma {:induction false} SpanOfRun(tx: Option<Tx>, world: World, p: Program)
    requires tx.Some? ==> tx.value.id < world.started
    ensures var r := Run(tx, world, p);
            world.started <= r.world.started && InSpan(r.events, OwnId(tx), world.started, r.world.started)
    decreases p, 0
  {
    hide Finish, RunCallbacks;
    match p
    case Seq(first, second) =>
      SpanOfRun(tx, world, first);
      var r := Run(tx, world, first);
      if r.error == [] {
        SpanOfRun(r.tx, r.world, second);
      }
    case Ignore(body) => SpanOfRun(tx, world, body);
    case Transact(db, faults, body) =>
      if Joins(tx, db) {
        SpanOfRun(tx, world, body);
      } else if !faults.begin {
        RunOpening(tx, world, db, faults, body);
        SpanOfRun(Some(NewTx(world.started, db)), world.(started := world.started + 1), body);
        SpanOfFinish(Settled(world, db, body), RunBody(world, db, body).world, faults, body);
      }
    case _ =>
  }

  lemma {:induction false} SpanOfFinish(state: Tx, world: World, faults: Faults, bound: Program)
    requires forall c :: c in state.afterCommit || c in state.afterRollback ==> c < bound
    requires state.id < world.started
    ensures var r := Finish(state, world, faults, bound);
            world.started <= r.world.started && InSpan(r.events, Some(state.id), world.started, r.world.started)
    decreases bound, |state.afterCommit| + |state.afterRollback| + 1
  {
    var ended := state.(done := true);
    if state.rollbackOnly || faults.commit {
      SpanOfCallbacks(ended, world, AtRollback, state.afterRollback, bound);
    } else {
      SpanOfCallbacks(ended, world.(committed := world.committed + state.writes), AtCommit, state.afterCommit, bound);
    }
  }

  lemma {:induction false} SpanOfCallbacks(state: Tx, world: World, kind: Kind, callbacks: seq<Program>, bound: Program)
    requires forall c :: c in callbacks ==> c < bound
    requires state.id < world.started
    ensures var r := RunCallbacks(state, world, kind, callbacks, bound);
            world.started <= r.world.started && InSpan(r.events, Some(state.id), world.started, r.world.started)
    decreases bound, |callbacks|
  {
    if callbacks != [] {
      assert callbacks[0] in callbacks && forall c :: c in callbacks[1..] ==> c in callbacks;
      SpanOfRun(Some(state), world, callbacks[0]);
      var r := Run(Some(state), world, callbacks[0]);
      SpanOfCallbacks(r.tx.value, r.world, kind, callbacks[1..], bound);
    }
  }

  // ---- The state of a transaction is what its events say

  /** The rollback-only flag and the cause always agree. */
  predicate Coherent(tx: Tx) {
    tx.rollbackOnly <==> tx.rollbackCause != []
  }

  /** The state that a list of a transaction's own events leads to. */
  function After(tx: Tx, mine: seq<Event>): Tx {
    var failure := FirstFailure(mine);
    tx.(writes := tx.writes + Writes(mine),
        rollbackOnly := tx.rollbackOnly || failure != [],
        rollbackCause := if tx.rollbackCause != [] then tx.rollbackCause else failure,
        afterCommit := tx.afterCommit + Registrations(mine, AtCommit),
        afterRollback := tx.afterRollback + Registrations(mine, AtRollback))
  }

  /** What a running body records about its own transaction; nothing is written once it is done. */
  predicate BodyEvents(mine: seq<Event>, done: bool) {
    forall i :: 0 <= i < |mine| ==>
      mine[i].Registered? || mine[i].Returned? || (mine[i].Wrote? && !done)
  }

  lemma AfterTwice(tx: Tx, a: seq<Event>, b: seq<Event>)
    ensures After(After(tx, a), b) == After(tx, a + b)
  {
    FirstFailureAppend(a, b);
    WritesAppend(a, b);
    RegistrationsAppend(a, b, AtCommit);
    RegistrationsAppend(a, b, AtRollback);
    assert tx.writes + Writes(a) + Writes(b) == tx.writes + (Writes(a) + Writes(b));
    assert tx.afterCommit + Registrations(a, AtCommit) + Registrations(b, AtCommit)
        == tx.afterCommit + (Registrations(a, AtCommit) + Registrations(b, AtCommit));
    assert tx.afterRollback + Registrations(a, AtRollback) + Registrations(b, AtRollback)
        == tx.afterRollback + (Registrations(a, AtRollback) + Registrations(b, AtRollback));
  }

  lemma AfterNothing(tx: Tx)
    ensures After(tx, []) == tx
  {
  }

  /** The effect of a single event on the state. */
  lemma AfterOne(tx: Tx, event: Event)
    requires Coherent(tx)
    ensures After(tx, [event]) ==
            match event
            case Wrote(_, write) => tx.(writes := tx.writes + [write])
            case Registered(_, kind, callback) =>
              if kind.AtCommit? then tx.(afterCommit := tx.afterCommit + [callback])
              else tx.(afterRollback := tx.afterRollback + [callback])
            case Returned(_, error) => Mark(tx, error)
            case _ => tx
  {
    assert [event][1..] == [];
    assert Writes([event]) == if event.Wrote? then [event.write] else [];
    assert forall kind :: Registrations([event], kind)
                          == if event.Registered? && event.kind == kind then [event.callback] else [];
    assert FirstFailure([event]) == if event.Returned? then event.error else [];
    assert tx.writes + [] == tx.writes && tx.afterCommit + [] == tx.afterCommit && tx.afterRollback + [] == tx.afterRollback;
  }

  lemma OfOne(event: Event, id: nat)
    ensures Of([event], id) == if Mentions(event, id) then [event] else []
  {
    assert [event][1..] == [];
  }

  lemma {:induction false} StateFollowsEvents(tx: Tx, world: World, p: Program)
    requires tx.id < world.started && Coherent(tx)
    ensures var r := Run(Some(tx), world, p);
            var mine := Of(r.events, tx.id);
            r.tx == Some(After(tx, mine)) && BodyEvents(mine, tx.done) && Coherent(r.tx.value)
    decreases p
  {
    hide After, RunCallbacks, Finish;
    var r := Run(Some(tx), world, p);
    match p
    case Skip => AfterNothing(tx);
    case Fail(cause) => AfterNothing(tx);
    case Exec(write) => ExecFollows(tx, world, write);
    case OnCommit(db, callback) => RegisterFollows(tx, world, db, AtCommit, callback);
    case OnRollback(db, callback) => RegisterFollows(tx, world, db, AtRollback, callback);
    case Seq(first, second) =>
      StateFollowsEvents(tx, world, first);
      var a := Run(Some(tx), world, first);
      if a.error == [] {
        SpanOfRun(Some(tx), world, first);
        StateFollowsEvents(a.tx.value, a.world, second);
        var b := Run(a.tx, a.world, second);
        OfAppend(a.events, b.events, tx.id);
        AfterTwice(tx, Of(a.events, tx.id), Of(b.events, tx.id));
        AfterKeepsDone(tx, Of(a.events, tx.id));
      }
    case Ignore(body) => StateFollowsEvents(tx, world, body);
    case Transact(db, faults, body) =>
      if tx.db == db {
        StateFollowsEvents(tx, world, body);
        var a := Run(Some(tx), world, body);
        var returned := Returned(tx.id, a.error);
        OfAppend(a.events, [returned], tx.id);
        OfOne(returned, tx.id);
        AfterOne(a.tx.value, returned);
        AfterTwice(tx, Of(a.events, tx.id), [returned]);
      } else if faults.begin {
        AfterNothing(tx);
      } else {
        SpanOfOpening(Some(tx), world, db, faults, body);
        Outside(r.events, None, world.started, r.world.started, tx.id);
        AfterNothing(tx);
        RunOpening(Some(tx), world, db, faults, body);
      }
  }

  lemma AfterKeepsDone(tx: Tx, mine: seq<Event>)
    ensures After(tx, mine).done == tx.done && After(tx, mine).id == tx.id
  {
  }

  lemma ExecFollows(tx: Tx, world: World, write: Write)
    requires Coherent(tx)
    ensures var r := RunExec(Some(tx), world, write);
            var mine := Of(r.events, tx.id);
            r.tx == Some(After(tx, mine)) && BodyEvents(mine, tx.done) && Coherent(r.tx.value)
  {
    hide After;
    AfterNothing(tx);
    OfOne(Wrote(tx.id, write), tx.id);
    AfterOne(tx, Wrote(tx.id, write));
    OfOne(Direct(write), tx.id);
  }

  lemma RegisterFollows(tx: Tx, world: World, db: Db, kind: Kind, callback: Program)
    requires Coherent(tx)
    ensures var r := RunRegister(Some(tx), world, db, kind, callback);
            var mine := Of(r.events, tx.id);
            r.tx == Some(After(tx, mine)) && BodyEvents(mine, tx.done) && Coherent(r.tx.value)
  {
    hide After;
    AfterNothing(tx);
    OfOne(Registered(tx.id, kind, callback), tx.id);
    AfterOne(tx, Registered(tx.id, kind, callback));
  }

  /** A frame that opens its own transaction touches no older one. */
  lemma SpanOfOpening(tx: Option<Tx>, world: World, db: Db, faults: Faults, body: Program)
    requires !Joins(tx, db) && !faults.begin && (tx.Some? ==> tx.value.id < world.started)
    ensures var r := Run(tx, world, Transact(db, faults, body));
            world.started < r.world.started && InSpan(r.events, None, world.started, r.world.started)
  {
    hide Run, Finish, RunCallbacks;
    RunOpening(tx, world, db, faults, body);
    SpanOfRun(Some(NewTx(world.started, db)), world.(started := world.started + 1), body);
    SpanOfFinish(Settled(world, db, body), RunBody(world, db, body).world, faults, body);
  }

  // ---- Every transaction of every run ends once, and runs one list of callbacks once

  /** What the terminal phase records: calls, and late registrations and returns, which nothing reads. */
  predicate TerminalEvents(post: seq<Event>) {
    forall i :: 0 <= i < |post| ==> post[i].Called? || post[i].Registered? || post[i].Returned?
  }

  /** The commit is attempted exactly when no frame returned an error. */
  predicate FateMatches(fate: Event, failure: Error) {
    if failure != [] then fate.RolledBack? else fate.Committed? || fate.CommitRefused?
  }

  function OtherKind(kind: Kind): Kind {
    if kind.AtCommit? then AtRollback else AtCommit
  }

  function KindAfter(fate: Event): Kind {
    if fate.Committed? then AtCommit else AtRollback
  }

  /** A transaction's events are its opening, its body, one fate that fits the body, and then the calls of
      exactly the callbacks that the body registered for that fate, once each and in order. */
  predicate LawfulParts(events: seq<Event>, id: nat, body: seq<Event>, fate: Event, post: seq<Event>) {
    && events == [Opened(id)] + body + [fate] + post
    && BodyEvents(body, false) && TerminalEvents(post)
    && FateMatches(fate, FirstFailure(body))
    && Calls(post, KindAfter(fate)) == Registrations(body, KindAfter(fate))
    && Calls(post, OtherKind(KindAfter(fate))) == []
  }

  ghost predicate Lawful(events: seq<Event>, id: nat) {
    exists body, fate, post :: LawfulParts(events, id, body, fate, post)
  }

  lemma {:induction false} NoCalls(mine: seq<Event>, kind: Kind)
    requires BodyEvents(mine, true)
    ensures Calls(mine, kind) == []
  {
    if mine != [] {
      NoCalls(mine[1..], kind);
    }
  }

  lemma {:induction false} CallbacksAreCalled(state: Tx, world: World, kind: Kind, callbacks: seq<Program>, bound: Program)
    requires forall c :: c in callbacks ==> c < bound
    requires state.done && Coherent(state) && state.id < world.started
    ensures var mine := Of(RunCallbacks(state, world, kind, callbacks, bound).events, state.id);
            TerminalEvents(mine) && Calls(mine, kind) == callbacks && Calls(mine, OtherKind(kind)) == []
    decreases |callbacks|
  {
    hide Run, After;
    if callbacks != [] {
      assert callbacks[0] in callbacks && forall c :: c in callbacks[1..] ==> c in callbacks;
      var id, call := state.id, Called(state.id, kind, callbacks[0]);
      var r := Run(Some(state), world, callbacks[0]);
      var rest := RunCallbacks(r.tx.value, r.world, kind, callbacks[1..], bound);
      SpanOfRun(Some(state), world, callbacks[0]);
      StateFollowsEvents(state, world, callbacks[0]);
      AfterKeepsDone(state, Of(r.events, id));
      CallbacksAreCalled(r.tx.value, r.world, kind, callbacks[1..], bound);
      OfAppend([call] + r.events, rest.events, id);
      OfAppend([call], r.events, id);
      OfOne(call, id);
      CallsOfCallback(call, Of(r.events, id), Of(rest.events, id), kind, callbacks);
    }
  }

  lemma CallsOfCallback(call: Event, mine: seq<Event>, later: seq<Event>, kind: Kind, callbacks: seq<Program>)
    requires callbacks != [] && call.Called? && call.kind == kind && call.callback == callbacks[0]
    requires BodyEvents(mine, true) && TerminalEvents(later)
    requires Calls(later, kind) == callbacks[1..] && Calls(later, OtherKind(kind)) == []
    ensures TerminalEvents([call] + mine + later)
    ensures Calls([call] + mine + later, kind) == callbacks && Calls([call] + mine + later, OtherKind(kind)) == []
  {
    var other := OtherKind(kind);
    CallsAppend([call] + mine, later, kind);
    CallsAppend([call] + mine, later, other);
    CallsAppend([call], mine, kind);
    CallsAppend([call], mine, other);
    NoCalls(mine, kind);
    NoCalls(mine, other);
    assert [call][1..] == [];
  }

  lemma OfFrame(id: nat, inner: seq<Event>, error: Error, end: seq<Event>)
    ensures Of([Opened(id)] + inner + [Returned(id, error)] + end, id)
            == [Opened(id)] + (Of(inner, id) + [Returned(id, error)]) + Of(end, id)
  {
    var returned := Returned(id, error);
    OfAppend([Opened(id)] + inner + [returned], end, id);
    OfAppend([Opened(id)] + inner, [returned], id);
    OfAppend([Opened(id)], inner, id);
    OfOne(Opened(id), id);
    OfOne(returned, id);
  }

  /** The events of the transaction that a frame opens. */
  lemma OpenedIsLawful(tx: Option<Tx>, world: World, db: Db, faults: Faults, body: Program)
    requires !Joins(tx, db) && !faults.begin && (tx.Some? ==> tx.value.id < world.started)
    ensures Lawful(Of(Run(tx, world, Transact(db, faults, body)).events, world.started), world.started)
  {
    hide Run, RunBody, Finish, Settled, RunCallbacks, After, LawfulParts, Of;
    var id := world.started;
    var r := RunBody(world, db, body);
    var end := Finish(Settled(world, db, body), r.world, faults, body);
    RunOpening(tx, world, db, faults, body);
    OfFrame(id, r.events, r.error, end.events);
    SettledFollows(world, db, body);
    FinishIsLawful(world, db, faults, body, Of(r.events, id) + [Returned(id, r.error)]);
  }

  lemma SettledFollows(world: World, db: Db, body: Program)
    ensures var r := RunBody(world, db, body);
            var mine := Of(r.events, world.started) + [Returned(world.started, r.error)];
            Settled(world, db, body) == After(NewTx(world.started, db), mine) && BodyEvents(mine, false)
            && Coherent(Settled(world, db, body)) && world.started < r.world.started
  {
    hide Run, After;
    var begun := NewTx(world.started, db);
    var r := RunBody(world, db, body);
    SpanOfRun(Some(begun), world.(started := world.started + 1), body);
    StateFollowsEvents(begun, world.(started := world.started + 1), body);
    AfterOne(r.tx.value, Returned(world.started, r.error));
    AfterTwice(begun, Of(r.events, world.started), [Returned(world.started, r.error)]);
  }

  lemma FinishIsLawful(world: World, db: Db, faults: Faults, body: Program, mine: seq<Event>)
    requires var state := Settled(world, db, body);
             state == After(NewTx(world.started, db), mine) && BodyEvents(mine, false) && Coherent(state)
             && world.started < RunBody(world, db, body).world.started
    ensures var end := Finish(Settled(world, db, body), RunBody(world, db, body).world, faults, body);
            Lawful([Opened(world.started)] + mine + Of(end.events, world.started), world.started)
  {
    hide Run, RunCallbacks;
    var id, state, w := world.started, Settled(world, db, body), RunBody(world, db, body).world;
    var end := Finish(state, w, faults, body);
    var ended := state.(done := true);
    var commits := !state.rollbackOnly && !faults.commit;
    var kind := if commits then AtCommit else AtRollback;
    var callbacks := if commits then state.afterCommit else state.afterRollback;
    var published := if commits then w.(committed := w.committed + state.writes) else w;
    var fate := if state.rollbackOnly then RolledBack(id) else if faults.commit then CommitRefused(id) else Committed(id);
    var hooks := RunCallbacks(ended, published, kind, callbacks, body);
    assert end.events == [fate] + hooks.events;
    CallbacksAreCalled(ended, published, kind, callbacks, body);
    OfAppend([fate], hooks.events, id);
    OfOne(fate, id);
    var post := Of(hooks.events, id);
    assert callbacks == Registrations(mine, kind) by {
      assert [] + Registrations(mine, kind) == Registrations(mine, kind);
    }
    assert [Opened(id)] + mine + ([fate] + post) == [Opened(id)] + mine + [fate] + post;
    assert LawfulParts([Opened(id)] + mine + Of(end.events, id), id, mine, fate, post);
  }

  /** Every transaction opened in `[low, high)` is lawful in `events`. */
  ghost predicate AllLawful(events: seq<Event>, low: nat, high: nat) {
    forall id :: low <= id < high ==> Lawful(Of(events, id), id)
  }

  /** Two stretches of events, the second opening only later transactions. */
  lemma LawfulAppend(a: seq<Event>, b: seq<Event>, own: Option<nat>, low: nat, middle: nat, high: nat)
    requires low <= middle <= high && (own.Some? ==> own.value < low)
    requires InSpan(a, own, low, middle) && InSpan(b, own, middle, high)
    requires AllLawful(a, low, middle) && AllLawful(b, middle, high)
    ensures AllLawful(a + b, low, high)
  {
    hide Lawful;
    forall id | low <= id < high ensures Lawful(Of(a + b, id), id) {
      OfAppend(a, b, id);
      if id < middle {
        Outside(b, own, middle, high, id);
        assert Of(a, id) + [] == Of(a, id);
      } else {
        Outside(a, own, low, middle, id);
        assert [] + Of(b, id) == Of(b, id);
      }
    }
  }

  lemma {:induction false} RunIsLawful(tx: Option<Tx>, world: World, p: Program)
    requires tx.Some? ==> tx.value.id < world.started
    ensures var r := Run(tx, world, p);
            AllLawful(r.events, world.started, r.world.started)
    decreases p, 0
  {
    hide Lawful, Finish, RunCallbacks;
    match p
    case Seq(first, second) =>
      RunIsLawful(tx, world, first);
      SpanOfRun(tx, world, first);
      var a := Run(tx, world, first);
      if a.error == [] {
        RunIsLawful(a.tx, a.world, second);
        SpanOfRun(a.tx, a.world, second);
        var b := Run(a.tx, a.world, second);
        LawfulAppend(a.events, b.events, OwnId(tx), world.started, a.world.started, b.world.started);
      }
    case Ignore(body) => RunIsLawful(tx, world, body);
    case Transact(db, faults, body) =>
      if Joins(tx, db) {
        RunIsLawful(tx, world, body);
        SpanOfRun(tx, world, body);
        var a := Run(tx, world, body);
        LawfulAppend(a.events, [Returned(tx.value.id, a.error)], OwnId(tx), world.started, a.world.started, a.world.started);
      } else if !faults.begin {
        OpeningIsLawful(tx, world, db, faults, body);
      }
    case _ =>
  }

  lemma {:induction false} OpeningIsLawful(tx: Option<Tx>, world: World, db: Db, faults: Faults, body: Program)
    requires !Joins(tx, db) && !faults.begin && (tx.Some? ==> tx.value.id < world.started)
    ensures var r := Run(tx, world, Transact(db, faults, body));
            AllLawful(r.events, world.started, r.world.started)
    decreases body, 1
  {
    hide Lawful, Run, Finish, RunCallbacks;
    var id, w := world.started, world.(started := world.started + 1);
    var r := RunBody(world, db, body);
    var state := Settled(world, db, body);
    var end := Finish(state, r.world, faults, body);
    var total := Run(tx, world, Transact(db, faults, body));
    RunOpening(tx, world, db, faults, body);
    OpenedIsLawful(tx, world, db, faults, body);
    SpanOfRun(Some(NewTx(id, db)), w, body);
    RunIsLawful(Some(NewTx(id, db)), w, body);
    SpanOfFinish(state, r.world, faults, body);
    FinishLawful(state, r.world, faults, body);
    var returned := [Returned(id, r.error)];
    LawfulAppend([Opened(id)], r.events, Some(id), id + 1, id + 1, r.world.started);
    LawfulAppend([Opened(id)] + r.events, returned, Some(id), id + 1, r.world.started, r.world.started);
    LawfulAppend([Opened(id)] + r.events + returned, end.events, Some(id), id + 1, r.world.started, end.world.started);
    assert AllLawful(total.events, id + 1, total.world.started);
  }

  lemma {:induction false} FinishLawful(state: Tx, world: World, faults: Faults, bound: Program)
    requires forall c :: c in state.afterCommit || c in state.afterRollback ==> c < bound
    requires state.id < world.started
    ensures var r := Finish(state, world, faults, bound);
            AllLawful(r.events, world.started, r.world.started)
    decreases bound, 0, |state.afterCommit| + |state.afterRollback| + 1
  {
    hide Lawful, Run, RunCallbacks;
    var ended := state.(done := true);
    var commits := !state.rollbackOnly && !faults.commit;
    var kind := if commits then AtCommit else AtRollback;
    var callbacks := if commits then state.afterCommit else state.afterRollback;
    var published := if commits then world.(committed := world.committed + state.writes) else world;
    var fate := if state.rollbackOnly then RolledBack(state.id) else if faults.commit then CommitRefused(state.id)
                else Committed(state.id);
    CallbacksLawful(ended, published, kind, callbacks, bound);
    SpanOfCallbacks(ended, published, kind, callbacks, bound);
    var hooks := RunCallbacks(ended, published, kind, callbacks, bound);
    LawfulAppend([fate], hooks.events, Some(state.id), world.started, world.started, hooks.world.started);
  }

  lemma {:induction false} CallbacksLawful(state: Tx, world: World, kind: Kind, callbacks: seq<Program>, bound: Program)
    requires forall c :: c in callbacks ==> c < bound
    requires state.id < world.started
    ensures var r := RunCallbacks(state, world, kind, callbacks, bound);
            AllLawful(r.events, world.started, r.world.started)
    decreases bound, 0, |callbacks|
  {
    hide Lawful, Run;
    if callbacks != [] {
      assert callbacks[0] in callbacks && forall c :: c in callbacks[1..] ==> c in callbacks;
      var call := [Called(state.id, kind, callbacks[0])];
      var r := Run(Some(state), world, callbacks[0]);
      var rest := RunCallbacks(r.tx.value, r.world, kind, callbacks[1..], bound);
      SpanOfRun(Some(state), world, callbacks[0]);
      RunIsLawful(Some(state), world, callbacks[0]);
      SpanOfCallbacks(r.tx.value, r.world, kind, callbacks[1..], bound);
      CallbacksLawful(r.tx.value, r.world, kind, callbacks[1..], bound);
      LawfulAppend(call, r.events, Some(state.id), world.started, world.started, r.world.started);
      LawfulAppend(call + r.events, rest.events, Some(state.id), world.started, r.world.started, rest.world.started);
    }
  }

  /** In every run of every program outside a transaction, every transaction opened, at any depth and by any
      frame or callback, commits or tries to exactly when none of its frames returned an error, and then
      calls exactly the callbacks its frames registered for that outcome, once each, in order. */
  lemma EveryTransactionIsLawful(world: World, p: Program, id: nat)
    requires world.started <= id < Run(None, world, p).world.started
    ensures Lawful(Of(Run(None, world, p).events, id), id)
  {
    RunIsLawful(None, world, p);
  }
}
