/** What transactions publish: all the writes of a committed one, none of any other. */
module TransactionStore {
  import opened Text
  import opened Transaction
  import opened TransactionLaws

  /** What one event publishes, given the events before it. */
  function PublishedBy(past: seq<Event>, event: Event): seq<Write> {
    match event
    case Direct(write) => [write]
    case Committed(id) => Writes(Of(past, id))
    case _ => []
  }

  /** What a list of events publishes, in order. */
  function Published(past: seq<Event>, events: seq<Event>): seq<Write>
    decreases |events|
  {
    if events == [] then []
    else PublishedBy(past, events[0]) + Published(past + [events[0]], events[1..])
  }

  lemma {:induction false} PublishedAppend(past: seq<Event>, a: seq<Event>, b: seq<Event>)
    ensures Published(past, a + b) == Published(past, a) + Published(past + a, b)
    decreases |a|
  {
    hide PublishedBy;
    if a == [] {
      assert a + b == b && past + a == past;
    } else {
      assert (a + b)[1..] == a[1..] + b && (a + b)[0] == a[0];
      PublishedAppend(past + [a[0]], a[1..], b);
      assert past + [a[0]] + a[1..] == past + a;
    }
  }

  lemma PublishedOne(past: seq<Event>, event: Event)
    ensures Published(past, [event]) == PublishedBy(past, event) && Published(past, []) == []
  {
    assert [event][1..] == [];
  }

  /** `past` has no event of a transaction that is still to be opened. */
  predicate Before(past: seq<Event>, started: nat) {
    InSpan(past, None, 0, started)
  }

  lemma BeforeAppend(past: seq<Event>, events: seq<Event>, own: Option<nat>, low: nat, high: nat)
    requires Before(past, low) && InSpan(events, own, low, high) && low <= high
    requires own.Some? ==> own.value < low
    ensures Before(past + events, high)
  {
  }

  /** The committed writes grow by exactly what the events publish. */
  lemma {:induction false} RunPublishes(past: seq<Event>, tx: Option<Tx>, world: World, p: Program)
    requires Before(past, world.started) && (tx.Some? ==> tx.value.id < world.started && Coherent(tx.value))
    ensures var r := Run(tx, world, p);
            r.world.committed == world.committed + Published(past, r.events)
    decreases p, 0
  {
    hide Finish, RunCallbacks, PublishedBy, Before, InSpan, Of;
    match p
    case Exec(write) => ExecPublishes(past, tx, world, write);
    case OnCommit(db, callback) => RegisterPublishes(past, tx, world, db, AtCommit, callback);
    case OnRollback(db, callback) => RegisterPublishes(past, tx, world, db, AtRollback, callback);
    case Seq(first, second) =>
      RunPublishes(past, tx, world, first);
      var a := Run(tx, world, first);
      if a.error == [] {
        SpanOfRun(tx, world, first);
        if tx.Some? {
          StateFollowsEvents(tx.value, world, first);
        }
        BeforeAppend(past, a.events, OwnId(tx), world.started, a.world.started);
        RunPublishes(past + a.events, a.tx, a.world, second);
        PublishedAppend(past, a.events, Run(a.tx, a.world, second).events);
      }
    case Ignore(body) => RunPublishes(past, tx, world, body);
    case Transact(db, faults, body) =>
      if Joins(tx, db) {
        RunPublishes(past, tx, world, body);
        var a := Run(tx, world, body);
        ReturnPublishesNothing(past, a.events, Returned(tx.value.id, a.error));
      } else if !faults.begin {
        OpeningPublishes(past, tx, world, db, faults, body);
      }
    case _ =>
  }

  lemma ExecPublishes(past: seq<Event>, tx: Option<Tx>, world: World, write: Write)
    ensures var r := RunExec(tx, world, write);
            r.world.committed == world.committed + Published(past, r.events)
  {
    if Joins(tx, write.db) {
      PublishedOne(past, Wrote(tx.value.id, write));
    } else {
      PublishedOne(past, Direct(write));
    }
  }

  lemma RegisterPublishes(past: seq<Event>, tx: Option<Tx>, world: World, db: Db, kind: Kind, callback: Program)
    ensures var r := RunRegister(tx, world, db, kind, callback);
            r.world.committed == world.committed + Published(past, r.events)
  {
    if Joins(tx, db) {
      PublishedOne(past, Registered(tx.value.id, kind, callback));
    }
  }

  lemma ReturnPublishesNothing(past: seq<Event>, events: seq<Event>, event: Event)
    requires event.Returned?
    ensures Published(past, events + [event]) == Published(past, events)
  {
    PublishedAppend(past, events, [event]);
    PublishedOne(past + events, event);
  }

  lemma {:induction false} OpeningPublishes(past: seq<Event>, tx: Option<Tx>, world: World, db: Db, faults: Faults, body: Program)
    requires Before(past, world.started) && !Joins(tx, db) && !faults.begin
    requires tx.Some? ==> tx.value.id < world.started
    ensures var r := Run(tx, world, Transact(db, faults, body));
            r.world.committed == world.committed + Published(past, r.events)
    decreases body, 1
  {
    hide Run, Finish, RunCallbacks, PublishedBy, Published, InSpan, Of;
    var id, w := world.started, world.(started := world.started + 1);
    var r := RunBody(world, db, body);
    var end := Finish(Settled(world, db, body), r.world, faults, body);
    RunOpening(tx, world, db, faults, body);
    SpanOfRun(Some(NewTx(id, db)), w, body);
    SettledFollows(world, db, body);
    var p1 := past + [Opened(id)];
    OpenedInSpan(id);
    BeforeAppend(past, [Opened(id)], None, id, id + 1);
    RunPublishes(p1, Some(NewTx(id, db)), w, body);
    var p2 := p1 + r.events;
    BeforeAppend(p1, r.events, Some(id), id + 1, r.world.started);
    var p3 := p2 + [Returned(id, r.error)];
    BeforeAppend(p2, [Returned(id, r.error)], Some(id), r.world.started, r.world.started);
    WritesOfBody(past, world, db, body);
    FinishPublishes(p3, Settled(world, db, body), r.world, faults, body);
    FramePublishes(past, id, r.events, r.error, end.events);
  }

  lemma OpenedInSpan(id: nat)
    ensures InSpan([Opened(id)], None, id, id + 1)
    ensures forall error, started :: InSpan([Returned(id, error)], Some(id), started, started)
  {
  }

  lemma FramePublishes(past: seq<Event>, id: nat, events: seq<Event>, error: Error, end: seq<Event>)
    ensures Published(past, [Opened(id)] + events + [Returned(id, error)] + end)
            == Published(past + [Opened(id)], events) + Published(past + [Opened(id)] + events + [Returned(id, error)], end)
  {
    hide PublishedBy;
    var head := [Opened(id)] + events + [Returned(id, error)];
    assert past + head == past + [Opened(id)] + events + [Returned(id, error)];
    PublishedAppend(past, head, end);
    ReturnPublishesNothing(past, [Opened(id)] + events, Returned(id, error));
    PublishedAppend(past, [Opened(id)], events);
    OpenPublishesNothing(past, id);
  }

  lemma OpenPublishesNothing(past: seq<Event>, id: nat)
    ensures Published(past, [Opened(id)]) == []
  {
    PublishedOne(past, Opened(id));
  }

  /** The writes that wait in a settled transaction are the ones its events record. */
  lemma WritesOfBody(past: seq<Event>, world: World, db: Db, body: Program)
    requires Before(past, world.started)
    ensures var r := RunBody(world, db, body);
            Writes(Of(past + [Opened(world.started)] + r.events + [Returned(world.started, r.error)], world.started))
            == Settled(world, db, body).writes
  {
    hide Run, RunBody, Of, InSpan;
    var id, r := world.started, RunBody(world, db, body);
    var opening, returned := [Opened(id)], [Returned(id, r.error)];
    OfAppend(past + opening + r.events, returned, id);
    OfAppend(past + opening, r.events, id);
    OfAppend(past, opening, id);
    Outside(past, None, 0, id, id);
    OfOne(Opened(id), id);
    OfOne(Returned(id, r.error), id);
    SettledFollows(world, db, body);
    var mine := Of(r.events, id);
    WritesAppend(mine, returned);
    WritesAppend(opening, mine + returned);
    assert [] + opening + mine + returned == opening + (mine + returned);
    assert opening[1..] == [];
  }

  lemma {:induction false} FinishPublishes(past: seq<Event>, state: Tx, world: World, faults: Faults, bound: Program)
    requires forall c :: c in state.afterCommit || c in state.afterRollback ==> c < bound
    requires Before(past, world.started) && state.id < world.started && Coherent(state)
    requires Writes(Of(past, state.id)) == state.writes
    ensures var r := Finish(state, world, faults, bound);
            r.world.committed == world.committed + Published(past, r.events)
    decreases bound, 0, |state.afterCommit| + |state.afterRollback| + 1
  {
    hide Run, RunCallbacks, Published, Of, Writes;
    var ended := state.(done := true);
    var commits := !state.rollbackOnly && !faults.commit;
    var kind := if commits then AtCommit else AtRollback;
    var callbacks := if commits then state.afterCommit else state.afterRollback;
    var published := if commits then world.(committed := world.committed + state.writes) else world;
    var fate := if state.rollbackOnly then RolledBack(state.id) else if faults.commit then CommitRefused(state.id)
                else Committed(state.id);
    BeforeAppend(past, [fate], Some(state.id), world.started, world.started);
    CallbacksPublish(past + [fate], ended, published, kind, callbacks, bound);
    var hooks := RunCallbacks(ended, published, kind, callbacks, bound);
    PublishedAppend(past, [fate], hooks.events);
    PublishedOne(past, fate);
  }

  lemma {:induction false} CallbacksPublish(past: seq<Event>, state: Tx, world: World, kind: Kind,
                                            callbacks: seq<Program>, bound: Program)
    requires forall c :: c in callbacks ==> c < bound
    requires Before(past, world.started) && state.id < world.started && Coherent(state)
    ensures var r := RunCallbacks(state, world, kind, callbacks, bound);
            r.world.committed == world.committed + Published(past, r.events)
    decreases bound, 0, |callbacks|
  {
    hide Run, Before, InSpan, PublishedBy, Published, Of, After;
    if callbacks == [] {
      PublishedOne(past, Called(state.id, kind, bound));
    } else {
      assert callbacks[0] in callbacks && forall c :: c in callbacks[1..] ==> c in callbacks;
      var call := Called(state.id, kind, callbacks[0]);
      var r := Run(Some(state), world, callbacks[0]);
      var rest := RunCallbacks(r.tx.value, r.world, kind, callbacks[1..], bound);
      SpanOfRun(Some(state), world, callbacks[0]);
      StateFollowsEvents(state, world, callbacks[0]);
      CallPublishes(past, state, world, call);
      var p1 := past + [call];
      RunPublishes(p1, Some(state), world, callbacks[0]);
      BeforeAppend(p1, r.events, Some(state.id), world.started, r.world.started);
      AfterKeepsDone(state, Of(r.events, state.id));
      CallbacksPublish(p1 + r.events, r.tx.value, r.world, kind, callbacks[1..], bound);
      CallPublishesBoth(past, call, r.events, rest.events);
    }
  }

  lemma CallPublishesBoth(past: seq<Event>, call: Event, a: seq<Event>, b: seq<Event>)
    requires call.Called?
    ensures Published(past, [call] + a + b) == Published(past + [call], a) + Published(past + [call] + a, b)
  {
    PublishedAppend(past, [call] + a, b);
    PublishedAppend(past, [call], a);
    PublishedOne(past, call);
    assert past + ([call] + a) == past + [call] + a;
  }

  lemma CallPublishes(past: seq<Event>, state: Tx, world: World, call: Event)
    requires call.Called? && call.id == state.id < world.started && Before(past, world.started)
    ensures Before(past + [call], world.started)
  {
  }

  /** Every run publishes, in order, its direct writes and, at each commit, all the writes of that transaction. */
  lemma RunPublishesItsCommits(world: World, p: Program)
    ensures Run(None, world, p).world.committed == world.committed + Published([], Run(None, world, p).events)
  {
    RunPublishes([], None, world, p);
  }

  // ---- Programs on one database

  /** Every statement, registration and transaction of `p`, and of its callbacks, is on `db`. */
  predicate OnlyOn(p: Program, db: Db) {
    match p
    case Skip => true
    case Fail(_) => true
    case Exec(write) => write.db == db
    case OnCommit(on, callback) => on == db && OnlyOn(callback, db)
    case OnRollback(on, callback) => on == db && OnlyOn(callback, db)
    case Seq(first, second) => OnlyOn(first, db) && OnlyOn(second, db)
    case Ignore(body) => OnlyOn(body, db)
    case Transact(on, _, body) => on == db && OnlyOn(body, db)
  }

  predicate AllOnlyOn(callbacks: seq<Program>, db: Db) {
    forall i :: 0 <= i < |callbacks| ==> OnlyOn(callbacks[i], db)
  }

  predicate StateOnlyOn(tx: Tx) {
    AllOnlyOn(tx.afterCommit, tx.db) && AllOnlyOn(tx.afterRollback, tx.db)
  }

  /** Inside a transaction of its database such a program changes nothing but the transaction's state. */
  lemma {:induction false} RunStaysInside(tx: Tx, world: World, p: Program)
    requires OnlyOn(p, tx.db) && StateOnlyOn(tx)
    ensures var r := Run(Some(tx), world, p);
            r.world == world && StateOnlyOn(r.tx.value)
    decreases p
  {
    match p
    case Seq(first, second) =>
      RunStaysInside(tx, world, first);
      var a := Run(Some(tx), world, first);
      if a.error == [] {
        RunStaysInside(a.tx.value, world, second);
      }
    case Ignore(body) => RunStaysInside(tx, world, body);
    case Transact(db, faults, body) => RunStaysInside(tx, world, body);
    case _ =>
  }

  lemma {:induction false} CallbacksStayInside(state: Tx, world: World, kind: Kind, callbacks: seq<Program>, bound: Program)
    requires forall c :: c in callbacks ==> c < bound
    requires AllOnlyOn(callbacks, state.db) && StateOnlyOn(state)
    ensures RunCallbacks(state, world, kind, callbacks, bound).world == world
    decreases |callbacks|
  {
    if callbacks != [] {
      assert callbacks[0] in callbacks && forall c :: c in callbacks[1..] ==> c in callbacks;
      RunStaysInside(state, world, callbacks[0]);
      var r := Run(Some(state), world, callbacks[0]);
      CallbacksStayInside(r.tx.value, world, kind, callbacks[1..], bound);
    }
  }

  /** The first error that a frame of the body, or the body itself, returned. */
  function BodyFailure(world: World, db: Db, body: Program): Error {
    var r := RunBody(world, db, body);
    FirstFailure(Of(r.events, world.started) + [Returned(world.started, r.error)])
  }

  /** The outermost transaction of a program on one database is atomic, however its frames nest and whatever
      errors they swallow: its writes are published all together when no frame returned an error and the commit
      succeeded, and otherwise the store is as it was. The error returned starts with the first frame's failure. */
  lemma OutermostIsAtomic(world: World, db: Db, faults: Faults, body: Program)
    requires OnlyOn(body, db) && !faults.begin
    ensures var r := Run(None, world, Transact(db, faults, body));
            var failure := BodyFailure(world, db, body);
            r.world.started == world.started + 1 &&
            r.world.committed == world.committed +
              (if failure == [] && !faults.commit then Writes(Of(RunBody(world, db, body).events, world.started)) else []) &&
            (failure != [] ==> failure <= r.error) &&
            (failure == [] && faults.commit ==> [CommitFailed] <= r.error)
  {
    hide Run, RunCallbacks;
    var state := Settled(world, db, body);
    var r := RunBody(world, db, body);
    var begun := NewTx(world.started, db);
    RunOpening(None, world, db, faults, body);
    SettledFollows(world, db, body);
    RunStaysInside(begun, world.(started := world.started + 1), body);
    var ended := state.(done := true);
    var mine := Of(r.events, world.started);
    WritesAppend(mine, [Returned(world.started, r.error)]);
    assert [Returned(world.started, r.error)][1..] == [];
    if state.rollbackOnly || faults.commit {
      CallbacksStayInside(ended, r.world, AtRollback, state.afterRollback, body);
    } else {
      CallbacksStayInside(ended, r.world.(committed := r.world.committed + state.writes), AtCommit, state.afterCommit, body);
    }
  }

  // ---- A database in between

  const NO_FAULTS := Faults(false, false, [])

  /** A frame on `db` around a body that publishes and registers nothing of its own on the way. */
  lemma QuietFrame(tx: Option<Tx>, world: World, db: Db, body: Program)
    requires !Joins(tx, db)
    requires Settled(world, db, body).afterCommit == [] && Settled(world, db, body).afterRollback == []
    ensures var state, r := Settled(world, db, body), RunBody(world, db, body);
            var end := Run(tx, world, Transact(db, NO_FAULTS, body));
            end.tx == tx && end.world.started == r.world.started &&
            end.world.committed == r.world.committed + (if state.rollbackOnly then [] else state.writes) &&
            end.error == (if !state.rollbackOnly then [] else if state.rollbackCause == [] then [RollbackOnly]
                          else state.rollbackCause)
  {
    hide Run, RunBody, Settled;
    RunOpening(tx, world, db, NO_FAULTS, body);
    assert IgnoreTxDone([]) == [];
  }

  /** Only the nearest transaction is joined, so atomicity needs the condition on databases: a write on
      database 0, in a frame on 0, inside a frame on 1, inside a frame on 0, outlives the rollback of the
      outermost frame. */
  lemma DatabaseBetweenEscapes(world: World, write: Write, cause: Cause)
    requires write.db == 0
    ensures var inner := Transact(1, NO_FAULTS, Transact(0, NO_FAULTS, Exec(write)));
            var r := Run(None, world, Transact(0, NO_FAULTS, Seq(inner, Fail(cause))));
            r.error == [cause] && r.world.committed == world.committed + [write]
  {
    var exec := Exec(write);
    var nested := Transact(0, NO_FAULTS, exec);
    var inner := Transact(1, NO_FAULTS, nested);
    var body := Seq(inner, Fail(cause));
    var w0 := world.(started := world.started + 1);
    var t0 := Some(NewTx(world.started, 0));
    var w1 := w0.(started := w0.started + 1);
    var t1 := Some(NewTx(w0.started, 1));
    var w2 := w1.(started := w1.started + 1);
    var t2 := NewTx(w1.started, 0);
    hide Finish, RunCallbacks;
    assert Run(Some(t2), w2, exec) == Outcome(Some(t2.(writes := [] + [write])), w2, [Wrote(w1.started, write)], []);
    assert Settled(w1, 0, exec) == t2.(writes := [write]);
    QuietFrame(t1, w1, 0, exec);
    var a := Run(t1, w1, nested);
    hide Run;
    assert RunBody(w0, 1, nested) == a && Settled(w0, 1, nested) == t1.value;
    QuietFrame(t0, w0, 1, nested);
    var b := Run(t0, w0, inner);
    assert b.world.committed == world.committed + [write];
    SeqFails(t0, w0, inner, cause);
    QuietFrame(None, world, 0, body);
  }

  lemma SeqFails(tx: Option<Tx>, world: World, first: Program, cause: Cause)
    requires Run(tx, world, first).error == []
    ensures var r, a := Run(tx, world, Seq(first, Fail(cause))), Run(tx, world, first);
            r.tx == a.tx && r.world == a.world && r.error == [cause]
  {
  }
}
