/** Atomicity database by database: what a transaction and everything run inside it do to one database, when frames of
    other databases may lie in between. */
module TransactionAtomicity {
  import opened Text
  import opened Transaction
  import opened TransactionLaws
  import opened TransactionStore

  /** The writes on one database. */
  function OnDb(writes: seq<Write>, db: Db): seq<Write> {
    if writes == [] then []
    else (if writes[0].db == db then [writes[0]] else []) + OnDb(writes[1..], db)
  }

  lemma {:induction false} OnDbAppend(a: seq<Write>, b: seq<Write>, db: Db)
    ensures OnDb(a + b, db) == OnDb(a, db) + OnDb(b, db)
    decreases |a|
  {
    if a == [] {
      assert a + b == b;
    } else {
      assert (a + b)[0] == a[0] && (a + b)[1..] == a[1..] + b;
      OnDbAppend(a[1..], b, db);
      var head := if a[0].db == db then [a[0]] else [];
      assert head + (OnDb(a[1..], db) + OnDb(b, db)) == (head + OnDb(a[1..], db)) + OnDb(b, db);
    }
  }

  predicate AllOn(writes: seq<Write>, db: Db) {
    forall i :: 0 <= i < |writes| ==> writes[i].db == db
  }

  lemma {:induction false} OnDbOfOwn(writes: seq<Write>, own: Db, db: Db)
    requires AllOn(writes, own)
    ensures OnDb(writes, db) == if own == db then writes else []
  {
    if writes != [] {
      OnDbOfOwn(writes[1..], own, db);
      assert writes == [writes[0]] + writes[1..];
    }
  }

  // ------------------------------------------------------------------------------- what touches a database

  /** Run outside any transaction of `db`, the program has no statement and no frame on it. */
  predicate Absent(p: Program, db: Db) {
    match p
    case Skip => true
    case Fail(_) => true
    case Exec(write) => write.db != db
    case OnCommit(on, callback) => on == db || Absent(callback, db)
    case OnRollback(on, callback) => on == db || Absent(callback, db)
    case Seq(first, second) => Absent(first, db) && Absent(second, db)
    case Ignore(body) => Absent(body, db)
    case Transact(on, _, body) => on != db && Absent(body, db)
  }

  /** No statement or frame on `db` lies inside a frame of another database. */
  predicate Contained(p: Program, db: Db) {
    match p
    case Skip => true
    case Fail(_) => true
    case Exec(_) => true
    case OnCommit(on, callback) => on != db || Contained(callback, db)
    case OnRollback(on, callback) => on != db || Contained(callback, db)
    case Seq(first, second) => Contained(first, db) && Contained(second, db)
    case Ignore(body) => Contained(body, db)
    case Transact(on, _, body) => if on == db then Contained(body, db) else Absent(body, db)
  }

  lemma {:induction false} OnlyOnIsContained(p: Program, db: Db)
    requires OnlyOn(p, db)
    ensures Contained(p, db)
    decreases p
  {
    match p
    case OnCommit(_, callback) => OnlyOnIsContained(callback, db);
    case OnRollback(_, callback) => OnlyOnIsContained(callback, db);
    case Seq(first, second) => OnlyOnIsContained(first, db); OnlyOnIsContained(second, db);
    case Ignore(body) => OnlyOnIsContained(body, db);
    case Transact(_, _, body) => OnlyOnIsContained(body, db);
    case _ =>
  }

  predicate AllAbsent(callbacks: seq<Program>, db: Db) {
    forall i :: 0 <= i < |callbacks| ==> Absent(callbacks[i], db)
  }

  predicate AllContained(callbacks: seq<Program>, db: Db) {
    forall i :: 0 <= i < |callbacks| ==> Contained(callbacks[i], db)
  }

  /** A transaction of another database, with nothing in it that touches `db`. */
  predicate Foreign(tx: Tx, db: Db) {
    tx.db != db && AllOn(tx.writes, tx.db) && AllAbsent(tx.afterCommit, db) && AllAbsent(tx.afterRollback, db)
  }

  predicate Home(tx: Tx, db: Db) {
    tx.db == db && AllOn(tx.writes, db) && AllContained(tx.afterCommit, db) && AllContained(tx.afterRollback, db)
  }

  predicate Untouched(before: World, after: World, db: Db) {
    OnDb(after.committed, db) == OnDb(before.committed, db)
  }

  // ---------------------------------------------------------------------------- outside the database

  lemma {:induction false} RunForeign(tx: Option<Tx>, world: World, p: Program, db: Db)
    requires Absent(p, db) && (tx.Some? ==> Foreign(tx.value, db))
    ensures var r := Run(tx, world, p);
            Untouched(world, r.world, db) && (r.tx.Some? ==> Foreign(r.tx.value, db))
    decreases p, 0
  {
    hide Finish, RunCallbacks, RunBody, Settled, OnDb;
    match p
    case Exec(write) => OnDbWrite(world.committed, write, db);
    case Seq(first, second) =>
      RunForeign(tx, world, first, db);
      var a := Run(tx, world, first);
      if a.error == [] {
        RunForeign(a.tx, a.world, second, db);
      }
    case Ignore(body) => RunForeign(tx, world, body, db);
    case Transact(on, faults, body) =>
      if Joins(tx, on) {
        RunForeign(tx, world, body, db);
      } else if !faults.begin {
        OpeningForeign(tx, world, on, faults, body, db);
      }
    case _ =>
  }

  lemma OnDbWrite(writes: seq<Write>, write: Write, db: Db)
    ensures OnDb(writes + [write], db) == OnDb(writes, db) + (if write.db == db then [write] else [])
  {
    OnDbAppend(writes, [write], db);
    assert [write][1..] == [];
  }

  lemma {:induction false} OpeningForeign(tx: Option<Tx>, world: World, on: Db, faults: Faults, body: Program, db: Db)
    requires on != db && Absent(body, db) && !Joins(tx, on) && !faults.begin
    ensures var r := Run(tx, world, Transact(on, faults, body));
            Untouched(world, r.world, db) && r.tx == tx
    decreases body, 2
  {
    hide Run, Finish, RunCallbacks, OnDb;
    RunOpening(tx, world, on, faults, body);
    var r := RunBody(world, on, body);
    RunForeign(Some(NewTx(world.started, on)), world.(started := world.started + 1), body, db);
    FinishForeign(Settled(world, on, body), r.world, faults, body, db);
  }

  lemma {:induction false} FinishForeign(state: Tx, world: World, faults: Faults, bound: Program, db: Db)
    requires forall c :: c in state.afterCommit || c in state.afterRollback ==> c < bound
    requires Foreign(state, db)
    ensures Untouched(world, Finish(state, world, faults, bound).world, db)
    decreases bound, 1
  {
    hide Run, RunCallbacks, OnDb;
    var ended := state.(done := true);
    var published := world.(committed := world.committed + state.writes);
    OnDbAppend(world.committed, state.writes, db);
    OnDbOfOwn(state.writes, state.db, db);
    if state.rollbackOnly || faults.commit {
      CallbacksForeign(ended, world, AtRollback, state.afterRollback, bound, db);
    } else {
      CallbacksForeign(ended, published, AtCommit, state.afterCommit, bound, db);
    }
  }

  lemma {:induction false} CallbacksForeign(state: Tx, world: World, kind: Kind, callbacks: seq<Program>, bound: Program, db: Db)
    requires forall c :: c in callbacks ==> c < bound
    requires Foreign(state, db) && AllAbsent(callbacks, db)
    ensures Untouched(world, RunCallbacks(state, world, kind, callbacks, bound).world, db)
    decreases bound, 0, |callbacks|
  {
    hide Run, OnDb, Foreign;
    if callbacks != [] {
      assert callbacks[0] in callbacks && forall c :: c in callbacks[1..] ==> c in callbacks;
      RunForeign(Some(state), world, callbacks[0], db);
      var r := Run(Some(state), world, callbacks[0]);
      CallbacksForeign(r.tx.value, r.world, kind, callbacks[1..], bound, db);
    }
  }

  // -------------------------------------------------------------------------------- inside the database

  /** Inside a transaction of the database, open or already ended, a contained program publishes nothing on it. */
  lemma {:induction false} RunHome(tx: Tx, world: World, p: Program, db: Db)
    requires Contained(p, db) && Home(tx, db)
    ensures var r := Run(Some(tx), world, p);
            Untouched(world, r.world, db) && Home(r.tx.value, db)
    decreases p
  {
    hide Finish, RunCallbacks, RunBody, Settled, OnDb;
    match p
    case Exec(write) => OnDbWrite(world.committed, write, db);
    case Seq(first, second) =>
      RunHome(tx, world, first, db);
      var a := Run(Some(tx), world, first);
      if a.error == [] {
        RunHome(a.tx.value, a.world, second, db);
      }
    case Ignore(body) => RunHome(tx, world, body, db);
    case Transact(on, faults, body) =>
      if on == db {
        RunHome(tx, world, body, db);
      } else if !faults.begin {
        OpeningForeign(Some(tx), world, on, faults, body, db);
      }
    case _ =>
  }

  lemma {:induction false} CallbacksHome(state: Tx, world: World, kind: Kind, callbacks: seq<Program>, bound: Program, db: Db)
    requires forall c :: c in callbacks ==> c < bound
    requires Home(state, db) && AllContained(callbacks, db)
    ensures Untouched(world, RunCallbacks(state, world, kind, callbacks, bound).world, db)
    decreases |callbacks|
  {
    hide Run, OnDb, Home;
    if callbacks != [] {
      assert callbacks[0] in callbacks && forall c :: c in callbacks[1..] ==> c in callbacks;
      RunHome(state, world, callbacks[0], db);
      var r := Run(Some(state), world, callbacks[0]);
      CallbacksHome(r.tx.value, r.world, kind, callbacks[1..], bound, db);
    }
  }

  /** The writes that an outermost frame publishes: those of its body when no frame failed and the commit succeeds. */
  function OwnWrites(world: World, db: Db, faults: Faults, body: Program): seq<Write> {
    if BodyFailure(world, db, body) == [] && !faults.commit then Writes(Of(RunBody(world, db, body).events, world.started)) else []
  }

  /** When no statement or frame on its database lies inside a frame of another one, an outermost frame is atomic on that
      database, whatever it does to others: all its writes are published when no frame of its transaction failed and
      the commit succeeded, and none otherwise. */
  lemma DatabaseIsAtomic(world: World, db: Db, faults: Faults, body: Program)
    requires Contained(body, db) && !faults.begin
    ensures var r := Run(None, world, Transact(db, faults, body));
            var failure := BodyFailure(world, db, body);
            OnDb(r.world.committed, db) == OnDb(world.committed, db) + OwnWrites(world, db, faults, body) &&
            (failure != [] ==> failure <= r.error) &&
            (failure == [] && faults.commit ==> [CommitFailed] <= r.error)
  {
    hide Run, RunCallbacks, OnDb;
    var state := Settled(world, db, body);
    var r := RunBody(world, db, body);
    RunOpening(None, world, db, faults, body);
    SettledFollows(world, db, body);
    RunHome(NewTx(world.started, db), world.(started := world.started + 1), body, db);
    var ended := state.(done := true);
    var mine := Of(r.events, world.started);
    WritesAppend(mine, [Returned(world.started, r.error)]);
    assert [Returned(world.started, r.error)][1..] == [];
    var published := r.world.(committed := r.world.committed + state.writes);
    OnDbAppend(r.world.committed, state.writes, db);
    OnDbOfOwn(state.writes, db, db);
    if state.rollbackOnly || faults.commit {
      CallbacksHome(ended, r.world, AtRollback, state.afterRollback, body, db);
    } else {
      CallbacksHome(ended, published, AtCommit, state.afterCommit, body, db);
    }
  }

  // -------------------------------------------------------------------------- exactly when it is atomic

  /** The event publishes a write on `db` that is not one of transaction `id`: a write outside every transaction of the
      database, or the commit of another transaction that wrote to it. */
  predicate EscapesAt(past: seq<Event>, events: seq<Event>, id: nat, db: Db, i: nat)
    requires i < |events|
  {
    match events[i]
    case Direct(write) => write.db == db
    case Committed(other) => other != id && OnDb(Writes(Of(past + events[..i], other)), db) != []
    case _ => false
  }

  predicate NothingEscapes(past: seq<Event>, events: seq<Event>, id: nat, db: Db) {
    forall i :: 0 <= i < |events| ==> !EscapesAt(past, events, id, db, i)
  }

  /** What the commits of one transaction publish. */
  function OwnPublished(past: seq<Event>, events: seq<Event>, id: nat): seq<Write>
    decreases |events|
  {
    if events == [] then []
    else (if events[0] == Committed(id) then PublishedBy(past, events[0]) else []) + OwnPublished(past + [events[0]], events[1..], id)
  }

  lemma EscapesStep(past: seq<Event>, events: seq<Event>, id: nat, db: Db)
    requires events != []
    ensures NothingEscapes(past, events, id, db)
            <==> !EscapesAt(past, events, id, db, 0) && NothingEscapes(past + [events[0]], events[1..], id, db)
  {
    forall i: nat | 1 <= i < |events|
      ensures EscapesAt(past, events, id, db, i) <==> EscapesAt(past + [events[0]], events[1..], id, db, i - 1)
    {
      assert past + events[..i] == past + [events[0]] + events[1..][..i - 1];
    }
    if NothingEscapes(past, events, id, db) {
      forall i: nat | i < |events[1..]| ensures !EscapesAt(past + [events[0]], events[1..], id, db, i) {
        assert !EscapesAt(past, events, id, db, i + 1);
      }
    }
    if !EscapesAt(past, events, id, db, 0) && NothingEscapes(past + [events[0]], events[1..], id, db) {
      forall i: nat | i < |events| ensures !EscapesAt(past, events, id, db, i) {
        if i > 0 {
          assert !EscapesAt(past + [events[0]], events[1..], id, db, i - 1);
        }
      }
    }
  }

  lemma EscapesNow(past: seq<Event>, events: seq<Event>, id: nat, db: Db)
    requires events != [] && events[0] != Committed(id)
    ensures EscapesAt(past, events, id, db, 0) <==> OnDb(PublishedBy(past, events[0]), db) != []
  {
    assert past + events[..0] == past;
    match events[0]
    case Direct(write) => assert [write][1..] == [];
    case _ =>
  }

  /** What is published on a database is what one transaction publishes there exactly when nothing escapes. */
  lemma {:induction false} PublishedByOne(past: seq<Event>, events: seq<Event>, id: nat, db: Db)
    ensures var all, own := OnDb(Published(past, events), db), OnDb(OwnPublished(past, events, id), db);
            |all| >= |own| && (all == own <==> NothingEscapes(past, events, id, db))
    decreases |events|
  {
    hide PublishedBy, OnDb, EscapesAt, NothingEscapes;
    if events == [] {
      NothingToEscape(past, id, db);
    } else {
      var now := PublishedBy(past, events[0]);
      var later, own := Published(past + [events[0]], events[1..]), OwnPublished(past + [events[0]], events[1..], id);
      PublishedByOne(past + [events[0]], events[1..], id, db);
      EscapesStep(past, events, id, db);
      OnDbAppend(now, later, db);
      if events[0] == Committed(id) {
        OnDbAppend(now, own, db);
        SamePrefix(OnDb(now, db), OnDb(later, db), OnDb(own, db));
        OwnCommitDoesNotEscape(past, events, id, db);
      } else {
        EscapesNow(past, events, id, db);
        assert [] + own == own && [] + OnDb(later, db) == OnDb(later, db);
      }
    }
  }

  lemma NothingToEscape(past: seq<Event>, id: nat, db: Db)
    ensures NothingEscapes(past, [], id, db) && OnDb([], db) == []
  {
  }

  lemma OwnCommitDoesNotEscape(past: seq<Event>, events: seq<Event>, id: nat, db: Db)
    requires events != [] && events[0] == Committed(id)
    ensures !EscapesAt(past, events, id, db, 0)
  {
  }

  lemma {:induction false} OwnPublishedAppend(past: seq<Event>, a: seq<Event>, b: seq<Event>, id: nat)
    ensures OwnPublished(past, a + b, id) == OwnPublished(past, a, id) + OwnPublished(past + a, b, id)
    decreases |a|
  {
    hide PublishedBy;
    if a == [] {
      assert a + b == b && past + a == past;
    } else {
      assert (a + b)[1..] == a[1..] + b && (a + b)[0] == a[0];
      OwnPublishedAppend(past + [a[0]], a[1..], b, id);
      assert past + [a[0]] + a[1..] == past + a;
    }
  }

  predicate NoCommit(events: seq<Event>) {
    forall i :: 0 <= i < |events| ==> !events[i].Committed?
  }

  lemma NoCommitSplit(a: seq<Event>, b: seq<Event>)
    requires NoCommit(a + b)
    ensures NoCommit(a) && NoCommit(b)
  {
    assert forall i :: 0 <= i < |a| ==> (a + b)[i] == a[i];
    assert forall i :: 0 <= i < |b| ==> (a + b)[|a| + i] == b[i];
  }

  lemma {:induction false} NoCommitNoWrites(past: seq<Event>, events: seq<Event>, id: nat)
    requires NoCommit(Of(events, id))
    ensures OwnPublished(past, events, id) == []
    decreases |events|
  {
    hide PublishedBy, NoCommit;
    if events != [] {
      var now := Of([events[0]], id);
      OfOne(events[0], id);
      assert Of(events, id) == now + Of(events[1..], id);
      NoCommitSplit(now, Of(events[1..], id));
      NotACommit(events[0], id);
      NoCommitNoWrites(past + [events[0]], events[1..], id);
    }
  }

  lemma NotACommit(event: Event, id: nat)
    ensures NoCommit([event]) ==> !event.Committed?
    ensures event == Committed(id) ==> Mentions(event, id)
  {
    assert [event][0] == event;
  }

  /** The writes waiting in a transaction are on its own database. */
  lemma {:induction false} WritesStayHome(tx: Tx, world: World, p: Program)
    requires AllOn(tx.writes, tx.db)
    ensures AllOn(Run(Some(tx), world, p).tx.value.writes, tx.db)
    decreases p
  {
    hide Finish, RunCallbacks, RunBody, Settled;
    match p
    case Seq(first, second) =>
      WritesStayHome(tx, world, first);
      var a := Run(Some(tx), world, first);
      if a.error == [] {
        WritesStayHome(a.tx.value, a.world, second);
      }
    case Ignore(body) => WritesStayHome(tx, world, body);
    case Transact(on, _, body) =>
      if on == tx.db {
        WritesStayHome(tx, world, body);
      }
    case _ =>
  }

  /** The end of an outermost frame publishes its own writes, or nothing of its own. */
  lemma FinishPublishesOwn(past: seq<Event>, state: Tx, world: World, faults: Faults, bound: Program)
    requires forall c :: c in state.afterCommit || c in state.afterRollback ==> c < bound
    requires Coherent(state) && state.id < world.started && Writes(Of(past, state.id)) == state.writes
    ensures OwnPublished(past, Finish(state, world, faults, bound).events, state.id)
            == if !state.rollbackOnly && !faults.commit then state.writes else []
  {
    hide Run, RunCallbacks, Of, Writes, OwnPublished;
    var ended := state.(done := true);
    var commits := !state.rollbackOnly && !faults.commit;
    var kind := if commits then AtCommit else AtRollback;
    var callbacks := if commits then state.afterCommit else state.afterRollback;
    var published := if commits then world.(committed := world.committed + state.writes) else world;
    var fate := if state.rollbackOnly then RolledBack(state.id) else if faults.commit then CommitRefused(state.id)
                else Committed(state.id);
    var hooks := RunCallbacks(ended, published, kind, callbacks, bound);
    CallbacksAreCalled(ended, published, kind, callbacks, bound);
    OwnPublishedAppend(past, [fate], hooks.events, state.id);
    NoCommitNoWrites(past + [fate], hooks.events, state.id);
    OwnPublishedOne(past, fate, state.id);
    assert Finish(state, world, faults, bound).events == [fate] + hooks.events;
  }

  lemma OwnPublishedOne(past: seq<Event>, event: Event, id: nat)
    ensures OwnPublished(past, [event], id) == if event == Committed(id) then PublishedBy(past, event) else []
  {
    assert [event][1..] == [];
  }

  lemma FramePublishesOwn(world: World, db: Db, faults: Faults, body: Program)
    requires !faults.begin
    ensures OwnPublished([], Run(None, world, Transact(db, faults, body)).events, world.started)
            == if Settled(world, db, body).rollbackOnly || faults.commit then [] else Settled(world, db, body).writes
  {
    hide Run, RunBody, Settled, Finish, Of, Writes, OwnPublished, BodyEvents, After;
    var id := world.started;
    var r := RunBody(world, db, body);
    var state := Settled(world, db, body);
    var end := Finish(state, r.world, faults, body);
    RunOpening(None, world, db, faults, body);
    SettledFollows(world, db, body);
    var opening, returned := [Opened(id)], [Returned(id, r.error)];
    var lead := opening + r.events + returned;
    OwnPublishedAppend([], lead, end.events, id);
    OwnPublishedAppend([], opening + r.events, returned, id);
    OwnPublishedAppend([], opening, r.events, id);
    OwnPublishedOne([], Opened(id), id);
    OwnPublishedOne([] + (opening + r.events), Returned(id, r.error), id);
    BodyHasNoCommit(world, db, body);
    NoCommitNoWrites([] + opening, r.events, id);
    WritesOfBody([], world, db, body);
    OpenedInSpan(id);
    assert [] + opening + r.events + returned == lead && [] + lead == lead;
    SpanOfRun(Some(NewTx(id, db)), world.(started := world.started + 1), body);
    SettledStarts(world, db, body);
    FinishPublishesOwn(lead, state, r.world, faults, body);
  }

  lemma SettledStarts(world: World, db: Db, body: Program)
    ensures Coherent(Settled(world, db, body)) && Settled(world, db, body).id < RunBody(world, db, body).world.started
  {
    hide Run;
    SettledFollows(world, db, body);
    SpanOfRun(Some(NewTx(world.started, db)), world.(started := world.started + 1), body);
  }

  lemma BodyHasNoCommit(world: World, db: Db, body: Program)
    ensures NoCommit(Of(RunBody(world, db, body).events, world.started))
  {
    hide Run, After;
    StateFollowsEvents(NewTx(world.started, db), world.(started := world.started + 1), body);
  }

  /** For every body, whatever databases it uses: the outermost frame is atomic on its database exactly when, in the run,
      no statement on it runs outside every transaction of the database and no other transaction that wrote to it
      commits. */
  lemma AtomicExactlyWhenNothingEscapes(world: World, db: Db, faults: Faults, body: Program)
    requires !faults.begin
    ensures var r := Run(None, world, Transact(db, faults, body));
            OnDb(r.world.committed, db) == OnDb(world.committed, db) + OwnWrites(world, db, faults, body)
            <==> NothingEscapes([], r.events, world.started, db)
  {
    hide Run, RunCallbacks, OnDb, NothingEscapes, Published, OwnPublished, Finish, After, BodyEvents;
    var r := Run(None, world, Transact(db, faults, body));
    RunPublishesItsCommits(world, Transact(db, faults, body));
    OnDbAppend(world.committed, Published([], r.events), db);
    PublishedByOne([], r.events, world.started, db);
    FramePublishesOwn(world, db, faults, body);
    OwnWritesAre(world, db, faults, body);
    var own := OwnWrites(world, db, faults, body);
    assert OnDb(world.committed, db) + OnDb(Published([], r.events), db) == OnDb(world.committed, db) + own
           <==> OnDb(Published([], r.events), db) == own by {
      SamePrefix(OnDb(world.committed, db), OnDb(Published([], r.events), db), own);
    }
  }

  lemma SamePrefix(a: seq<Write>, x: seq<Write>, y: seq<Write>)
    ensures a + x == a + y <==> x == y
  {
    assert (a + x)[|a|..] == x && (a + y)[|a|..] == y;
  }

  lemma OwnWritesAre(world: World, db: Db, faults: Faults, body: Program)
    ensures var own := OwnWrites(world, db, faults, body);
            own == (if Settled(world, db, body).rollbackOnly || faults.commit then [] else Settled(world, db, body).writes)
            && OnDb(own, db) == own
  {
    hide Run, OnDb, RunCallbacks;
    var r := RunBody(world, db, body);
    SettledFollows(world, db, body);
    var mine := Of(r.events, world.started);
    WritesAppend(mine, [Returned(world.started, r.error)]);
    assert [Returned(world.started, r.error)][1..] == [];
    WritesStayHome(NewTx(world.started, db), world.(started := world.started + 1), body);
    OnDbOfOwn(Settled(world, db, body).writes, db, db);
    OnDbOfOwn([], db, db);
  }
}
