/** Stages, and the registry of hooks: lifecycle/registry.go. */
module Lifecycle {
  import opened Text

  datatype Stage =
    | BeforeValidate | AfterValidate | BeforeSave | AfterSave
    | BeforeCreate | AfterCreate | BeforeUpdate | AfterUpdate
    | BeforeDelete | AfterDelete | BeforeRestore | AfterRestore
    | BeforeForceDelete | AfterForceDelete | AfterCommit | AfterRollback
    | Unknown(name: string)

  /** `isBefore`. */
  predicate IsBefore(stage: Stage) {
    stage.BeforeValidate? || stage.BeforeSave? || stage.BeforeCreate? || stage.BeforeUpdate?
    || stage.BeforeDelete? || stage.BeforeRestore? || stage.BeforeForceDelete?
  }

  type Handler = nat
  type Type = nat

  datatype Error = UnknownStage | NoHandler | NoModel | NotStruct | NoContext | Failed(code: string)

  datatype Registration = Registration(priority: int, sequence: nat, handler: Handler)

  /** A Go value given as a model: nil, a struct or pointers to one, or something else. */
  datatype Model = NilModel | OfType(typeOf: Type) | NoStruct

  /** The comparison of `sortRegistrations`. */
  predicate Precedes(a: Registration, b: Registration) {
    if a.priority != b.priority then a.priority < b.priority else a.sequence < b.sequence
  }

  predicate Ordered(list: seq<Registration>) {
    forall i, j :: 0 <= i < j < |list| ==> Precedes(list[i], list[j])
  }

  function Placed(x: Registration, list: seq<Registration>): seq<Registration> {
    if list == [] then [x]
    else if Precedes(list[|list| - 1], x) then list + [x]
    else Placed(x, list[..|list| - 1]) + [list[|list| - 1]]
  }

  /** `sort.SliceStable` with the comparison above. */
  function SortedRegistrations(list: seq<Registration>): seq<Registration> {
    if list == [] then [] else Placed(list[|list| - 1], SortedRegistrations(list[..|list| - 1]))
  }

  lemma {:induction false} PlacedBag(x: Registration, list: seq<Registration>)
    ensures multiset(Placed(x, list)) == multiset(list) + multiset{x}
  {
    if list != [] && !Precedes(list[|list| - 1], x) {
      PlacedBag(x, list[..|list| - 1]);
      assert list == list[..|list| - 1] + [list[|list| - 1]];
    }
  }

  lemma {:induction false} PlacedOrdered(x: Registration, list: seq<Registration>)
    requires Ordered(list) && forall i :: 0 <= i < |list| ==> list[i].sequence != x.sequence
    ensures Ordered(Placed(x, list))
  {
    if list != [] && !Precedes(list[|list| - 1], x) {
      var n := |list| - 1;
      PlacedOrdered(x, list[..n]);
      PlacedBag(x, list[..n]);
      var front := Placed(x, list[..n]);
      forall i | 0 <= i < |front| ensures Precedes(front[i], list[n]) {
        assert front[i] in multiset(front);
      }
    }
  }

  lemma {:induction false} SortOfOrdered(list: seq<Registration>)
    requires Ordered(list)
    ensures SortedRegistrations(list) == list
  {
    if list != [] {
      var n := |list| - 1;
      SortOfOrdered(list[..n]);
      assert list == list[..n] + [list[n]];
    }
  }

  /** An ordered list of registrations numbered up to `last`. */
  predicate Numbered(list: seq<Registration>, last: nat) {
    Ordered(list) && forall i :: 0 <= i < |list| ==> list[i].sequence <= last
  }

  type Lists = map<Stage, seq<Registration>>

  predicate AllNumbered(lists: Lists, last: nat) {
    forall stage :: stage in lists ==> Numbered(lists[stage], last)
  }

  function ListOf(lists: Lists, stage: Stage): seq<Registration> {
    if stage in lists then lists[stage] else []
  }

  /** `sortRegistrations(append(list, added))`, stored back in the map. */
  method Append(lists: Lists, stage: Stage, added: Registration, ghost last: nat) returns (updated: Lists)
    requires AllNumbered(lists, last) && added.sequence == last + 1
    ensures AllNumbered(updated, last + 1) && updated.Keys == lists.Keys + {stage}
    ensures forall other :: other in lists && other != stage ==> updated[other] == lists[other]
    ensures Added(ListOf(lists, stage), added, updated[stage])
  {
    hide Numbered, SortedRegistrations, Added;
    var list := ListOf(lists, stage);
    NothingIsNumbered(last);
    AppendedIsSorted(list, added, last);
    updated := lists[stage := SortedRegistrations(list + [added])];
    forall other | other in updated ensures Numbered(updated[other], last + 1) {
      if other != stage {
        MoreNumbers(lists[other], last);
      }
    }
  }

  class Registry {
    var sequence: nat
    var global: Lists
    var models: map<Type, Lists>

    constructor ()
      ensures Valid() && global == map[] && models == map[]
    {
      sequence := 0;
      global := map[];
      models := map[];
    }

    /** Every list is ordered, and no registration is numbered past the counter. */
    predicate Valid()
      reads this
    {
      AllNumbered(global, sequence) && forall model :: model in models ==> AllNumbered(models[model], sequence)
    }

    function Global(stage: Stage): seq<Registration>
      reads this
    {
      ListOf(global, stage)
    }

    function ForModel(typeOf: Type, stage: Stage): seq<Registration>
      reads this
    {
      if typeOf in models then ListOf(models[typeOf], stage) else []
    }

    method RegisterGlobal(stage: Stage, priority: int, handler: Option<Handler>) returns (error: Option<Error>)
      requires Valid()
      modifies this
      ensures Valid() && models == old(models)
      ensures error == if stage.Unknown? then Some(UnknownStage) else if handler == None then Some(NoHandler) else None
      ensures error.Some? ==> unchanged(this)
      ensures error.None? ==> forall other :: other != stage ==> Global(other) == old(Global(other))
      ensures error.None? ==> Added(old(Global(stage)), Registration(priority, sequence, handler.value), Global(stage))
    {
      if stage.Unknown? {
        return Some(UnknownStage);
      }
      if handler.None? {
        return Some(NoHandler);
      }
      hide AllNumbered, Added;
      sequence := sequence + 1;
      global := Append(global, stage, Registration(priority, sequence, handler.value), sequence - 1);
      forall model | model in models ensures AllNumbered(models[model], sequence) {
        MoreNumbered(models[model], sequence - 1);
      }
      error := None;
    }

    method Register(model: Model, stage: Stage, priority: int, handler: Option<Handler>) returns (error: Option<Error>)
      requires Valid()
      modifies this
      ensures Valid() && global == old(global)
      ensures error == if stage.Unknown? then Some(UnknownStage) else if handler == None then Some(NoHandler)
                       else if model.NilModel? then Some(NoModel) else if model.NoStruct? then Some(NotStruct) else None
      ensures error.Some? ==> unchanged(this)
      ensures error.None? ==> forall typeOf, other :: (typeOf != model.typeOf || other != stage) ==>
                ForModel(typeOf, other) == old(ForModel(typeOf, other))
      ensures error.None? ==>
                Added(old(ForModel(model.typeOf, stage)), Registration(priority, sequence, handler.value), ForModel(model.typeOf, stage))
    {
      if stage.Unknown? {
        return Some(UnknownStage);
      }
      if handler.None? {
        return Some(NoHandler);
      }
      if model.NilModel? {
        return Some(NoModel);
      }
      if model.NoStruct? {
        return Some(NotStruct);
      }
      hide Added;
      sequence := sequence + 1;
      var typeOf := model.typeOf;
      var byStage := if typeOf in models then models[typeOf] else map[];
      byStage := Append(byStage, stage, Registration(priority, sequence, handler.value), sequence - 1);
      MoreNumbered(global, sequence - 1);
      forall other | other in models ensures AllNumbered(models[other], sequence) {
        MoreNumbered(models[other], sequence - 1);
      }
      models := models[typeOf := byStage];
      error := None;
    }
  }

  lemma MoreNumbered(lists: Lists, last: nat)
    requires AllNumbered(lists, last)
    ensures AllNumbered(lists, last + 1)
  {
    forall stage | stage in lists ensures Numbered(lists[stage], last + 1) {
      MoreNumbers(lists[stage], last);
    }
  }

  lemma NothingIsNumbered(last: nat)
    ensures Numbered([], last)
  {
  }

  lemma MoreNumbers(list: seq<Registration>, last: nat)
    requires Numbered(list, last)
    ensures Numbered(list, last + 1)
  {
  }

  /** `after` is `before` with the registration at place `k`: behind everything of its own or a smaller priority. */
  predicate AddedAt(before: seq<Registration>, added: Registration, after: seq<Registration>, k: nat) {
    k <= |before| && after == before[..k] + [added] + before[k..]
    && (forall i :: 0 <= i < k ==> before[i].priority <= added.priority)
    && (forall i :: k <= i < |before| ==> before[i].priority > added.priority)
  }

  ghost predicate Added(before: seq<Registration>, added: Registration, after: seq<Registration>) {
    exists k: nat :: AddedAt(before, added, after, k)
  }

  lemma {:induction false} PlacedIsAdded(list: seq<Registration>, added: Registration)
    requires Ordered(list) && forall i :: 0 <= i < |list| ==> list[i].sequence < added.sequence
    ensures Added(list, added, Placed(added, list))
  {
    var n := |list|;
    if n == 0 {
      assert AddedAt(list, added, Placed(added, list), 0);
    } else if Precedes(list[n - 1], added) {
      assert forall i :: 0 <= i < n - 1 ==> Precedes(list[i], list[n - 1]);
      assert AddedAt(list, added, list + [added], n);
    } else {
      PlacedIsAdded(list[..n - 1], added);
      var k: nat :| AddedAt(list[..n - 1], added, Placed(added, list[..n - 1]), k);
      AddedBeforeLast(list, added, Placed(added, list[..n - 1]), k);
    }
  }

  lemma AddedBeforeLast(list: seq<Registration>, added: Registration, after: seq<Registration>, k: nat)
    requires list != [] && AddedAt(list[..|list| - 1], added, after, k) && list[|list| - 1].priority > added.priority
    ensures AddedAt(list, added, after + [list[|list| - 1]], k)
  {
    var n := |list| - 1;
    assert list[..k] == list[..n][..k] && list[k..] == list[..n][k..] + [list[n]];
    assert forall i :: 0 <= i < n ==> list[..n][i] == list[i];
  }

  /** Appending the newest registration and sorting puts it in its place and keeps the order. */
  lemma AppendedIsSorted(list: seq<Registration>, added: Registration, last: nat)
    requires Numbered(list, last) && added.sequence == last + 1
    ensures Numbered(SortedRegistrations(list + [added]), last + 1) && Added(list, added, SortedRegistrations(list + [added]))
  {
    assert (list + [added])[..|list|] == list;
    SortOfOrdered(list);
    PlacedOrdered(added, list);
    PlacedIsAdded(list, added);
    PlacedBag(added, list);
    var sorted := Placed(added, list);
    forall i | 0 <= i < |sorted| ensures sorted[i].sequence <= last + 1 {
      assert sorted[i] in multiset(sorted);
    }
  }

  // ------------------------------------------------------------------------------------------------- runs

  /** What is called: a registered handler, or the method of the entity itself. */
  datatype Call = Registered(handler: Handler) | OwnHook(stage: Stage)

  function CallsOf(list: seq<Registration>): (calls: seq<Call>)
    ensures |calls| == |list| && forall i :: 0 <= i < |list| ==> calls[i] == Registered(list[i].handler)
  {
    seq(|list|, i requires 0 <= i < |list| => Registered(list[i].handler))
  }

  /** What a stage calls when nothing fails: before-stages go from global to the entity, the others the other way. */
  function Planned(stage: Stage, global: seq<Registration>, registered: seq<Registration>, own: bool): seq<Call> {
    var hook := if own then [OwnHook(stage)] else [];
    if IsBefore(stage) then CallsOf(global) + CallsOf(registered) + hook
    else hook + CallsOf(registered) + CallsOf(global)
  }

  /** Handlers see what was called before them; the outcome of the last call of a history. */
  type Behaviour = seq<Call> -> Option<Error>

  /** The calls made and the error: everything up to the first failure. */
  predicate Ran(behaviour: Behaviour, planned: seq<Call>, called: seq<Call>, error: Option<Error>) {
    && |called| <= |planned| && called == planned[..|called|]
    && (error.None? ==> called == planned)
    && (error.Some? ==> called != [] && behaviour(called) == error)
    && (forall k :: 1 <= k <= |called| && (k < |called| || error.None?) ==> behaviour(called[..k]).None?)
  }

  class Runner {
    var called: seq<Call>

    constructor ()
      ensures called == []
    {
      called := [];
    }

    method Invoke(call: Call, behaviour: Behaviour) returns (error: Option<Error>)
      modifies this
      ensures called == old(called) + [call] && error == behaviour(called)
    {
      called := called + [call];
      error := behaviour(called);
    }

    /** `runHandlers`. */
    method RunHandlers(handlers: seq<Registration>, behaviour: Behaviour) returns (error: Option<Error>)
      requires Ran(behaviour, called, called, None)
      modifies this
      ensures Ran(behaviour, old(called) + CallsOf(handlers), called, error)
    {
      for i := 0 to |handlers|
        invariant called == old(called) + CallsOf(handlers)[..i]
        invariant Ran(behaviour, called, called, None)
      {
        ghost var before := called;
        error := Invoke(Registered(handlers[i].handler), behaviour);
        assert called == old(called) + CallsOf(handlers)[..i + 1];
        CalledOnce(behaviour, before, called, error);
        if error.Some? {
          assert called == (old(called) + CallsOf(handlers))[..|called|];
          return;
        }
      }
      error := None;
    }

    /** `runModelHook`. */
    method RunModelHook(stage: Stage, own: bool, behaviour: Behaviour) returns (error: Option<Error>)
      requires Ran(behaviour, called, called, None)
      modifies this
      ensures !stage.Unknown? ==> Ran(behaviour, old(called) + (if own then [OwnHook(stage)] else []), called, error)
      ensures stage.Unknown? ==> error == Some(UnknownStage) && called == old(called)
    {
      if stage.Unknown? {
        return Some(UnknownStage);
      }
      error := None;
      if own {
        ghost var before := called;
        error := Invoke(OwnHook(stage), behaviour);
        CalledOnce(behaviour, before, called, error);
      } else {
        assert called + [] == called;
      }
    }

    /** The order of a before-stage: from global to the entity. */
    method RunInward(global: seq<Registration>, registered: seq<Registration>, stage: Stage, own: bool, behaviour: Behaviour)
      returns (error: Option<Error>)
      requires called == [] && !stage.Unknown?
      modifies this
      ensures Ran(behaviour, CallsOf(global) + CallsOf(registered) + (if own then [OwnHook(stage)] else []), called, error)
    {
      hide CallsOf, Ran;
      RanNothing(behaviour);
      ghost var hook := if own then [OwnHook(stage)] else [];
      assert [] + CallsOf(global) == CallsOf(global);
      error := RunHandlers(global, behaviour);
      if error.Some? {
        RanShorter(behaviour, CallsOf(global), CallsOf(registered) + hook, called, error);
        assert CallsOf(global) + CallsOf(registered) + hook == CallsOf(global) + (CallsOf(registered) + hook);
        return;
      }
      RanAll(behaviour, CallsOf(global), called);
      error := RunHandlers(registered, behaviour);
      if error.Some? {
        RanShorter(behaviour, CallsOf(global) + CallsOf(registered), hook, called, error);
        return;
      }
      RanAll(behaviour, CallsOf(global) + CallsOf(registered), called);
      error := RunModelHook(stage, own, behaviour);
    }

    /** The order of every other stage. */
    method RunOutward(global: seq<Registration>, registered: seq<Registration>, stage: Stage, own: bool, behaviour: Behaviour)
      returns (error: Option<Error>)
      requires called == []
      modifies this
      ensures stage.Unknown? ==> error == Some(UnknownStage) && called == []
      ensures !stage.Unknown? ==>
                Ran(behaviour, (if own then [OwnHook(stage)] else []) + CallsOf(registered) + CallsOf(global), called, error)
    {
      hide CallsOf, Ran;
      RanNothing(behaviour);
      ghost var hook := if own then [OwnHook(stage)] else [];
      assert [] + hook == hook;
      error := RunModelHook(stage, own, behaviour);
      if stage.Unknown? {
        return;
      }
      if error.Some? {
        RanShorter(behaviour, hook, CallsOf(registered) + CallsOf(global), called, error);
        assert hook + CallsOf(registered) + CallsOf(global) == hook + (CallsOf(registered) + CallsOf(global));
        return;
      }
      RanAll(behaviour, hook, called);
      error := RunHandlers(registered, behaviour);
      if error.Some? {
        RanShorter(behaviour, hook + CallsOf(registered), CallsOf(global), called, error);
        return;
      }
      RanAll(behaviour, hook + CallsOf(registered), called);
      error := RunHandlers(global, behaviour);
    }

    /** `Run`, with copies of the two lists taken under the lock. */
    method Run(registry: Registry, stage: Stage, typeOf: Type, own: bool, hasContext: bool, behaviour: Behaviour)
      returns (error: Option<Error>)
      requires called == []
      modifies this
      ensures !hasContext ==> error == Some(NoContext) && called == []
      ensures hasContext && stage.Unknown? ==> error == Some(UnknownStage) && called == []
      ensures hasContext && !stage.Unknown? ==>
                Ran(behaviour, Planned(stage, registry.Global(stage), registry.ForModel(typeOf, stage), own), called, error)
    {
      hide CallsOf, Ran;
      if !hasContext {
        return Some(NoContext);
      }
      var global, registered := registry.Global(stage), registry.ForModel(typeOf, stage);
      if IsBefore(stage) {
        error := RunInward(global, registered, stage, own, behaviour);
      } else {
        error := RunOutward(global, registered, stage, own, behaviour);
      }
    }
  }

  lemma CalledOnce(behaviour: Behaviour, before: seq<Call>, called: seq<Call>, error: Option<Error>)
    requires Ran(behaviour, before, before, None) && |called| == |before| + 1 && called[..|before|] == before
    requires error == behaviour(called)
    ensures Ran(behaviour, called, called, error)
  {
    forall k | 1 <= k <= |called| && (k < |called| || error.None?) ensures behaviour(called[..k]).None? {
      if k < |called| {
        assert called[..k] == before[..k];
      } else {
        assert called[..k] == called;
      }
    }
    assert called[..|called|] == called;
  }

  lemma RanNothing(behaviour: Behaviour)
    ensures Ran(behaviour, [], [], None)
  {
  }

  lemma RanAll(behaviour: Behaviour, planned: seq<Call>, called: seq<Call>)
    requires Ran(behaviour, planned, called, None)
    ensures called == planned && Ran(behaviour, called, called, None)
  {
  }

  lemma RanShorter(behaviour: Behaviour, planned: seq<Call>, more: seq<Call>, called: seq<Call>, error: Option<Error>)
    requires Ran(behaviour, planned, called, error) && error.Some?
    ensures Ran(behaviour, planned + more, called, error)
  {
    assert (planned + more)[..|called|] == planned[..|called|];
  }

  /** Who is called, place by place: in the seven before-stages the global handlers, then the model's, then the entity's own
      hook; in every other stage the own hook, then the model's handlers, then the global ones; each list in its order, and
      all of them when nothing fails. */
  lemma LayersInOrder(behaviour: Behaviour, stage: Stage, global: seq<Registration>, registered: seq<Registration>, own: bool,
                      called: seq<Call>, error: Option<Error>)
    requires Ran(behaviour, Planned(stage, global, registered, own), called, error)
    ensures var g, r, o := |global|, |registered|, if own then 1 else 0;
            |called| <= g + r + o && (error.None? ==> |called| == g + r + o)
            && forall i :: 0 <= i < |called| ==>
                 called[i] ==
                 if stage in [BeforeValidate, BeforeSave, BeforeCreate, BeforeUpdate, BeforeDelete, BeforeRestore, BeforeForceDelete] then
                   if i < g then Registered(global[i].handler)
                   else if i < g + r then Registered(registered[i - g].handler) else OwnHook(stage)
                 else
                   if i < o then OwnHook(stage)
                   else if i < o + r then Registered(registered[i - o].handler) else Registered(global[i - o - r].handler)
  {
    var planned := Planned(stage, global, registered, own);
    assert IsBefore(stage) <==>
           stage in [BeforeValidate, BeforeSave, BeforeCreate, BeforeUpdate, BeforeDelete, BeforeRestore, BeforeForceDelete];
    hide IsBefore;
    assert forall i :: 0 <= i < |called| ==> called[i] == planned[i];
  }

  /** A stage that fails in an after-stage's own hook calls no registered handler; one that fails in a global handler
      of a before-stage calls nothing narrower. */
  lemma FirstLayerGuards(behaviour: Behaviour, stage: Stage, global: seq<Registration>, registered: seq<Registration>,
                         called: seq<Call>, error: Option<Error>)
    requires Ran(behaviour, Planned(stage, global, registered, true), called, error)
    ensures !IsBefore(stage) && behaviour([OwnHook(stage)]).Some? ==> called == [OwnHook(stage)] && error == behaviour([OwnHook(stage)])
    ensures IsBefore(stage) && OwnHook(stage) in called ==>
              |called| == |global| + |registered| + 1 && forall k :: 1 <= k < |called| ==> behaviour(called[..k]).None?
  {
    var planned := Planned(stage, global, registered, true);
    if !IsBefore(stage) {
      assert planned[0] == OwnHook(stage);
      if behaviour([OwnHook(stage)]).Some? {
        assert called[..1] == [OwnHook(stage)];
      }
    } else if OwnHook(stage) in called {
      var i :| 0 <= i < |called| && called[i] == OwnHook(stage);
      assert planned[i] == OwnHook(stage);
      assert |planned| == |global| + |registered| + 1;
    }
  }
}
