/**
 * Why the persisted snapshot survives a restart: replaying the records that
 * `getAllSelected` produced restores, method by method, the selected override
 * name, provided routes and methods are uniquely addressable and no override
 * object is shared between two methods.
 */
module Persistence {
  import opened Common
  import opened Interfaces
  import opened Routes
  import opened Overrides

  // ---------------------------------------------------------------------------
  // Registry shapes under which a record names exactly one method

  ghost predicate UniquePaths(routes: seq<Route>) {
    forall i, j :: 0 <= i < j < |routes| ==> routes[i].path != routes[j].path
  }

  ghost predicate UniqueMethodTypes(routes: seq<Route>) {
    forall r :: r in routes ==>
      forall i, j :: 0 <= i < j < |r.methods| ==> Lower(r.methods[i].methodType) != Lower(r.methods[j].methodType)
  }

  ghost function SlotIds(s: Slot): set<nat> {
    IdsOf(OverridesOf(s.routeMethod))
  }

  ghost predicate PairwiseDisjoint(slots: seq<Slot>) {
    forall i, j :: 0 <= i < j < |slots| ==> SlotIds(slots[i]) !! SlotIds(slots[j])
  }

  ghost predicate WellFormed(routes: seq<Route>, slots: nat) {
    && Registered(routes, slots)
    && UniquePaths(routes)
    && UniqueMethodTypes(routes)
    && PairwiseDisjoint(Slots(routes))
  }

  // ---------------------------------------------------------------------------
  // Lookups find the method a slot came from

  /** Every slot is a method of some registered route with that route's path. */
  lemma {:induction false} SlotOrigin(routes: seq<Route>, k: nat)
    requires k < |Slots(routes)|
    ensures exists r :: r in routes && r.path == Slots(routes)[k].path && Slots(routes)[k].routeMethod in r.methods
  {
    var init := routes[..|routes| - 1];
    var last := routes[|routes| - 1];
    assert routes == init + [last];
    if k < |Slots(init)| {
      SlotOrigin(init, k);
      var r :| r in init && r.path == Slots(init)[k].path && Slots(init)[k].routeMethod in r.methods;
      assert r in routes;
    } else {
      var j := k - |Slots(init)|;
      assert Slots(routes)[k] == Slot(last.path, last.methods[j]);
    }
  }

  lemma SamePathSameRoute(routes: seq<Route>, x: Route, y: Route)
    requires UniquePaths(routes) && x in routes && y in routes && x.path == y.path
    ensures x == y
  {
    var i :| 0 <= i < |routes| && routes[i] == x;
    var j :| 0 <= j < |routes| && routes[j] == y;
  }

  lemma SameTypeSameMethod(route: Route, x: Method, y: Method)
    requires forall i, j :: 0 <= i < j < |route.methods| ==> Lower(route.methods[i].methodType) != Lower(route.methods[j].methodType)
    requires x in route.methods && y in route.methods && Lower(x.methodType) == Lower(y.methodType)
    ensures x == y
  {
    var i :| 0 <= i < |route.methods| && route.methods[i] == x;
    var j :| 0 <= j < |route.methods| && route.methods[j] == y;
  }

  /** With unique paths, a route with an overridable method is the one the lookup among overridable routes finds. */
  lemma RouteResolves(routes: seq<Route>, r: Route, m: Method)
    requires UniquePaths(routes) && r in routes && m in r.methods && IsOverridableMethod(m)
    ensures FindRouteByPath(GetAll(routes), r.path) == Ok(r)
  {
    assert r in GetAll(routes);
    var found := FindRouteByPath(GetAll(routes), r.path);
    SamePathSameRoute(routes, found.value, r);
  }

  /** With unique types, a method is the one the lookup by its own (lower-cased) type finds. */
  lemma MethodResolves(r: Route, m: Method)
    requires forall i, j :: 0 <= i < j < |r.methods| ==> Lower(r.methods[i].methodType) != Lower(r.methods[j].methodType)
    requires m in r.methods
    ensures FindRouteMethodByType(r.methods, Lower(m.methodType)) == Ok(m)
  {
    LowerIdempotent(m.methodType);
    var found := FindRouteMethodByType(r.methods, Lower(m.methodType));
    SameTypeSameMethod(r, found.value, m);
  }

  /** The record of an overridable method resolves back to that method's own override list. */
  lemma ResolveSlot(routes: seq<Route>, k: nat)
    requires UniquePaths(routes) && UniqueMethodTypes(routes)
    requires k < |Slots(routes)| && IsOverridableMethod(Slots(routes)[k].routeMethod)
    ensures ResolveOverrides(routes, Slots(routes)[k].path, Slots(routes)[k].routeMethod.methodType)
            == Ok(Slots(routes)[k].routeMethod.overrides.value)
  {
    var s := Slots(routes)[k];
    SlotOrigin(routes, k);
    var r :| r in routes && r.path == s.path && s.routeMethod in r.methods;
    RouteResolves(routes, r, s.routeMethod);
    MethodResolves(r, s.routeMethod);
    assert GetMethodOverridesByType(r, Lower(s.routeMethod.methodType)) == Ok(s.routeMethod.overrides.value);
  }

  // ---------------------------------------------------------------------------
  // Replay facts

  /** Replaying `a + b` is replaying `a`, then, unless that failed, `b`. */
  lemma {:induction false} ReplayAppend(routes: seq<Route>, flags: seq<bool>, a: seq<Selection>, b: seq<Selection>)
    ensures Replay(routes, flags, a + b)
            == var ra := Replay(routes, flags, a);
               if ra.outcome.Fail? then ra else Replay(routes, ra.flags, b)
    decreases |a|
  {
    if a == [] {
      assert a + b == b;
    } else {
      assert (a + b)[0] == a[0] && (a + b)[1..] == a[1..] + b;
      match ResolveOverrides(routes, a[0].routePath, a[0].methodType)
      case Err(_) =>
      case Ok(overrides) =>
        ReplayAppend(routes, ChooseFlags(flags, overrides, a[0].name), a[1..], b);
    }
  }

  /**
   * A record whose route or method is missing stops the replay with that
   * error; the records before it stay applied and the ones after it are not.
   */
  lemma ReplayAbortsAtMissingEntry(routes: seq<Route>, flags: seq<bool>, before: seq<Selection>, bad: Selection, after: seq<Selection>)
    requires Replay(routes, flags, before).outcome == Pass
    requires ResolveOverrides(routes, bad.routePath, bad.methodType).Err?
    ensures Replay(routes, flags, before + [bad] + after)
            == ReplayResult(Replay(routes, flags, before).flags, Fail(ResolveOverrides(routes, bad.routePath, bad.methodType).error))
  {
    assert before + [bad] + after == before + ([bad] + after);
    ReplayAppend(routes, flags, before, [bad] + after);
  }

  /** A replay that passes on `a` and then on `b` passes on `a + b`, leaving the flags of the second. */
  lemma ReplayConcat(routes: seq<Route>, flags: seq<bool>, a: seq<Selection>, b: seq<Selection>, mid: seq<bool>, out: seq<bool>)
    requires Replay(routes, flags, a) == ReplayResult(mid, Pass)
    requires Replay(routes, mid, b) == ReplayResult(out, Pass)
    ensures Replay(routes, flags, a + b) == ReplayResult(out, Pass)
  {
    ReplayAppend(routes, flags, a, b);
  }

  /** Replaying one record whose lookup succeeds applies the selection loop to the list found. */
  lemma ReplayOne(routes: seq<Route>, flags: seq<bool>, record: Selection, overrides: seq<MethodOverride>)
    requires ResolveOverrides(routes, record.routePath, record.methodType) == Ok(overrides)
    ensures Replay(routes, flags, [record]) == ReplayResult(ChooseFlags(flags, overrides, record.name), Pass)
  {
    assert [record][1..] == [];
  }

  // ---------------------------------------------------------------------------
  // Restoring selections slot by slot

  /** The ids used by the overrides of `slots`. */
  ghost function AllIds(slots: seq<Slot>): set<nat> {
    if slots == [] then {} else AllIds(slots[..|slots| - 1]) + SlotIds(slots[|slots| - 1])
  }

  /** The slot's override ids fit a flag array of length `n`, and entries sharing an id share a name. */
  ghost predicate Addressable(s: Slot, n: nat) {
    && (forall o :: o in OverridesOf(s.routeMethod) ==> o.id < n)
    && SameIdSameName(OverridesOf(s.routeMethod))
  }

  /** The record of slot `s` resolves, in `routes`, back to the slot's own override list. */
  ghost predicate Resolves(routes: seq<Route>, s: Slot) {
    IsOverridableMethod(s.routeMethod)
    ==> ResolveOverrides(routes, s.path, s.routeMethod.methodType) == Ok(OverridesOf(s.routeMethod))
  }

  /** The flags after restoring one slot's selection from `f0` onto `g`: the selection loop for its name, if any. */
  ghost function RestoreStep(s: Slot, f0: seq<bool>, g: seq<bool>): seq<bool> {
    match SelectedName(s.routeMethod, f0)
    case None => g
    case Some(name) => ChooseFlags(g, OverridesOf(s.routeMethod), name)
  }

  /** The flags after restoring, in order, the selections of `slots` from `f0` onto `f1`. */
  ghost function Restored(slots: seq<Slot>, f0: seq<bool>, f1: seq<bool>): seq<bool> {
    if slots == [] then f1
    else RestoreStep(slots[|slots| - 1], f0, Restored(slots[..|slots| - 1], f0, f1))
  }

  /** A slot disjoint from every slot of a list is disjoint from all their ids together. */
  lemma {:induction false} DisjointFromAll(slots: seq<Slot>, s: Slot)
    requires forall x :: x in slots ==> SlotIds(x) !! SlotIds(s)
    ensures SlotIds(s) !! AllIds(slots)
    decreases |slots|
  {
    if slots != [] {
      DisjointFromAll(slots[..|slots| - 1], s);
      assert slots[|slots| - 1] in slots;
    }
  }

  /** Splitting off the last slot keeps the others pairwise disjoint, and disjoint from it. */
  lemma SplitLast(slots: seq<Slot>)
    requires PairwiseDisjoint(slots) && slots != []
    ensures PairwiseDisjoint(slots[..|slots| - 1])
    ensures forall x :: x in slots[..|slots| - 1] ==> SlotIds(x) !! SlotIds(slots[|slots| - 1])
    ensures forall x :: x in slots ==> x in slots[..|slots| - 1] || x == slots[|slots| - 1]
  {
    var init := slots[..|slots| - 1];
    forall x | x in init
      ensures SlotIds(x) !! SlotIds(slots[|slots| - 1])
    {
      var i :| 0 <= i < |init| && init[i] == x;
      assert slots[i] == x;
    }
    forall x | x in slots
      ensures x in init || x == slots[|slots| - 1]
    {
      var i :| 0 <= i < |slots| && slots[i] == x;
      if i < |init| {
        assert init[i] == x;
      }
    }
  }

  /** Replaying the record one slot contributes to a snapshot passes and restores that slot. */
  lemma ReplaySlot(routes: seq<Route>, f0: seq<bool>, g: seq<bool>, s: Slot)
    requires Resolves(routes, s)
    ensures Replay(routes, g, SlotSelection(s, f0)) == ReplayResult(RestoreStep(s, f0, g), Pass)
  {
    var m := s.routeMethod;
    if SelectedName(m, f0).Some? {
      var chosen := FindSelectedMethodOverride(m, f0).value;
      assert chosen in OverridesOf(m);
      var record := Selection(s.path, m.methodType, SelectedName(m, f0).value);
      assert SlotSelection(s, f0) == [record];
      ReplayOne(routes, g, record, OverridesOf(m));
    } else {
      assert SlotSelection(s, f0) == [];
    }
  }

  /** Replaying the snapshot records of `slots` passes and leaves the restored flags. */
  lemma {:induction false} ReplayIsRestore(routes: seq<Route>, slots: seq<Slot>, f0: seq<bool>, f1: seq<bool>)
    requires forall s :: s in slots ==> Resolves(routes, s)
    ensures Replay(routes, f1, SnapshotOf(slots, f0)) == ReplayResult(Restored(slots, f0, f1), Pass)
    decreases |slots|
  {
    if slots != [] {
      var init := slots[..|slots| - 1];
      var last := slots[|slots| - 1];
      ReplayIsRestore(routes, init, f0, f1);
      var before := Restored(init, f0, f1);
      ReplaySlot(routes, f0, before, last);
      ReplayConcat(routes, f1, SnapshotOf(init, f0), SlotSelection(last, f0), before, RestoreStep(last, f0, before));
    }
  }

  /** Choosing a name for slot `last` leaves the selection of every slot disjoint from it as it was. */
  lemma ChooseKeepsOthers(others: seq<Slot>, last: Slot, g: seq<bool>, name: string)
    requires Addressable(last, |g|)
    requires forall x :: x in others ==> SlotIds(x) !! SlotIds(last)
    ensures forall x :: x in others ==>
              SelectedName(x.routeMethod, ChooseFlags(g, OverridesOf(last.routeMethod), name)) == SelectedName(x.routeMethod, g)
  {
    var h := ChooseFlags(g, OverridesOf(last.routeMethod), name);
    ChooseFlagsEffect(g, OverridesOf(last.routeMethod), name);
    forall x | x in others
      ensures SelectedName(x.routeMethod, h) == SelectedName(x.routeMethod, g)
    {
      forall o | o in OverridesOf(x.routeMethod)
        ensures Flag(h, o.id) == Flag(g, o.id)
      {
        assert o.id in SlotIds(x);
      }
      SelectionIsLocal(x.routeMethod, h, g);
    }
  }

  /**
   * Restoring slot `last` onto flags `g` that already restore the slots of
   * `init`, and leave every other flag as in `f1`, restores `last` too and
   * leaves the slots of `init` as they were.
   */
  lemma RestoreLast(init: seq<Slot>, last: Slot, f0: seq<bool>, f1: seq<bool>, g: seq<bool>) returns (h: seq<bool>)
    requires |g| == |f1| && Addressable(last, |f1|)
    requires SlotIds(last) !! AllIds(init)
    requires forall x :: x in init ==> SlotIds(x) !! SlotIds(last)
    requires SelectedName(last.routeMethod, f0).None? ==> SelectedName(last.routeMethod, f1).None?
    requires forall id :: 0 <= id < |f1| && id !in AllIds(init) ==> g[id] == f1[id]
    requires forall x :: x in init ==> SelectedName(x.routeMethod, g) == SelectedName(x.routeMethod, f0)
    ensures h == RestoreStep(last, f0, g) && |h| == |f1|
    ensures forall id :: 0 <= id < |f1| && id !in AllIds(init) && id !in SlotIds(last) ==> h[id] == f1[id]
    ensures forall x :: x in init || x == last ==> SelectedName(x.routeMethod, h) == SelectedName(x.routeMethod, f0)
  {
    var m := last.routeMethod;
    if SelectedName(m, f0).None? {
      forall o | o in OverridesOf(m)
        ensures Flag(g, o.id) == Flag(f1, o.id)
      {
        assert o.id in SlotIds(last);
      }
      SelectionIsLocal(m, g, f1);
      h := g;
    } else {
      var name := SelectedName(m, f0).value;
      var chosen := FindSelectedMethodOverride(m, f0).value;
      assert chosen in OverridesOf(m) && chosen.name == name;
      h := ChooseFlags(g, OverridesOf(m), name);
      ChooseFlagsEffect(g, OverridesOf(m), name);
      ChooseFlagsSelection(g, m, name);
      ChooseKeepsOthers(init, last, g, name);
    }
  }

  /**
   * Restoring the selections of pairwise disjoint slots touches only their
   * flags, and each slot then selects what it selected under `f0`.
   */
  lemma {:induction false} RestoreSelections(slots: seq<Slot>, f0: seq<bool>, f1: seq<bool>) returns (g: seq<bool>)
    requires PairwiseDisjoint(slots)
    requires forall s :: s in slots ==> Addressable(s, |f1|)
    requires forall s :: s in slots && SelectedName(s.routeMethod, f0).None? ==> SelectedName(s.routeMethod, f1).None?
    ensures g == Restored(slots, f0, f1) && |g| == |f1|
    ensures forall id :: 0 <= id < |f1| && id !in AllIds(slots) ==> g[id] == f1[id]
    ensures forall s :: s in slots ==> SelectedName(s.routeMethod, g) == SelectedName(s.routeMethod, f0)
    decreases |slots|
  {
    if slots == [] {
      g := f1;
    } else {
      var init := slots[..|slots| - 1];
      var last := slots[|slots| - 1];
      SplitLast(slots);
      var before := RestoreSelections(init, f0, f1);
      DisjointFromAll(init, last);
      g := RestoreLast(init, last, f0, f1, before);
    }
  }

  // ---------------------------------------------------------------------------
  // The round trip

  /** The slot's override objects are registered ones, so the selection loop acts on them as on one object each. */
  lemma SlotRegistered(routes: seq<Route>, n: nat, k: nat)
    requires Registered(routes, n) && k < |Slots(routes)|
    ensures forall o :: o in OverridesOf(Slots(routes)[k].routeMethod) ==> o in AllOverrides(routes) && o.id < n
    ensures SameIdSameName(OverridesOf(Slots(routes)[k].routeMethod))
  {
    SlotOrigin(routes, k);
  }

  /** Under unique paths and method types, every method's record resolves back to it. */
  lemma AllResolve(routes: seq<Route>)
    requires UniquePaths(routes) && UniqueMethodTypes(routes)
    ensures forall s :: s in Slots(routes) ==> Resolves(routes, s)
  {
    forall s | s in Slots(routes)
      ensures Resolves(routes, s)
    {
      var k :| 0 <= k < |Slots(routes)| && Slots(routes)[k] == s;
      if IsOverridableMethod(s.routeMethod) {
        ResolveSlot(routes, k);
      }
    }
  }

  /** Every method of a registry whose override objects are registered is addressable. */
  lemma AllAddressable(routes: seq<Route>, n: nat)
    requires Registered(routes, n)
    ensures forall s :: s in Slots(routes) ==> Addressable(s, n)
  {
    forall s | s in Slots(routes)
      ensures Addressable(s, n)
    {
      var k :| 0 <= k < |Slots(routes)| && Slots(routes)[k] == s;
      SlotRegistered(routes, n, k);
    }
  }

  /**
   * Replaying the snapshot taken under flags `f0` onto a restarted registry
   * with flags `f1`, in which no method has gained a selection, succeeds and
   * restores every method's selected name, hence the same snapshot.
   */
  lemma ReplayRestoresSelection(routes: seq<Route>, f0: seq<bool>, f1: seq<bool>)
    requires WellFormed(routes, |f0|) && |f1| == |f0|
    requires forall s :: s in Slots(routes) && SelectedName(s.routeMethod, f0).None? ==> SelectedName(s.routeMethod, f1).None?
    ensures Replay(routes, f1, Snapshot(routes, f0)).outcome == Pass
    ensures forall s :: s in Slots(routes) ==>
              SelectedName(s.routeMethod, Replay(routes, f1, Snapshot(routes, f0)).flags) == SelectedName(s.routeMethod, f0)
    ensures Snapshot(routes, Replay(routes, f1, Snapshot(routes, f0)).flags) == Snapshot(routes, f0)
  {
    var S := Slots(routes);
    AllResolve(routes);
    AllAddressable(routes, |f0|);
    ReplayIsRestore(routes, S, f0, f1);
    var g := RestoreSelections(S, f0, f1);
    SnapshotAgree(S, g, f0);
  }


  /** At a cold start no flag is set, so replaying the stored snapshot restores it exactly. */
  lemma ColdStartReplay(routes: seq<Route>, f0: seq<bool>, f1: seq<bool>)
    requires WellFormed(routes, |f0|) && |f1| == |f0|
    requires forall i :: 0 <= i < |f1| ==> !f1[i]
    ensures Replay(routes, f1, Snapshot(routes, f0)).outcome == Pass
    ensures Snapshot(routes, Replay(routes, f1, Snapshot(routes, f0)).flags) == Snapshot(routes, f0)
  {
    ReplayRestoresSelection(routes, f0, f1);
  }
}
