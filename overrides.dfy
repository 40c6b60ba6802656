/**
 * Override selection: which routes can be overridden, which override of a
 * method is selected, how a selection is made, snapshotted, persisted and
 * replayed at startup.
 */
module Overrides {
  import opened Common
  import opened Interfaces
  import opened Routes
  import opened Storage

  /** The key the selection snapshot is stored under. */
  const FileStorageKey: string := "overrides"

  // ---------------------------------------------------------------------------
  // Overridable routes

  /** `isNotEmpty` applied to a method's `overrides`: present and non-empty. */
  predicate IsOverridableMethod(m: Method) {
    m.overrides.Some? && m.overrides.value != []
  }

  function FilterOverridableMethods(methods: seq<Method>): (r: seq<Method>)
    ensures |r| <= |methods|
    ensures forall m :: m in r <==> m in methods && IsOverridableMethod(m)
  {
    Filter(methods, IsOverridableMethod)
  }

  /** A route is kept by `getAll` when its filtered method list is not empty. */
  predicate IsOverridableRoute(route: Route) {
    FilterOverridableMethods(route.methods) != []
  }

  /**
   * The routes that have at least one overridable method. The routes are
   * kept whole: their other methods are not trimmed.
   */
  function GetAll(routes: seq<Route>): (r: seq<Route>)
    ensures |r| <= |routes|
    ensures forall x :: x in r <==> x in routes && exists m :: m in x.methods && IsOverridableMethod(m)
  {
    OverridableRoutes(routes);
    Filter(routes, IsOverridableRoute)
  }

  lemma OverridableRoutes(routes: seq<Route>)
    ensures forall x :: x in routes ==> (IsOverridableRoute(x) <==> exists m :: m in x.methods && IsOverridableMethod(m))
  {
    forall x | x in routes
      ensures IsOverridableRoute(x) <==> exists m :: m in x.methods && IsOverridableMethod(m)
    {
      var kept := FilterOverridableMethods(x.methods);
      if kept != [] {
        assert kept[0] in kept;
      }
    }
  }

  /** `getAll` keeps registry order: it distributes over concatenation and keeps or drops each route. */
  lemma {:induction false} GetAllKeepsOrder(a: seq<Route>, b: seq<Route>, x: Route)
    ensures GetAll(a + b) == GetAll(a) + GetAll(b)
    ensures GetAll([x]) == if IsOverridableRoute(x) then [x] else []
  {
    FilterAppend(a, b, IsOverridableRoute);
  }

  // ---------------------------------------------------------------------------
  // Locating the override list a selection acts on

  /** The override list of the method of `route` whose type matches; fails when that list is absent. */
  function GetMethodOverridesByType(route: Route, methodType: string): (r: Result<seq<MethodOverride>, Error>)
    ensures r.Ok? ==> exists m :: m in route.methods && Lower(m.methodType) == Lower(methodType) && m.overrides == Some(r.value)
    ensures (forall m :: m in route.methods ==> Lower(m.methodType) != Lower(methodType)) ==> r == Err(MethodNotFound(methodType))
    ensures FindRouteMethodByType(route.methods, methodType).Ok? && FindRouteMethodByType(route.methods, methodType).value.overrides.None?
            ==> r == Err(NoOverrides(methodType))
    ensures forall k :: 0 <= k < |route.methods| && Lower(route.methods[k].methodType) == Lower(methodType)
                        && (forall j :: 0 <= j < k ==> Lower(route.methods[j].methodType) != Lower(methodType))
              ==> r == if route.methods[k].overrides.Some? then Ok(route.methods[k].overrides.value) else Err(NoOverrides(methodType))
    ensures r.Err? ==> r.error == MethodNotFound(methodType) || r.error == NoOverrides(methodType)
  {
    var m :- FindRouteMethodByType(route.methods, methodType);
    if m.overrides.Some? then Ok(m.overrides.value) else Err(NoOverrides(methodType))
  }

  /**
   * The lookup `chooseRestClient` and the replay perform: the route among the
   * overridable ones, then its method by lower-cased type. The list returned
   * is the registry's own: every override in it is a registered object.
   */
  function ResolveOverrides(routes: seq<Route>, path: string, methodType: string): (r: Result<seq<MethodOverride>, Error>)
    ensures r.Ok? ==> forall o :: o in r.value ==> o in AllOverrides(routes)
    ensures (forall x :: x in routes && x.path == path ==> forall m :: m in x.methods ==> !IsOverridableMethod(m))
            ==> r == Err(RouteNotFound(path))
  {
    var route :- FindRouteByPath(GetAll(routes), path);
    var overrides :- GetMethodOverridesByType(route, Lower(methodType));
    assert forall o :: o in overrides ==> o in AllOverrides(routes) by {
      var m :| m in route.methods && m.overrides == Some(overrides);
      assert forall o :: o in overrides ==> o in OverridesOf(m);
    }
    Ok(overrides)
  }

  /** The lookup fails with route-not-found exactly when no route with the path has an overridable method. */
  lemma ResolveRouteNotFound(routes: seq<Route>, path: string, methodType: string)
    ensures ResolveOverrides(routes, path, methodType) == Err(RouteNotFound(path))
            <==> forall x :: x in routes && x.path == path ==> forall m :: m in x.methods ==> !IsOverridableMethod(m)
  {
    var found := FindRouteByPath(GetAll(routes), path);
    if found.Ok? {
      assert found.value in GetAll(routes);
    }
  }

  /**
   * Otherwise the list is the one found, by lower-cased type, in the first
   * overridable route with the path.
   */
  lemma ResolveFirstRoute(routes: seq<Route>, path: string, methodType: string, i: nat)
    requires i < |GetAll(routes)| && GetAll(routes)[i].path == path
    requires forall j :: 0 <= j < i ==> GetAll(routes)[j].path != path
    ensures ResolveOverrides(routes, path, methodType) == GetMethodOverridesByType(GetAll(routes)[i], Lower(methodType))
  {
    FirstRouteFound(GetAll(routes), path, i);
  }

  // ---------------------------------------------------------------------------
  // Selection flags

  /** Override `id`'s `selected` flag; an id without a slot reads as not selected. */
  function Flag(flags: seq<bool>, id: nat): bool {
    id < |flags| && flags[id]
  }

  function IsSelected(flags: seq<bool>): MethodOverride -> bool {
    (o: MethodOverride) => Flag(flags, o.id)
  }

  /** The first override of `m` whose `selected` flag is set. */
  function FindSelectedMethodOverride(m: Method, flags: seq<bool>): (r: Option<MethodOverride>)
    ensures r.Some? ==> r.value in OverridesOf(m) && Flag(flags, r.value.id)
    ensures r.Some? ==> exists k :: 0 <= k < |OverridesOf(m)| && OverridesOf(m)[k] == r.value
                                    && forall j :: 0 <= j < k ==> !Flag(flags, OverridesOf(m)[j].id)
    ensures r.None? <==> forall o :: o in OverridesOf(m) ==> !Flag(flags, o.id)
  {
    match FindIndex(OverridesOf(m), IsSelected(flags))
    case Some(k) => Some(OverridesOf(m)[k])
    case None => None
  }

  /** The name of the selected override of `m`, if any. */
  function SelectedName(m: Method, flags: seq<bool>): Option<string> {
    match FindSelectedMethodOverride(m, flags)
    case Some(o) => Some(o.name)
    case None => None
  }

  /** The selection of a method depends only on its own overrides' flags. */
  lemma SelectionIsLocal(m: Method, f: seq<bool>, g: seq<bool>)
    requires forall o :: o in OverridesOf(m) ==> Flag(f, o.id) == Flag(g, o.id)
    ensures FindSelectedMethodOverride(m, f) == FindSelectedMethodOverride(m, g)
    ensures SelectedName(m, f) == SelectedName(m, g)
  {
    FindIndexAgree(OverridesOf(m), IsSelected(f), IsSelected(g));
  }

  /**
   * The flags after `overrides.forEach(o => o.selected = o.name === name)`:
   * each override in turn, in list order, gets `name == its name`.
   */
  function ChooseFlags(flags: seq<bool>, overrides: seq<MethodOverride>, name: string): (r: seq<bool>)
    ensures |r| == |flags|
  {
    if overrides == [] then flags
    else
      var before := ChooseFlags(flags, overrides[..|overrides| - 1], name);
      var last := overrides[|overrides| - 1];
      if last.id < |before| then before[last.id := last.name == name] else before
  }

  ghost function IdsOf(overrides: seq<MethodOverride>): set<nat> {
    set o | o in overrides :: o.id
  }

  /** Entries sharing an id are one object, so they share a name. */
  ghost predicate SameIdSameName(overrides: seq<MethodOverride>) {
    forall o1, o2 :: o1 in overrides && o2 in overrides && o1.id == o2.id ==> o1.name == o2.name
  }

  /**
   * After the selection loop every override of the list is selected exactly
   * when its name is `name`, and every flag outside the list is unchanged.
   */
  lemma {:induction false} ChooseFlagsEffect(flags: seq<bool>, overrides: seq<MethodOverride>, name: string)
    requires forall o :: o in overrides ==> o.id < |flags|
    requires SameIdSameName(overrides)
    ensures forall o :: o in overrides ==> ChooseFlags(flags, overrides, name)[o.id] == (o.name == name)
    ensures forall i :: 0 <= i < |flags| && i !in IdsOf(overrides) ==> ChooseFlags(flags, overrides, name)[i] == flags[i]
  {
    if overrides != [] {
      var init := overrides[..|overrides| - 1];
      var last := overrides[|overrides| - 1];
      assert overrides == init + [last];
      assert IdsOf(overrides) == IdsOf(init) + {last.id};
      ChooseFlagsEffect(flags, init, name);
    }
  }

  /**
   * Choosing `name` for a method leaves it selecting `name` when one of its
   * overrides bears that name, and selecting nothing otherwise (the prompt's
   * `Default` option, for one, normally names no override).
   */
  lemma ChooseFlagsSelection(flags: seq<bool>, m: Method, name: string)
    requires forall o :: o in OverridesOf(m) ==> o.id < |flags|
    requires SameIdSameName(OverridesOf(m))
    ensures SelectedName(m, ChooseFlags(flags, OverridesOf(m), name))
            == if exists o :: o in OverridesOf(m) && o.name == name then Some(name) else None
  {
    ChooseFlagsEffect(flags, OverridesOf(m), name);
  }

  /** With unique names, at most one override is selected, and one is exactly when `name` matches. */
  lemma ChooseFlagsAtMostOne(flags: seq<bool>, overrides: seq<MethodOverride>, name: string)
    requires forall o :: o in overrides ==> o.id < |flags|
    requires SameIdSameName(overrides)
    requires forall i, j :: 0 <= i < j < |overrides| ==> overrides[i].name != overrides[j].name
    ensures forall i, j :: (0 <= i < |overrides| && 0 <= j < |overrides|
              && Flag(ChooseFlags(flags, overrides, name), overrides[i].id)
              && Flag(ChooseFlags(flags, overrides, name), overrides[j].id)) ==> i == j
    ensures (exists k :: 0 <= k < |overrides| && Flag(ChooseFlags(flags, overrides, name), overrides[k].id))
            <==> exists k :: 0 <= k < |overrides| && overrides[k].name == name
  {
    ChooseFlagsEffect(flags, overrides, name);
    var r := ChooseFlags(flags, overrides, name);
    forall i, j | 0 <= i < |overrides| && 0 <= j < |overrides| && Flag(r, overrides[i].id) && Flag(r, overrides[j].id)
      ensures i == j
    {
      assert overrides[i] in overrides;
      assert overrides[j] in overrides;
    }
    if exists k :: 0 <= k < |overrides| && overrides[k].name == name {
      var k :| 0 <= k < |overrides| && overrides[k].name == name;
      assert overrides[k] in overrides;
    }
    if exists k :: 0 <= k < |overrides| && Flag(r, overrides[k].id) {
      var k :| 0 <= k < |overrides| && Flag(r, overrides[k].id);
      assert overrides[k] in overrides;
    }
  }

  // ---------------------------------------------------------------------------
  // The selection snapshot

  /** One method of one route, as `getAllSelected` visits them. */
  datatype Slot = Slot(path: string, routeMethod: Method)

  function MethodSlots(path: string, methods: seq<Method>): seq<Slot> {
    seq(|methods|, k requires 0 <= k < |methods| => Slot(path, methods[k]))
  }

  /** Every (route, method) pair of the registry, route by route, method by method. */
  function Slots(routes: seq<Route>): seq<Slot> {
    if routes == [] then []
    else
      var last := routes[|routes| - 1];
      Slots(routes[..|routes| - 1]) + MethodSlots(last.path, last.methods)
  }

  /** The record a method contributes: one if it has a selected override, none otherwise. */
  function SlotSelection(s: Slot, flags: seq<bool>): seq<Selection> {
    match SelectedName(s.routeMethod, flags)
    case Some(name) => [Selection(s.path, s.routeMethod.methodType, name)]
    case None => []
  }

  function SnapshotOf(slots: seq<Slot>, flags: seq<bool>): seq<Selection> {
    if slots == [] then []
    else SnapshotOf(slots[..|slots| - 1], flags) + SlotSelection(slots[|slots| - 1], flags)
  }

  /** What `getAllSelected` returns for the registry `routes` with flags `flags`. */
  function Snapshot(routes: seq<Route>, flags: seq<bool>): seq<Selection> {
    SnapshotOf(Slots(routes), flags)
  }

  lemma SlotsStep(routes: seq<Route>, i: nat)
    requires i < |routes|
    ensures Slots(routes[..i + 1]) == Slots(routes[..i]) + MethodSlots(routes[i].path, routes[i].methods)
  {
    assert routes[..i + 1][..i] == routes[..i];
  }

  lemma MethodSlotsStep(path: string, methods: seq<Method>, j: nat)
    requires j < |methods|
    ensures MethodSlots(path, methods[..j + 1]) == MethodSlots(path, methods[..j]) + [Slot(path, methods[j])]
  {
  }

  lemma SnapshotOfStep(done: seq<Slot>, s: Slot, flags: seq<bool>)
    ensures SnapshotOf(done + [s], flags) == SnapshotOf(done, flags) + SlotSelection(s, flags)
  {
    assert (done + [s])[..|done|] == done;
  }

  /** Scanning one more method of a route appends that method's record, if any. */
  lemma MethodSnapshotStep(scanned: seq<Slot>, path: string, methods: seq<Method>, j: nat, flags: seq<bool>)
    requires j < |methods|
    ensures SnapshotOf(scanned + MethodSlots(path, methods[..j + 1]), flags)
            == SnapshotOf(scanned + MethodSlots(path, methods[..j]), flags) + SlotSelection(Slot(path, methods[j]), flags)
  {
    var done := scanned + MethodSlots(path, methods[..j]);
    MethodSlotsStep(path, methods, j);
    assert done + [Slot(path, methods[j])] == scanned + MethodSlots(path, methods[..j + 1]);
    SnapshotOfStep(done, Slot(path, methods[j]), flags);
  }

  /** The snapshot of consecutive slot lists is the concatenation of their snapshots. */
  lemma {:induction false} SnapshotOfAppend(a: seq<Slot>, b: seq<Slot>, flags: seq<bool>)
    ensures SnapshotOf(a + b, flags) == SnapshotOf(a, flags) + SnapshotOf(b, flags)
    decreases |b|
  {
    if b == [] {
      assert a + b == a;
    } else {
      var init := b[..|b| - 1];
      var last := b[|b| - 1];
      calc {
        SnapshotOf(a + b, flags);
        { assert a + b == (a + init) + [last]; SnapshotOfStep(a + init, last, flags); }
        SnapshotOf(a + init, flags) + SlotSelection(last, flags);
        { SnapshotOfAppend(a, init, flags); }
        (SnapshotOf(a, flags) + SnapshotOf(init, flags)) + SlotSelection(last, flags);
        SnapshotOf(a, flags) + (SnapshotOf(init, flags) + SlotSelection(last, flags));
        SnapshotOf(a, flags) + SnapshotOf(b, flags);
      }
    }
  }

  /** A method with a selected override contributes its record to the snapshot. */
  lemma {:induction false} SnapshotHasRecord(slots: seq<Slot>, flags: seq<bool>, k: nat)
    requires k < |slots| && SelectedName(slots[k].routeMethod, flags).Some?
    ensures Selection(slots[k].path, slots[k].routeMethod.methodType, SelectedName(slots[k].routeMethod, flags).value)
            in SnapshotOf(slots, flags)
  {
    if k < |slots| - 1 {
      SnapshotHasRecord(slots[..|slots| - 1], flags, k);
    }
  }

  /** The snapshot is empty exactly when no method has a selected override. */
  lemma {:induction false} SnapshotEmpty(slots: seq<Slot>, flags: seq<bool>)
    ensures SnapshotOf(slots, flags) == [] <==> forall k :: 0 <= k < |slots| ==> SelectedName(slots[k].routeMethod, flags).None?
  {
    if slots != [] {
      var init := slots[..|slots| - 1];
      var last := slots[|slots| - 1];
      SnapshotEmpty(init, flags);
      assert SnapshotOf(slots, flags) == SnapshotOf(init, flags) + SlotSelection(last, flags);
      if forall k :: 0 <= k < |slots| ==> SelectedName(slots[k].routeMethod, flags).None? {
        forall k | 0 <= k < |init|
          ensures SelectedName(init[k].routeMethod, flags).None?
        {
          assert init[k] == slots[k];
        }
        assert SlotSelection(last, flags) == [];
      } else {
        var k :| 0 <= k < |slots| && SelectedName(slots[k].routeMethod, flags).Some?;
        if k == |slots| - 1 {
          assert |SlotSelection(last, flags)| == 1;
        } else {
          assert init[k] == slots[k];
        }
      }
    }
  }

  /** Two flag states under which every method selects the same name have the same snapshot. */
  lemma {:induction false} SnapshotAgree(slots: seq<Slot>, f: seq<bool>, g: seq<bool>)
    requires forall k :: 0 <= k < |slots| ==> SelectedName(slots[k].routeMethod, f) == SelectedName(slots[k].routeMethod, g)
    ensures SnapshotOf(slots, f) == SnapshotOf(slots, g)
  {
    if slots != [] {
      SnapshotAgree(slots[..|slots| - 1], f, g);
    }
  }

  // ---------------------------------------------------------------------------
  // Replaying a stored snapshot

  datatype ReplayResult = ReplayResult(flags: seq<bool>, outcome: Outcome<Error>)

  /**
   * The flags after replaying `records` in order, each with the same flag
   * assignment as a selection. The first record whose route or method is
   * missing aborts the replay; the records before it stay applied.
   */
  function Replay(routes: seq<Route>, flags: seq<bool>, records: seq<Selection>): (r: ReplayResult)
    ensures |r.flags| == |flags|
    decreases |records|
  {
    if records == [] then ReplayResult(flags, Pass)
    else
      match ResolveOverrides(routes, records[0].routePath, records[0].methodType)
      case Err(e) => ReplayResult(flags, Fail(e))
      case Ok(overrides) => Replay(routes, ChooseFlags(flags, overrides, records[0].name), records[1..])
  }

  // ---------------------------------------------------------------------------
  // The method a request is served with

  /**
   * `{...routeMethod, ...selectedOverride}`: the fields the selected override
   * carries replace the method's, the others stay; with no selected override
   * the method is served as it is.
   */
  function MergeSelectedOverride(m: Method, flags: seq<bool>): (r: Method)
    ensures FindSelectedMethodOverride(m, flags).None? ==> r == m
    ensures r.methodType == m.methodType && r.overrides == m.overrides
    ensures FindSelectedMethodOverride(m, flags).Some? ==>
      var o := FindSelectedMethodOverride(m, flags).value;
      && (o.data.Some? ==> r.data == o.data) && (o.data.None? ==> r.data == m.data)
      && (o.file.Some? ==> r.file == o.file) && (o.file.None? ==> r.file == m.file)
      && (o.scenario.Some? ==> r.scenario == o.scenario) && (o.scenario.None? ==> r.scenario == m.scenario)
  {
    match FindSelectedMethodOverride(m, flags)
    case None => m
    case Some(o) =>
      m.(data := if o.data.Some? then o.data else m.data,
         file := if o.file.Some? then o.file else m.file,
         scenario := if o.scenario.Some? then o.scenario else m.scenario)
  }

  /** After choosing `name` for a method, it is served with that override's fields; after an unmatched name, as it is. */
  lemma ChooseThenServe(flags: seq<bool>, m: Method, name: string)
    requires forall o :: o in OverridesOf(m) ==> o.id < |flags|
    requires SameIdSameName(OverridesOf(m))
    requires forall i, j :: 0 <= i < j < |OverridesOf(m)| ==> OverridesOf(m)[i].name != OverridesOf(m)[j].name
    ensures (forall o :: o in OverridesOf(m) ==> o.name != name)
            ==> MergeSelectedOverride(m, ChooseFlags(flags, OverridesOf(m), name)) == m
    ensures forall k :: 0 <= k < |OverridesOf(m)| && OverridesOf(m)[k].name == name ==>
              FindSelectedMethodOverride(m, ChooseFlags(flags, OverridesOf(m), name)) == Some(OverridesOf(m)[k])
  {
    var overrides := OverridesOf(m);
    var g := ChooseFlags(flags, overrides, name);
    ChooseFlagsEffect(flags, overrides, name);
    forall k | 0 <= k < |overrides| && overrides[k].name == name
      ensures FindSelectedMethodOverride(m, g) == Some(overrides[k])
    {
      var found := FindSelectedMethodOverride(m, g);
      assert overrides[k] in overrides;
      var i :| 0 <= i < |overrides| && overrides[i] == found.value && forall j :: 0 <= j < i ==> !Flag(g, overrides[j].id);
      assert overrides[i].name == name;
    }
  }

  // ---------------------------------------------------------------------------
  // The manager

  class OverrideManager {
    const routeManager: RouteManager
    const fileStorage: FileStorage?

    constructor (routeManager: RouteManager, fileStorage: FileStorage?)
      ensures this.routeManager == routeManager && this.fileStorage == fileStorage
    {
      this.routeManager := routeManager;
      this.fileStorage := fileStorage;
    }

    /** True when the store is present, enabled and initialised. */
    predicate StorageReady()
      reads fileStorage
    {
      fileStorage != null && fileStorage.enabled && fileStorage.IsInitialized()
    }

    /** Collects one record per method that has a selected override, in registry order. */
    method GetAllSelected() returns (selections: seq<Selection>)
      ensures selections == Snapshot(routeManager.routes, routeManager.selected[..])
    {
      var routes := routeManager.routes;
      var flags := routeManager.selected[..];
      selections := [];
      var i := 0;
      while i < |routes|
        invariant 0 <= i <= |routes|
        invariant selections == SnapshotOf(Slots(routes[..i]), flags)
      {
        var route := routes[i];
        var j := 0;
        ghost var scanned := Slots(routes[..i]);
        assert scanned + MethodSlots(route.path, route.methods[..0]) == scanned;
        while j < |route.methods|
          invariant 0 <= j <= |route.methods|
          invariant selections == SnapshotOf(scanned + MethodSlots(route.path, route.methods[..j]), flags)
        {
          var routeMethod := route.methods[j];
          var found := FindSelectedMethodOverride(routeMethod, flags);
          MethodSnapshotStep(scanned, route.path, route.methods, j, flags);
          if found.Some? {
            selections := selections + [Selection(route.path, routeMethod.methodType, found.value.name)];
          }
          j := j + 1;
        }
        assert route.methods[..j] == route.methods;
        SlotsStep(routes, i);
        i := i + 1;
      }
      assert routes[..i] == routes;
    }

    /** `overrides.forEach(o => o.selected = o.name === name)` on the registry's flags. */
    method SetSelectedFlags(overrides: seq<MethodOverride>, name: string)
      requires forall o :: o in overrides ==> o.id < routeManager.selected.Length
      modifies routeManager.selected
      ensures routeManager.selected[..] == ChooseFlags(old(routeManager.selected[..]), overrides, name)
    {
      var i := 0;
      while i < |overrides|
        invariant 0 <= i <= |overrides|
        invariant routeManager.selected[..] == ChooseFlags(old(routeManager.selected[..]), overrides[..i], name)
      {
        var o := overrides[i];
        assert o in overrides;
        routeManager.selected[o.id] := o.name == name;
        assert overrides[..i + 1][..i] == overrides[..i];
        i := i + 1;
      }
      assert overrides[..i] == overrides;
    }

    /**
     * The selection loop over a registered override list, then the write of
     * the full snapshot to the store: what `chooseRestClient` does once its
     * lookup has found the list.
     */
    method SelectAndStore(overrides: seq<MethodOverride>, name: string)
      requires routeManager.Valid()
      requires forall o :: o in overrides ==> o in AllOverrides(routeManager.routes)
      modifies routeManager.selected, fileStorage
      ensures routeManager.Valid()
      ensures routeManager.selected[..] == ChooseFlags(old(routeManager.selected[..]), overrides, name)
      ensures forall o :: o in overrides ==> routeManager.selected[o.id] == (o.name == name)
      ensures forall i :: 0 <= i < routeManager.selected.Length && i !in IdsOf(overrides)
                ==> routeManager.selected[i] == old(routeManager.selected[i])
      ensures fileStorage != null ==>
                && fileStorage.items == old(fileStorage.items)[FileStorageKey := Snapshot(routeManager.routes, routeManager.selected[..])]
                && fileStorage.initialized == old(fileStorage.initialized)
    {
      ghost var before := routeManager.selected[..];
      SetSelectedFlags(overrides, name);
      ChooseFlagsEffect(before, overrides, name);
      ghost var after := routeManager.selected[..];
      if fileStorage != null {
        var snapshot := GetAllSelected();
        fileStorage.SetItem(FileStorageKey, snapshot);
        assert routeManager.selected[..] == after;
      }
    }

    /**
     * Selects override `name` of the method `methodType` of the overridable
     * route `path`, writes the full snapshot to the store, and echoes its
     * arguments.
     */
    method ChooseRestClient(path: string, methodType: string, name: string) returns (r: Result<Selection, Error>)
      requires routeManager.Valid()
      modifies routeManager.selected, fileStorage
      ensures routeManager.Valid()
      ensures ResolveOverrides(routeManager.routes, path, methodType).Err? ==>
        && r == Err(ResolveOverrides(routeManager.routes, path, methodType).error)
        && unchanged(routeManager.selected)
        && (fileStorage != null ==> unchanged(fileStorage))
      ensures ResolveOverrides(routeManager.routes, path, methodType).Ok? ==>
        var overrides := ResolveOverrides(routeManager.routes, path, methodType).value;
        && r == Ok(Selection(path, methodType, name))
        && routeManager.selected[..] == ChooseFlags(old(routeManager.selected[..]), overrides, name)
        && (forall o :: o in overrides ==> routeManager.selected[o.id] == (o.name == name))
        && (forall i :: 0 <= i < routeManager.selected.Length && i !in IdsOf(overrides)
              ==> routeManager.selected[i] == old(routeManager.selected[i]))
        && (fileStorage != null ==>
              && fileStorage.items == old(fileStorage.items)[FileStorageKey := Snapshot(routeManager.routes, routeManager.selected[..])]
              && fileStorage.initialized == old(fileStorage.initialized))
    {
      var resolved := ResolveOverrides(routeManager.routes, path, methodType);
      if resolved.Err? {
        return Err(resolved.error);
      }
      SelectAndStore(resolved.value, name);
      r := Ok(Selection(path, methodType, name));
    }

    /**
     * At startup: seeds an empty store with the current snapshot, or replays
     * the stored records; does nothing unless the store is ready.
     */
    method ApplyExternalOverrides() returns (outcome: Outcome<Error>)
      requires routeManager.Valid()
      modifies routeManager.selected, fileStorage
      ensures routeManager.Valid()
      ensures fileStorage != null ==> fileStorage.initialized == old(fileStorage.initialized)
      ensures !old(StorageReady()) ==>
        outcome == Pass && unchanged(routeManager.selected) && (fileStorage != null ==> unchanged(fileStorage))
      ensures old(StorageReady()) && old(fileStorage.IsEmpty()) ==>
        && outcome == Pass && unchanged(routeManager.selected)
        && fileStorage.items == map[FileStorageKey := Snapshot(routeManager.routes, routeManager.selected[..])]
      ensures old(StorageReady()) && !old(fileStorage.IsEmpty()) ==>
        && unchanged(fileStorage)
        && match old(fileStorage.GetItem(FileStorageKey))
           case None => outcome == Pass && unchanged(routeManager.selected)
           case Some(records) =>
             var replayed := Replay(routeManager.routes, old(routeManager.selected[..]), records);
             routeManager.selected[..] == replayed.flags && outcome == replayed.outcome
    {
      if fileStorage == null || !fileStorage.enabled || !fileStorage.IsInitialized() {
        return Pass;
      }
      if fileStorage.IsEmpty() {
        var snapshot := GetAllSelected();
        fileStorage.SetItem(FileStorageKey, snapshot);
        return Pass;
      }
      var persisted := fileStorage.GetItem(FileStorageKey);
      if persisted.None? {
        return Pass;
      }
      var records := persisted.value;
      var i := 0;
      while i < |records|
        modifies routeManager.selected
        invariant 0 <= i <= |records|
        invariant Replay(routeManager.routes, old(routeManager.selected[..]), records)
                  == Replay(routeManager.routes, routeManager.selected[..], records[i..])
      {
        var record := records[i];
        assert records[i..][0] == record && records[i..][1..] == records[i + 1..];
        var resolved := ResolveOverrides(routeManager.routes, record.routePath, record.methodType);
        if resolved.Err? {
          return Fail(resolved.error);
        }
        SetSelectedFlags(resolved.value, record.name);
        i := i + 1;
      }
      return Pass;
    }
  }
}
