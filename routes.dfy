/**
 * The route registry and its two lookups. The registry's own source file is
 * not part of this model: the lookups follow how the override and admin code
 * call them (an exact path match, and a method-type match after lower-casing,
 * each failing when nothing matches).
 */
module Routes {
  import opened Common
  import opened Interfaces

  /** The first route whose path is exactly `path`. */
  function FindRouteByPath(routes: seq<Route>, path: string): (r: Result<Route, Error>)
    ensures r.Ok? ==> r.value in routes && r.value.path == path
    ensures r.Ok? ==> exists i :: 0 <= i < |routes| && routes[i] == r.value && forall j :: 0 <= j < i ==> routes[j].path != path
    ensures r.Err? <==> forall x :: x in routes ==> x.path != path
    ensures r.Err? ==> r.error == RouteNotFound(path)
  {
    match FindIndex(routes, (x: Route) => x.path == path)
    case Some(i) => Ok(routes[i])
    case None => Err(RouteNotFound(path))
  }

  /** The route found is the first one with the path. */
  lemma FirstRouteFound(routes: seq<Route>, path: string, i: nat)
    requires i < |routes| && routes[i].path == path
    requires forall j :: 0 <= j < i ==> routes[j].path != path
    ensures FindRouteByPath(routes, path) == Ok(routes[i])
  {
    var found := FindRouteByPath(routes, path);
    assert routes[i] in routes;
    var k :| 0 <= k < |routes| && routes[k] == found.value && forall j :: 0 <= j < k ==> routes[j].path != path;
    assert k == i;
  }

  /** The first method whose type equals `methodType`, ignoring ASCII case. */
  function FindRouteMethodByType(methods: seq<Method>, methodType: string): (r: Result<Method, Error>)
    ensures r.Ok? ==> r.value in methods && Lower(r.value.methodType) == Lower(methodType)
    ensures r.Ok? ==> exists i :: 0 <= i < |methods| && methods[i] == r.value && forall j :: 0 <= j < i ==> Lower(methods[j].methodType) != Lower(methodType)
    ensures r.Err? <==> forall m :: m in methods ==> Lower(m.methodType) != Lower(methodType)
    ensures r.Err? ==> r.error == MethodNotFound(methodType)
  {
    match FindIndex(methods, (m: Method) => Lower(m.methodType) == Lower(methodType))
    case Some(i) => Ok(methods[i])
    case None => Err(MethodNotFound(methodType))
  }

  /** Every override object reachable from the registry. */
  ghost function AllOverrides(routes: seq<Route>): set<MethodOverride> {
    set r, m, o | r in routes && m in r.methods && o in OverridesOf(m) :: o
  }

  /**
   * The registry's invariant: every override object has a flag slot, and an
   * id names one object (the same object may be shared, but then it is the
   * same value everywhere).
   */
  ghost predicate Registered(routes: seq<Route>, slots: nat) {
    && (forall o :: o in AllOverrides(routes) ==> o.id < slots)
    && (forall o1, o2 :: o1 in AllOverrides(routes) && o2 in AllOverrides(routes) && o1.id == o2.id ==> o1 == o2)
  }

  /** The mutable route table; `selected[o.id]` is override `o`'s `selected` flag. */
  class RouteManager {
    var routes: seq<Route>
    var selected: array<bool>

    ghost predicate Valid()
      reads this
    {
      Registered(routes, selected.Length)
    }

    constructor ()
      ensures Valid() && routes == [] && selected.Length == 0
    {
      routes := [];
      selected := new bool[0];
    }

    /** Replaces the whole table; `flags` are the overrides' initial `selected` values. */
    method SetAll(newRoutes: seq<Route>, flags: seq<bool>)
      requires Registered(newRoutes, |flags|)
      modifies this
      ensures Valid() && fresh(selected)
      ensures routes == newRoutes && selected[..] == flags
    {
      routes := newRoutes;
      selected := new bool[|flags|](i requires 0 <= i < |flags| => flags[i]);
    }
  }
}
