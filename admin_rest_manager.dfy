/**
 * The admin API's handlers as a map from a request to a status and a body.
 * Listing and content preview read the registry; use-override selects an
 * override through the override manager. Every failure becomes status 400
 * with the error's message.
 */
module Admin {
  import opened Common
  import opened Interfaces
  import opened Routes
  import opened Overrides
  import opened RestUtils

  /** `GET /routes` query: an optional path. */
  datatype FilterRouteQuery = FilterRouteQuery(path: Option<string>)

  /** `GET /routes/content` query. */
  datatype FilterMockResponseQuery = FilterMockResponseQuery(path: string, methodType: string, overrideName: Option<string>)

  /** `POST /routes/use-override` body. */
  datatype UseRouteOverride = UseRouteOverride(path: string, methodType: string, name: string)

  datatype Body =
    | RouteList(routes: seq<Route>)
    | Content(json: Json)
    | Chosen(selection: Selection)
    | ResponseError(message: string)

  datatype Response = Response(status: nat, body: Body)

  /** What every handler answers when its work fails. */
  function ErrorResponse(e: Error): (r: Response)
    ensures r.status == 400 && r.body.ResponseError? && r.body.message == Message(e)
  {
    Response(400, ResponseError(Message(e)))
  }

  predicate HasPath(route: Route) {
    route.path != ""
  }

  /** Every registered route with a non-empty path. */
  function GetAllPaths(routes: seq<Route>): (r: seq<Route>)
    ensures |r| <= |routes|
    ensures forall x :: x in r <==> x in routes && x.path != ""
  {
    Filter(routes, HasPath)
  }

  /** The listing keeps registry order: listing two parts is listing each in turn. */
  lemma GetAllPathsKeepsOrder(a: seq<Route>, b: seq<Route>)
    ensures GetAllPaths(a + b) == GetAllPaths(a) + GetAllPaths(b)
  {
    FilterAppend(a, b, HasPath);
  }

  /** The one-element list holding the route with that path. */
  function GetRouteByPath(routes: seq<Route>, path: string): (r: Result<seq<Route>, Error>)
    ensures r.Ok? ==> |r.value| == 1 && r.value[0] in routes && r.value[0].path == path
    ensures r.Err? <==> forall x :: x in routes ==> x.path != path
    ensures r.Err? ==> r.error == RouteNotFound(path)
  {
    var route :- FindRouteByPath(routes, path);
    Ok([route])
  }

  /** The route a path lookup lists is the first one with the path. */
  lemma FirstRoutesFound(routes: seq<Route>, path: string)
    ensures forall i :: 0 <= i < |routes| && routes[i].path == path && (forall j :: 0 <= j < i ==> routes[j].path != path)
              ==> GetRouteByPath(routes, path) == Ok([routes[i]])
  {
    forall i | 0 <= i < |routes| && routes[i].path == path && (forall j :: 0 <= j < i ==> routes[j].path != path)
      ensures GetRouteByPath(routes, path) == Ok([routes[i]])
    {
      FirstRouteFound(routes, path, i);
    }
  }

  /** `GET /routes`: one route when a path is given, else every route with a path. */
  function GetAllRoutes(routes: seq<Route>, query: FilterRouteQuery): (r: Response)
    ensures r.status == 200 || (query.path.Some? && r == ErrorResponse(RouteNotFound(query.path.value)))
    ensures (query.path.None? || query.path.value == "") ==>
              r.status == 200 && r.body.RouteList? && forall x :: x in r.body.routes <==> x in routes && x.path != ""
    ensures query.path.Some? && query.path.value != "" ==>
              (r.status == 200 <==> exists x :: x in routes && x.path == query.path.value)
    ensures query.path.Some? && query.path.value != "" && r.status == 200 ==>
              r.body.RouteList? && |r.body.routes| == 1 && r.body.routes[0] in routes && r.body.routes[0].path == query.path.value
    ensures query.path.Some? && query.path.value != "" ==>
              forall i :: 0 <= i < |routes| && routes[i].path == query.path.value
                          && (forall j :: 0 <= j < i ==> routes[j].path != query.path.value)
                ==> r == Response(200, RouteList([routes[i]]))
    ensures query.path.None? || query.path.value == "" ==> r == Response(200, RouteList(GetAllPaths(routes)))
  {
    if query.path.Some? && query.path.value != "" then
      FirstRoutesFound(routes, query.path.value);
      match GetRouteByPath(routes, query.path.value)
      case Ok(found) => Response(200, RouteList(found))
      case Err(e) => ErrorResponse(e)
    else Response(200, RouteList(GetAllPaths(routes)))
  }

  /**
   * `GET /routes/content`: the preview of a route found in the whole
   * registry, overridable or not.
   */
  function GetPathMockResponse(routes: seq<Route>, query: FilterMockResponseQuery, readFixture: FixtureReader): (r: Response)
    ensures r.status == 200 || r.status == 400
    ensures (forall x :: x in routes ==> x.path != query.path) ==> r == ErrorResponse(RouteNotFound(query.path))
    ensures forall i :: 0 <= i < |routes| && routes[i].path == query.path
                        && (forall j :: 0 <= j < i ==> routes[j].path != query.path)
              ==> match GetPathMockContent(routes[i], query.methodType, query.overrideName, readFixture)
                  case Ok(content) => r == Response(200, Content(content))
                  case Err(e) => r == ErrorResponse(e)
  {
    match FindRouteByPath(routes, query.path)
    case Err(e) => ErrorResponse(e)
    case Ok(route) =>
      match GetPathMockContent(route, query.methodType, query.overrideName, readFixture)
      case Ok(content) => Response(200, Content(content))
      case Err(e) => ErrorResponse(e)
  }

  /**
   * A route with no overridable method can be previewed, yet an override
   * cannot be chosen for it: the preview searches the whole registry, the
   * choice only the overridable routes.
   */
  lemma PreviewReachesMoreThanChoice(routes: seq<Route>, i: nat, k: nat, readFixture: FixtureReader)
    requires i < |routes| && forall j :: 0 <= j < i ==> routes[j].path != routes[i].path
    requires forall x :: x in routes && x.path == routes[i].path ==> forall m :: m in x.methods ==> !IsOverridableMethod(m)
    requires k < |routes[i].methods| && !IsFunction(routes[i].methods[k].file)
    requires forall j :: 0 <= j < k ==> Lower(routes[i].methods[j].methodType) != Lower(routes[i].methods[k].methodType)
    requires routes[i].methods[k].data.Some? && routes[i].methods[k].data.value.Static?
    requires Truthy(routes[i].methods[k].data.value.value)
    ensures GetPathMockResponse(routes, FilterMockResponseQuery(routes[i].path, routes[i].methods[k].methodType, None), readFixture)
            == Response(200, Content(routes[i].methods[k].data.value.value))
    ensures ResolveOverrides(routes, routes[i].path, routes[i].methods[k].methodType) == Err(RouteNotFound(routes[i].path))
  {
    var m := routes[i].methods[k];
    assert GetPathMockContent(routes[i], m.methodType, None, readFixture) == Ok(m.data.value.value);
  }

  /** The admin API; only use-override changes state. */
  class AdminRestManager {
    const routeManager: RouteManager
    const overrideManager: OverrideManager

    constructor (routeManager: RouteManager, overrideManager: OverrideManager)
      ensures this.routeManager == routeManager && this.overrideManager == overrideManager
    {
      this.routeManager := routeManager;
      this.overrideManager := overrideManager;
    }

    /**
     * `POST /routes/use-override`: answers with the record the override
     * manager returns, or with its error; flags and store change only on
     * success.
     */
    method UsePathOverride(body: UseRouteOverride) returns (response: Response)
      requires overrideManager.routeManager.Valid()
      modifies overrideManager.routeManager.selected, overrideManager.fileStorage
      ensures overrideManager.routeManager.Valid()
      ensures response.status == 200 <==> ResolveOverrides(overrideManager.routeManager.routes, body.path, body.methodType).Ok?
      ensures response.status == 200 ==>
        && response.body == Chosen(Selection(body.path, body.methodType, body.name))
        && overrideManager.routeManager.selected[..]
           == ChooseFlags(old(overrideManager.routeManager.selected[..]),
                          ResolveOverrides(overrideManager.routeManager.routes, body.path, body.methodType).value, body.name)
        && (overrideManager.fileStorage != null ==>
              overrideManager.fileStorage.items
              == old(overrideManager.fileStorage.items)[FileStorageKey := Snapshot(overrideManager.routeManager.routes, overrideManager.routeManager.selected[..])])
      ensures response.status != 200 ==>
        && response == ErrorResponse(ResolveOverrides(overrideManager.routeManager.routes, body.path, body.methodType).error)
        && unchanged(overrideManager.routeManager.selected)
        && (overrideManager.fileStorage != null ==> unchanged(overrideManager.fileStorage))
    {
      var chosen := overrideManager.ChooseRestClient(body.path, body.methodType, body.name);
      match chosen
      case Ok(selection) =>
        response := Response(200, Chosen(selection));
      case Err(e) =>
        response := ErrorResponse(e);
    }
  }

  // ---------------------------------------------------------------------------
  // The registry of the admin API's examples

  const DogsRoute: Route := Route("/dogs", [Method("get", None, None, None, None)])

  const ExampleRoutes: seq<Route> := [UsersRoute, DogsRoute]

  /** Listing `/dogs` returns that route alone; an unknown path is a 400; the whole list keeps both routes in order. */
  lemma ExampleListing()
    ensures GetAllRoutes(ExampleRoutes, FilterRouteQuery(Some("/dogs"))) == Response(200, RouteList([DogsRoute]))
    ensures GetAllRoutes(ExampleRoutes, FilterRouteQuery(Some("/dogs-teste"))).status == 400
    ensures GetAllRoutes(ExampleRoutes, FilterRouteQuery(None)) == Response(200, RouteList(ExampleRoutes))
  {
    assert ExampleRoutes[0].path != "/dogs";
    assert FindRouteByPath(ExampleRoutes, "/dogs") == Ok(DogsRoute);
    assert GetAllPaths(ExampleRoutes) == ExampleRoutes by {
      assert ExampleRoutes == [UsersRoute] + [DogsRoute];
      GetAllPathsKeepsOrder([UsersRoute], [DogsRoute]);
    }
  }

  /** Choosing for `/dogs` fails: it has no overridable method, so it is not among the overridable routes. */
  lemma ExampleChoiceOnPlainRoute()
    ensures ResolveOverrides(ExampleRoutes, "/dogs", "get") == Err(RouteNotFound("/dogs"))
    ensures ResolveOverrides(ExampleRoutes, "/invalid-path", "get") == Err(RouteNotFound("/invalid-path"))
  {
    assert DogsRoute.methods[0].overrides.None?;
  }
}
