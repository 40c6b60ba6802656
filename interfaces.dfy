/** The records the mock server is configured with and the records it persists. */
module Interfaces {
  import opened Common

  /** A response attribute that is either a plain value or a function of the request. */
  datatype Payload<+T> = Static(value: T) | Dynamic

  /**
   * A named alternative response of a method. `id` is the identity of the
   * override object: its mutable `selected` flag is not part of the value but
   * lives in the registry at index `id`, so every route value that holds this
   * override shares the one flag.
   */
  datatype MethodOverride = MethodOverride(
    id: nat,
    name: string,
    data: Option<Payload<Json>>,
    file: Option<Payload<string>>,
    scenario: Option<string>)

  /** One HTTP verb of a route, with its own content and its optional overrides. */
  datatype Method = Method(
    methodType: string,
    data: Option<Payload<Json>>,
    file: Option<Payload<string>>,
    scenario: Option<string>,
    overrides: Option<seq<MethodOverride>>)

  datatype Route = Route(path: string, methods: seq<Method>)

  /** The `{routePath, methodType, name}` record (called `Override` in the server). */
  datatype Selection = Selection(routePath: string, methodType: string, name: string)

  /** Every condition that the server raises as an `Error` in the modelled code. */
  datatype Error =
    | RouteNotFound(path: string)
    | MethodNotFound(methodType: string)
    | NoOverrides(methodType: string)
    | FixtureError(message: string)

  /** The override list of a method, an absent list read as empty. */
  function OverridesOf(m: Method): seq<MethodOverride> {
    if m.overrides.Some? then m.overrides.value else []
  }

  /** The `message` an error carries; the admin API answers with it. */
  function Message(e: Error): string {
    match e
    case RouteNotFound(path) => "Route with path \"" + path + "\" not found"
    case MethodNotFound(t) => "Method with type \"" + t + "\" not found"
    case NoOverrides(t) => "Method with type \"" + t + "\" has no \"overrides\""
    case FixtureError(message) => message
  }
}
