/**
 * The content preview of the admin API: which `data`/`file`/`scenario` a
 * method would answer with under a given override name, and what that
 * content is. The fixture reader is a parameter of the model.
 */
module RestUtils {
  import opened Common
  import opened Interfaces
  import opened Routes
  import opened Overrides

  /** The body shown for content that is computed per request. */
  const RuntimeResponseMockMessage: Json := JObj([("message", JStr("The data will be resolved at runtime"))])

  /** The attribute is a function of the request rather than a value. */
  predicate IsFunction<T>(attribute: Option<Payload<T>>) {
    attribute.Some? && attribute.value.Dynamic?
  }

  /** Reads the fixture at a path for a route path and a scenario; it may fail. */
  type FixtureReader = (string, string, Option<string>) -> Result<Json, Error>

  /** The first override of `m` whose name is exactly `name`. */
  function FindOverrideByName(m: Method, name: string): (r: Option<MethodOverride>)
    ensures r.Some? ==> r.value in OverridesOf(m) && r.value.name == name
    ensures r.Some? ==> exists k :: 0 <= k < |OverridesOf(m)| && OverridesOf(m)[k] == r.value
                                    && forall j :: 0 <= j < k ==> OverridesOf(m)[j].name != name
    ensures r.None? <==> forall o :: o in OverridesOf(m) ==> o.name != name
  {
    match FindIndex(OverridesOf(m), (o: MethodOverride) => o.name == name)
    case Some(k) => Some(OverridesOf(m)[k])
    case None => None
  }

  datatype Attributes = Attributes(data: Option<Payload<Json>>, file: Option<Payload<string>>, scenario: Option<string>)

  function MethodAttributes(m: Method): Attributes {
    Attributes(m.data, m.file, m.scenario)
  }

  function OverrideAttributes(o: MethodOverride): Attributes {
    Attributes(o.data, o.file, o.scenario)
  }

  /** No name, the empty name, or `default` in any letter case select the method's own content. */
  predicate UsesMethodDefaults(overrideName: Option<string>) {
    overrideName.None? || overrideName.value == "" || Lower(overrideName.value) == "default"
  }

  /** The attributes the preview uses: the method's own, or those of the first override named `overrideName`. */
  function GetMethodAttributes(m: Method, overrideName: Option<string>): (r: Attributes)
    ensures UsesMethodDefaults(overrideName) ==> r == MethodAttributes(m)
    ensures !UsesMethodDefaults(overrideName) ==>
              forall k :: 0 <= k < |OverridesOf(m)| && OverridesOf(m)[k].name == overrideName.value
                          && (forall j :: 0 <= j < k ==> OverridesOf(m)[j].name != overrideName.value)
                ==> r == OverrideAttributes(OverridesOf(m)[k])
    ensures !UsesMethodDefaults(overrideName) && (forall o :: o in OverridesOf(m) ==> o.name != overrideName.value)
            ==> r == Attributes(None, None, None)
  {
    if UsesMethodDefaults(overrideName) then MethodAttributes(m)
    else match FindOverrideByName(m, overrideName.value)
      case Some(o) => OverrideAttributes(o)
      case None => Attributes(None, None, None)
  }

  /** `data || readFixtureSync(file || path, path, scenario)`, after ruling out functions. */
  function ContentOf(a: Attributes, path: string, readFixture: FixtureReader): Result<Json, Error> {
    if IsFunction(a.data) || IsFunction(a.file) then Ok(RuntimeResponseMockMessage)
    else if a.data.Some? && Truthy(a.data.value.value) then Ok(a.data.value.value)
    else
      var fixture := if a.file.Some? && a.file.value.value != "" then a.file.value.value else path;
      readFixture(fixture, path, a.scenario)
  }

  /** The content the method `methodType` of `route` answers with under `overrideName`. */
  function GetPathMockContent(route: Route, methodType: string, overrideName: Option<string>, readFixture: FixtureReader)
    : (r: Result<Json, Error>)
    ensures (forall m :: m in route.methods ==> Lower(m.methodType) != Lower(methodType))
            ==> r == Err(MethodNotFound(methodType))
    ensures forall k :: 0 <= k < |route.methods| && Lower(route.methods[k].methodType) == Lower(methodType)
                        && (forall j :: 0 <= j < k ==> Lower(route.methods[j].methodType) != Lower(methodType))
              ==> r == ContentOf(GetMethodAttributes(route.methods[k], overrideName), route.path, readFixture)
  {
    var m :- FindRouteMethodByType(route.methods, methodType);
    ContentOf(GetMethodAttributes(m, overrideName), route.path, readFixture)
  }

  // ---------------------------------------------------------------------------
  // What the preview shows

  /** A function-valued `data` or `file` shows the placeholder and never reads a fixture. */
  lemma DynamicShowsPlaceholder(a: Attributes, path: string, readFixture: FixtureReader)
    requires a.data == Some(Dynamic) || a.file == Some(Dynamic)
    ensures ContentOf(a, path, readFixture) == Ok(RuntimeResponseMockMessage)
  {
  }

  /** Truthy inline data is shown as it is, whatever the fixture reader would do. */
  lemma InlineDataWins(a: Attributes, path: string, read1: FixtureReader, read2: FixtureReader)
    requires !IsFunction(a.file) && a.data.Some? && a.data.value.Static? && Truthy(a.data.value.value)
    ensures ContentOf(a, path, read1) == ContentOf(a, path, read2) == Ok(a.data.value.value)
  {
  }

  /** Without truthy inline data the fixture is read: from `file` when it is non-empty, else from the route path. */
  lemma FixtureFallback(a: Attributes, path: string, readFixture: FixtureReader)
    requires !IsFunction(a.data) && !IsFunction(a.file)
    requires a.data.None? || !Truthy(a.data.value.value)
    ensures a.file.Some? && a.file.value.value != "" ==> ContentOf(a, path, readFixture) == readFixture(a.file.value.value, path, a.scenario)
    ensures a.file.None? || a.file.value.value == "" ==> ContentOf(a, path, readFixture) == readFixture(path, path, a.scenario)
  {
  }

  /**
   * An override name that no override carries does not fail: the preview
   * reads the fixture at the route path with no scenario.
   */
  lemma UnknownOverrideReadsRouteFixture(route: Route, k: nat, overrideName: string, readFixture: FixtureReader)
    requires k < |route.methods|
    requires forall j :: 0 <= j < k ==> Lower(route.methods[j].methodType) != Lower(route.methods[k].methodType)
    requires !UsesMethodDefaults(Some(overrideName))
    requires forall o :: o in OverridesOf(route.methods[k]) ==> o.name != overrideName
    ensures GetPathMockContent(route, route.methods[k].methodType, Some(overrideName), readFixture)
            == readFixture(route.path, route.path, None)
  {
  }

  /** `default` in any letter case, and the empty name, preview exactly what no name does. */
  lemma DefaultNameIsNoName(route: Route, methodType: string, overrideName: string, readFixture: FixtureReader)
    requires overrideName == "" || Lower(overrideName) == "default"
    ensures GetPathMockContent(route, methodType, Some(overrideName), readFixture)
            == GetPathMockContent(route, methodType, None, readFixture)
  {
  }

  /**
   * Previewing the override a method has selected shows every field that
   * override carries, as the request middleware serves it.
   */
  lemma PreviewMatchesServedOverride(m: Method, flags: seq<bool>)
    requires FindSelectedMethodOverride(m, flags).Some?
    requires !UsesMethodDefaults(Some(FindSelectedMethodOverride(m, flags).value.name))
    requires forall i, j :: 0 <= i < j < |OverridesOf(m)| ==> OverridesOf(m)[i].name != OverridesOf(m)[j].name
    ensures var o := FindSelectedMethodOverride(m, flags).value;
            var shown := GetMethodAttributes(m, Some(o.name));
            var served := MergeSelectedOverride(m, flags);
            && (o.data.Some? ==> shown.data == served.data)
            && (o.file.Some? ==> shown.file == served.file)
            && (o.scenario.Some? ==> shown.scenario == served.scenario)
  {
    var o := FindSelectedMethodOverride(m, flags).value;
    var k :| 0 <= k < |OverridesOf(m)| && OverridesOf(m)[k] == o && forall j :: 0 <= j < k ==> !Flag(flags, OverridesOf(m)[j].id);
    assert forall j :: 0 <= j < k ==> OverridesOf(m)[j].name != OverridesOf(m)[k].name;
  }

  /**
   * An override named `default` in any letter case can be selected and is
   * then served with its own fields, yet previewing it by name shows the
   * method's own attributes instead.
   */
  lemma DefaultNamedOverridePreview(m: Method, flags: seq<bool>)
    requires FindSelectedMethodOverride(m, flags).Some?
    requires Lower(FindSelectedMethodOverride(m, flags).value.name) == "default"
    ensures var o := FindSelectedMethodOverride(m, flags).value;
            && GetMethodAttributes(m, Some(o.name)) == MethodAttributes(m)
            && (o.data.Some? ==> MergeSelectedOverride(m, flags).data == o.data)
            && (o.file.Some? ==> MergeSelectedOverride(m, flags).file == o.file)
            && (o.scenario.Some? ==> MergeSelectedOverride(m, flags).scenario == o.scenario)
  {
  }

  // ---------------------------------------------------------------------------
  // The `/users` route of the admin API's examples

  const UsersRoute: Route := Route("/users", [
    Method("get", Some(Static(JArr([JStr("First user")]))), None, None,
           Some([MethodOverride(0, "Inactive User", Some(Static(JObj([("active", JBool(false))]))), None, None)]))
  ])

  /** Without an override name the method's data is shown; with `Inactive User`, that override's data. */
  lemma UsersPreview(readFixture: FixtureReader)
    ensures GetPathMockContent(UsersRoute, "get", None, readFixture) == Ok(JArr([JStr("First user")]))
    ensures GetPathMockContent(UsersRoute, "get", Some("Inactive User"), readFixture) == Ok(JObj([("active", JBool(false))]))
  {
    var m := UsersRoute.methods[0];
    assert Lower("get") == "get";
    assert Lower("Inactive User") != "default" by {
      assert Lower("Inactive User")[0] == 'i';
    }
    assert FindRouteMethodByType(UsersRoute.methods, "get") == Ok(m);
    assert OverridesOf(m)[0].name == "Inactive User";
  }
}
