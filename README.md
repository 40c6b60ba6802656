# Override selection and content preview of a mock API server

This project models the part of the fake-backend mock server that decides
which response a route method gives.

- **Route table.** Each route has methods (GET, POST, …). A method may carry
  a list of named *overrides*, alternative responses each with a mutable
  `selected` flag.
- **`OverrideManager`** does four things:
  - lists the overridable routes;
  - selects an override by name, setting every flag of that method's list to
    "name matches";
  - snapshots the selection as `{routePath, methodType, name}` records and
    writes the full snapshot to a key/value store under `"overrides"` after
    each selection;
  - replays the stored snapshot at startup.
- **Content-preview resolver** of the admin API. It decides which
  `data`/`file`/`scenario` apply under an override name: the method's own, or
  the named override's. It then shows one of three things:
  - a fixed placeholder when the content is a function of the request;
  - the inline data;
  - what the fixture reader returns.
- **Admin handlers.** They list routes, preview content and choose an
  override. Every failure is answered with status 400 and `{message}`.

Override objects are shared between the route table and the filtered list
that `getAll` returns. A flag set through the filtered list is therefore seen
by the snapshot, which scans the whole table. The model makes this sharing
explicit:

- each `MethodOverride` value carries an `id`, which is the object's identity;
- its `selected` flag lives in `RouteManager.selected[id]`, an array;
- route values from any list read and write the same flag through that array.

The invariant `Registered` says every id has a slot and one id names one
override.

The modules are:

- `Common`: `Option`, `Result`, `Outcome`, JSON values, ASCII lower-casing,
  and the `find`/`filter` helpers;
- `Interfaces`: routes, methods, overrides, selection records, errors;
- `Routes`: the route table class and its two lookups;
- `Storage`: the key/value store;
- `Overrides`: override selection, snapshot, replay, the serving merge and
  `OverrideManager`;
- `Persistence`: the replay round trip;
- `RestUtils`: the content preview;
- `Admin`: the admin handlers.

Where the documented behaviour and the code differ, the model follows the
code:

- In the content preview, an override name that no override carries does not
  fail. It gives absent attributes, and the fixture is read at the route path
  (source/rest-manager/utils/index.ts:22-30, 55).
- `getAll` keeps each kept route whole. It does not trim a route's
  non-overridable methods (source/overrides.ts:109-115).

## Model

| member | source | states |
|---|---|---|
| Common.FindIndex | source/rest-manager/utils/index.ts:18 | `find`: the index found is the first element satisfying the predicate, and there is none exactly when no element satisfies it |
| Common.Filter | source/rest-manager/admin-rest-manager.ts:81 | `filter`: an element is kept exactly when it is in the input and satisfies the predicate; never longer than the input |
| Common.FilterAppend | source/overrides.ts:112-114 | filtering distributes over concatenation, so filtered lists keep input order |
| Routes.FindRouteByPath | source/overrides.ts:149 | the route returned has the path and is the first with it; fails with route-not-found exactly when no route has the path |
| Routes.FirstRouteFound | source/rest-manager/admin-rest-manager.ts:84-86 | the lookup by path returns the first route of the list with that path |
| Routes.FindRouteMethodByType | source/overrides.ts:41 | the method returned matches the type ignoring case and is the first such; fails with method-not-found exactly when none matches |
| Routes.RouteManager.SetAll | source/rest-manager/admin-rest-manager.spec.ts:57-59 | replaces the table; the flags are the given initial `selected` values and the registry invariant holds |
| Storage.FileStorage.GetItem | source/overrides.ts:86-88 | a value is returned exactly when the key is stored, and it is the stored value |
| Storage.FileStorage.SetItem | source/overrides.ts:156 | the key maps to the new value; every other key is unchanged |
| Overrides.FilterOverridableMethods | source/overrides.ts:52-54 | keeps exactly the methods whose `overrides` is present and non-empty |
| Overrides.IsOverridableMethod | source/overrides.ts:30 | `isNotEmpty` on `overrides`: the list is present and non-empty (definition; characterised through FilterOverridableMethods and GetAll) |
| Overrides.GetAll | source/overrides.ts:109-115 | keeps exactly the routes with at least one method whose `overrides` is present and non-empty, never more routes than the table |
| Overrides.OverridableRoutes | source/overrides.ts:112-114 | a route passes the filter of `getAll` exactly when one of its methods is overridable |
| Overrides.GetAllKeepsOrder | source/overrides.ts:109-115 | `getAll` keeps registry order: it distributes over concatenation and keeps each route whole or drops it |
| Overrides.GetMethodOverridesByType | source/overrides.ts:40-50 | the first method whose type matches ignoring case decides: its list when present (an empty list included), else a "no overrides" error; method-not-found when no method matches; no other error |
| Overrides.ResolveOverrides | source/overrides.ts:148-150 | the list found is made of registered override objects; a path whose routes have no overridable method fails with route-not-found |
| Overrides.ResolveRouteNotFound | source/overrides.ts:148-149 | the lookup fails with route-not-found exactly when no route with the path has an overridable method |
| Overrides.ResolveFirstRoute | source/overrides.ts:148-150 | otherwise the result is the override list of the first overridable route with the path, looked up by lower-cased type |
| Overrides.FindSelectedMethodOverride | source/overrides.ts:62-64 | returns the first override of the method whose flag is set; none exactly when no flag of its list is set |
| Overrides.SelectionIsLocal | source/overrides.ts:62-64 | a method's selection depends only on its own overrides' flags |
| Overrides.ChooseFlags | source/overrides.ts:152-154 | the flags after `overrides.forEach(o => o.selected = o.name === name)`, one override at a time in list order; same length as before (its effect is stated by ChooseFlagsEffect) |
| Overrides.ChooseFlagsEffect | source/overrides.ts:152-154 | after the loop each listed override is selected exactly when its name is the chosen one; every other flag is unchanged |
| Overrides.ChooseFlagsSelection | source/overrides.ts:152-154 | after choosing `name`, the method selects `name` when one of its overrides has it and nothing otherwise (for example the `Default` option, line 28) |
| Overrides.ChooseFlagsAtMostOne | source/overrides.ts:152-154 | with unique names at most one override is selected, and one is exactly when the name matches an override |
| Overrides.SnapshotOfAppend | source/overrides.ts:123-137 | the records of consecutive parts of the table are concatenated in table order |
| Overrides.SnapshotHasRecord | source/overrides.ts:124-133 | every method with a selected override contributes a record with its route path, its type and the selected name |
| Overrides.SnapshotEmpty | source/overrides.ts:127 | the snapshot is empty exactly when no method has a selected override |
| Overrides.SnapshotAgree | source/overrides.ts:122-138 | two flag states under which every method selects the same name give the same snapshot |
| Overrides.Snapshot | source/overrides.ts:122-138 | what `getAllSelected` returns: one record per method with a selected override, route by route and method by method (definition; characterised by the Snapshot lemmas above) |
| Overrides.MethodSnapshotStep | source/overrides.ts:124-133 | scanning one more method of a route appends that method's record, if it has one |
| Overrides.Replay | source/overrides.ts:90-100 | the stored records replayed in order with the selection loop of each; the first failed lookup stops the replay with its error and keeps the flags reached; flag count unchanged |
| Overrides.MergeSelectedOverride | source/overrides.ts:187-201 | a method with no selected override is served unchanged; otherwise each field the selected override carries replaces the method's, and the other fields stay |
| Overrides.ChooseThenServe | source/overrides.ts:187-201 | for a method whose override ids have flag slots, whose entries sharing an id share a name, and whose names are unique: after choosing a name no override has, the method is served unchanged; after choosing an override's name, that override is the one served |
| Overrides.OverrideManager.GetAllSelected | source/overrides.ts:122-138 | the loops return exactly the snapshot of the whole table under the current flags |
| Overrides.OverrideManager.SetSelectedFlags | source/overrides.ts:152-154 | the in-place loop leaves the flags of the selection function on the old flags |
| Overrides.OverrideManager.SelectAndStore | source/overrides.ts:152-156 | after the selection loop on a registered list each listed override is selected exactly when its name matches, every other flag is unchanged, and the store's `"overrides"` entry is the full snapshot |
| Overrides.OverrideManager.ChooseRestClient | source/overrides.ts:147-159 | on a failed lookup: the error, with flags and store unchanged. On success: the echoed `{routePath, methodType, name}`; each listed override selected exactly when its name matches; every other flag unchanged; the store's `"overrides"` entry set to the full snapshot |
| Overrides.OverrideManager.ApplyExternalOverrides | source/overrides.ts:79-102 | no-op unless the store is present, enabled and initialised; an empty store is seeded with the snapshot; otherwise the stored records are replayed in order and the first failed lookup aborts the replay |
| Persistence.SlotOrigin | source/overrides.ts:123-124 | every method the snapshot scans belongs to a table route with the recorded path |
| Persistence.ResolveSlot | source/overrides.ts:91-95 | with unique paths and unique types, a record of an overridable method resolves back to that method's own override list |
| Persistence.ReplayAppend | source/overrides.ts:90-100 | replaying two lists of records in a row is replaying the first and, unless it failed, then the second |
| Persistence.ReplayAbortsAtMissingEntry | source/overrides.ts:93-95 | a record whose route or method is missing stops the replay with that error; earlier records stay applied and later ones are not |
| Persistence.ReplayOne | source/overrides.ts:90-100 | replaying one record whose lookup succeeds runs the selection loop for its name on the override list found |
| Persistence.ReplaySlot | source/overrides.ts:90-100 | replaying the record one method contributes to a snapshot passes and runs that method's selection loop for its selected name, or does nothing when it has none |
| Persistence.ReplayIsRestore | source/overrides.ts:90-100 | replaying the snapshot records of methods whose records resolve back to them passes, leaving the flags of restoring each method's selection in table order |
| Persistence.ChooseKeepsOthers | source/overrides.ts:97-99 | the selection loop for one method leaves the selection of every method with other override objects as it was |
| Persistence.RestoreLast | source/overrides.ts:97-99 | restoring one more method gives it back its selection, keeps the selections restored before it, and touches only its own flags |
| Persistence.RestoreSelections | source/overrides.ts:90-100 | restoring methods with pairwise distinct override objects touches only their flags and leaves each selecting what it selected when the snapshot was taken |
| Persistence.AllResolve | source/overrides.ts:91-95 | with unique paths and unique types, every method's record resolves back to that method's own override list |
| Persistence.ReplayRestoresSelection | source/overrides.ts:79-138 | on a well-formed table (unique paths, unique types ignoring case, no override object shared by two methods), replaying a stored snapshot onto flags under which no method gained a selection succeeds, restores every method's selected name and hence reproduces the same snapshot |
| Persistence.ColdStartReplay | source/overrides.ts:79-138 | on a well-formed table (unique paths, unique types ignoring case, no override object shared by two methods), at a cold start with no flag set, replaying the stored snapshot reproduces it exactly |
| RestUtils.FindOverrideByName | source/rest-manager/utils/index.ts:14-19 | the first override whose name is exactly the given one; none exactly when no override has it |
| RestUtils.GetMethodAttributes | source/rest-manager/utils/index.ts:21-37 | the method's own attributes for an absent, empty or `default` (any case) name; otherwise those of the first override with that exact name, or all absent when none has it |
| RestUtils.IsFunction | source/rest-manager/utils/index.ts:10-12 | an attribute is a function when present and computed per request (definition) |
| RestUtils.ContentOf | source/rest-manager/utils/index.ts:51-55 | the placeholder when `data` or `file` is a function, else truthy inline `data`, else the fixture read at `file` (when non-empty) or the route path, with the scenario (definition; stated by the three lemmas below) |
| RestUtils.DynamicShowsPlaceholder | source/rest-manager/utils/index.ts:51-53 | a function-valued `data` or `file` shows the runtime placeholder |
| RestUtils.InlineDataWins | source/rest-manager/utils/index.ts:55 | truthy inline data is shown as it is, whatever the fixture reader does |
| RestUtils.FixtureFallback | source/rest-manager/utils/index.ts:55 | without truthy inline data the fixture is read at `file` when it is non-empty, else at the route path, with the scenario |
| RestUtils.GetPathMockContent | source/rest-manager/utils/index.ts:39-56 | a missing method fails with method-not-found; otherwise the content of the first method of that type under the resolved attributes |
| RestUtils.UnknownOverrideReadsRouteFixture | source/rest-manager/utils/index.ts:21-56 | an override name no override carries does not fail: the fixture at the route path is read, with no scenario |
| RestUtils.DefaultNameIsNoName | source/rest-manager/utils/index.ts:22 | the empty name and `default` in any letter case preview exactly what no name does |
| RestUtils.PreviewMatchesServedOverride | source/rest-manager/utils/index.ts:21-30 | when the method's override names are unique and the selected override's name is not empty and not `default` in any letter case, previewing it by name shows every field it carries exactly as the serving merge uses it |
| RestUtils.DefaultNamedOverridePreview | source/rest-manager/utils/index.ts:22 | a selected override named `default` in any letter case is served with its own fields, yet previewing it by name shows the method's own attributes |
| RestUtils.UsersPreview | source/rest-manager/admin-rest-manager.spec.ts:115-133 | on the `/users` example, no name shows `['First user']` and `Inactive User` shows `{active: false}` |
| Admin.ErrorResponse | source/rest-manager/admin-rest-manager.ts:31-34 | a failure is status 400 with the error's message as body |
| Admin.GetAllPaths | source/rest-manager/admin-rest-manager.ts:80-82 | exactly the registered routes with a non-empty path |
| Admin.GetAllPathsKeepsOrder | source/rest-manager/admin-rest-manager.ts:80-82 | the listing distributes over concatenation, so it keeps registry order |
| Admin.FirstRoutesFound | source/rest-manager/admin-rest-manager.ts:84-86 | the one-element list a path lookup returns holds the first route with the path |
| Admin.GetRouteByPath | source/rest-manager/admin-rest-manager.ts:84-86 | a one-element list holding a route with that path; fails with route-not-found exactly when no route has it |
| Admin.GetAllRoutes | source/rest-manager/admin-rest-manager.ts:24-36 | without a path (or with an empty one), status 200 with the listing of every route that has a path, in registry order; with a path, status 200 with exactly the first route having it, or a 400 route-not-found when none has it |
| Admin.GetPathMockResponse | source/rest-manager/admin-rest-manager.ts:38-59 | an unknown path is a 400 route-not-found; otherwise the preview of the first route with the path in the whole table, as a 200 or as the preview's 400 |
| Admin.PreviewReachesMoreThanChoice | source/rest-manager/admin-rest-manager.ts:47-51 | a route with no overridable method can be previewed, while choosing an override for it fails with route-not-found |
| Admin.AdminRestManager.UsePathOverride | source/rest-manager/admin-rest-manager.ts:61-78 | status 200 exactly when the override lookup succeeds, and then the echoed record, the new flags and the stored snapshot; otherwise the 400 error with flags and store unchanged |
| Admin.ExampleListing | source/rest-manager/admin-rest-manager.spec.ts:61-111 | on the example table, `/dogs` lists that route alone, an unknown path is a 400, and the full listing keeps both routes in order |
| Admin.ExampleChoiceOnPlainRoute | source/rest-manager/admin-rest-manager.spec.ts:196-205 | on the example table, choosing for an unknown path or for a route without overrides fails with route-not-found |

## Left out

- Express wiring is not modelled: `build`, the router, body parsing and the
  admin path prefix (source/rest-manager/admin-rest-manager.ts:88-98). The
  handlers are modelled as maps from a query or body to a status and a body.
- The interactive `choose()` (source/overrides.ts:164-182) depends on
  terminal prompts. Its flag update and store write are the same as those of
  `chooseRestClient`, which is modelled.
- `getOverridesNames` and `getOverridesNamesWithDefault`
  (source/overrides.ts:32-38) and `getOverridableRoutesMethodsTypesNames`
  (source/overrides.ts:56-60) only build prompt choices for `choose()`.
- `createOverriddenRouteContentMiddleware` (source/overrides.ts:206-217) is
  left out. It calls a user-supplied function on the live request.
- The store's file format and I/O are not modelled. The store is a map from
  keys to record lists, with `enabled`, an initialisation flag and an
  emptiness test.
- `readFixtureSync` reads files. It is the `FixtureReader` parameter of the
  preview, a total function that may return an error.
- The route table's own module is not part of this model. Its lookups are an
  exact path match and a method-type match ignoring case. Each takes the
  first match and fails when nothing matches. The error messages of these
  lookups are worded by the model; only the "has no overrides" message
  follows the source text.
- Routes.FindRouteMethodByType: ignoring case is modelled for ASCII letters
  only; JavaScript's `toLowerCase` also folds other letters.
- RestUtils.UsesMethodDefaults: the `default` comparison is likewise ASCII-only.
- JSON numbers are integers; floating point is not modelled.
- Admin.GetAllRoutes: the listing body is the route values. The `selected`
  flags the server would serialise inside them are not part of the body.
- Admin.GetPathMockResponse: the query's `path` and `type` are always present
  in the model. A request that omits them is not modelled; an omitted
  `overrideName` is.
- Admin.AdminRestManager.UsePathOverride: the request body's fields are always
  present in the model.
- Throttling settings and the `/config` endpoint are left out. They are not in
  the handler code modelled here.
- The listing and content handlers take the table's routes as an argument
  rather than reading them through the manager object.
- Persistence.ReplayRestoresSelection assumes unique route paths, unique
  method types (ignoring case), and no override object shared by two
  methods. Without these a record may resolve to another method's list.
- Persistence.ColdStartReplay rests on the same three assumptions, through
  `WellFormed`.
- RestUtils.PreviewMatchesServedOverride excludes an override named `default`
  in any letter case (or empty), and assumes unique names within the method.
  Such an override can be selected and served, but previewing it by name
  shows the method's own content (RestUtils.DefaultNamedOverridePreview).
- Overrides.MergeSelectedOverride: the spread `{...routeMethod,
  ...selectedOverride}` (source/overrides.ts:193-196) also copies the
  override's `name` and `selected` onto the served method. It also copies any
  key the override holds with the value `undefined`. The model's `Method`
  carries only `data`, `file` and `scenario`, and an absent attribute keeps
  the method's own.
