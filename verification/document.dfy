/** `_build_openapi_schema` and `_build_full_schema`: every documented route's path item
    merged into one `paths` mapping, every contributed schema merged into
    `components.schemas`, and the top-level OpenAPI 3.0.3 document around them. */
module Document {
  import opened Wrappers
  import opened Dicts
  import opened Json
  import opened Text
  import opened PathRule
  import opened Routes
  import opened Definitions
  import opened Operation
  import opened Security

  /* ---------------------------------------------------------------- routes */

  /** A route the document shows: not a websocket rule and not hidden. */
  predicate Documented(route: Route) {
    !route.rule.websocket && !route.handler.hidden
  }

  /** The documented routes, in order. */
  function DocumentedRoutes(routes: seq<Route>): (r: seq<Route>)
    ensures |r| <= |routes|
    ensures forall i :: 0 <= i < |r| ==> Documented(r[i])
    ensures forall route :: route in r <==> route in routes && Documented(route)
    decreases |routes|
  {
    if |routes| == 0 then []
    else
      var n := |routes| - 1;
      assert routes == routes[..n] + [routes[n]];
      var prior := DocumentedRoutes(routes[..n]);
      if Documented(routes[n]) then prior + [routes[n]] else prior
  }

  /** Every documented route can be built. */
  predicate AllBuild(lib: Libraries, convert: bool, routes: seq<Route>) {
    forall i :: 0 <= i < |routes| && Documented(routes[i]) ==> BuildPath(lib, convert, routes[i]).Success?
  }

  /** Every documented route builds exactly when those before the last one do and the
      last one does if documented. */
  lemma AllBuildStep(lib: Libraries, convert: bool, routes: seq<Route>)
    requires |routes| > 0
    ensures var n := |routes| - 1;
      AllBuild(lib, convert, routes) <==>
        AllBuild(lib, convert, routes[..n]) && (Documented(routes[n]) ==> BuildPath(lib, convert, routes[n]).Success?)
  {
    AllStep(routes, route => Documented(route) ==> BuildPath(lib, convert, route).Success?);
  }

  /** The path items so far, each a method map, keyed by path. */
  type Paths = Dict<Dict<Json>>

  /** The route loop: skip undocumented routes, merge each built method map into the item
      of its path (created empty on first use), and merge each route's component schemas
      into the registry. The first route that cannot be built stops the loop. */
  function AssemblePaths(lib: Libraries, convert: bool, routes: seq<Route>)
    : (r: Result<(Paths, Dict<Json>), Error>)
    ensures r.Success? <==> AllBuild(lib, convert, routes)
    ensures r.Success? ==> Distinct(r.value.0) && Distinct(r.value.1)
    decreases |routes|
  {
    if |routes| == 0 then Success(([], []))
    else
      var n := |routes| - 1;
      var prior := AssemblePaths(lib, convert, routes[..n]);
      AllBuildStep(lib, convert, routes);
      if prior.Failure? || !Documented(routes[n]) then prior
      else
        var built := BuildPath(lib, convert, routes[n]);
        if built.Failure? then Failure(built.error)
        else Success((MergePath(prior.value.0, built.value.0, built.value.1), Update(prior.value.1, built.value.2)))
  }

  /** `paths[path].update(methods)` on a dict of path items that creates a missing item
      empty: the item of `path` gains the methods, a method already there taking the new
      operation, and every other item is left alone. */
  function MergePath(paths: Paths, path: string, methods: Dict<Json>): (r: Paths)
    ensures Get(r, path) == Some(Update(Get(paths, path).GetOr([]), methods))
    ensures forall p :: p != path ==> Get(r, p) == Get(paths, p)
    ensures Distinct(paths) ==> Distinct(r)
  {
    Set(paths, path, Update(Get(paths, path).GetOr([]), methods))
  }

  /** Undocumented routes change nothing: assembling all routes is assembling the
      documented ones. */
  lemma {:induction false} AssembleDocumentedOnly(lib: Libraries, convert: bool, routes: seq<Route>)
    ensures AssemblePaths(lib, convert, routes) == AssemblePaths(lib, convert, DocumentedRoutes(routes))
    decreases |routes|
  {
    if |routes| > 0 {
      var n := |routes| - 1;
      var prefix := routes[..n];
      AssembleDocumentedOnly(lib, convert, prefix);
      if Documented(routes[n]) {
        var kept := DocumentedRoutes(prefix) + [routes[n]];
        assert DocumentedRoutes(routes) == kept;
        assert kept[..|kept| - 1] == DocumentedRoutes(prefix);
        assert kept[|kept| - 1] == routes[n];
      }
    }
  }

  /** The first documented route that cannot be built decides the error. */
  lemma {:induction false} AssembleFirstFailure(lib: Libraries, convert: bool, routes: seq<Route>)
    requires AssemblePaths(lib, convert, routes).Failure?
    ensures exists i :: && 0 <= i < |routes|
                        && Documented(routes[i])
                        && BuildPath(lib, convert, routes[i]).Failure?
                        && AssemblePaths(lib, convert, routes).error == BuildPath(lib, convert, routes[i]).error
                        && AllBuild(lib, convert, routes[..i])
    decreases |routes|
  {
    var n := |routes| - 1;
    var prefix := routes[..n];
    if AssemblePaths(lib, convert, prefix).Failure? {
      AssembleFailsEarlier(lib, convert, routes);
      AssembleFirstFailure(lib, convert, prefix);
      var i :| && 0 <= i < n
               && Documented(prefix[i])
               && BuildPath(lib, convert, prefix[i]).Failure?
               && AssemblePaths(lib, convert, prefix).error == BuildPath(lib, convert, prefix[i]).error
               && AllBuild(lib, convert, prefix[..i]);
      assert prefix[i] == routes[i];
      assert prefix[..i] == routes[..i];
    } else {
      AssembleFailsLast(lib, convert, routes);
    }
  }

  /** Once the routes before the last one fail, the last one changes nothing. */
  lemma AssembleFailsEarlier(lib: Libraries, convert: bool, routes: seq<Route>)
    requires |routes| > 0
    requires AssemblePaths(lib, convert, routes[..|routes| - 1]).Failure?
    ensures AssemblePaths(lib, convert, routes) == AssemblePaths(lib, convert, routes[..|routes| - 1])
  {
  }

  /** When the routes before the last one assemble and all of them do not, the last one
      is documented and its build error is the result. */
  lemma AssembleFailsLast(lib: Libraries, convert: bool, routes: seq<Route>)
    requires |routes| > 0
    requires AssemblePaths(lib, convert, routes[..|routes| - 1]).Success?
    requires AssemblePaths(lib, convert, routes).Failure?
    ensures var n := |routes| - 1;
      && Documented(routes[n])
      && BuildPath(lib, convert, routes[n]).Failure?
      && AssemblePaths(lib, convert, routes).error == BuildPath(lib, convert, routes[n]).error
      && AllBuild(lib, convert, routes[..n])
  {
  }

  /* ---------------------------------------------------------------- paths */

  /** Some documented route has path `p` once normalised. */
  ghost predicate Mentioned(routes: seq<Route>, p: string) {
    exists i :: 0 <= i < |routes| && Documented(routes[i]) && Normalise(routes[i].rule.rule) == p
  }

  /** The rule lists a method that lower-cases to `m`. */
  ghost predicate Lists(rule: Rule, m: string) {
    exists i :: 0 <= i < |rule.methods| && Listed(rule.methods[i], rule.automaticOptions) && Lower(rule.methods[i]) == m
  }

  /** The operation of the last documented route whose path is `p` and which lists a method
      lower-casing to `m`: later routes win method by method. */
  ghost function LastOperation(lib: Libraries, convert: bool, routes: seq<Route>, p: string, m: string)
    : (r: Option<Json>)
    requires AllBuild(lib, convert, routes)
    ensures r.Some? ==> Mentioned(routes, p)
    decreases |routes|
  {
    if |routes| == 0 then None
    else
      var n := |routes| - 1;
      var route := routes[n];
      assert forall i :: 0 <= i < n ==> routes[..n][i] == routes[i];
      if Documented(route) && Normalise(route.rule.rule) == p && Lists(route.rule, m) then
        Some(BuildOperation(lib, convert, route.handler, route.rule.converters).value.0)
      else
        LastOperation(lib, convert, routes[..n], p, m)
  }

  /** What the path items say about path `p` and method `m`: the item exists exactly when
      some documented route normalises to `p`, and holds under `m` the operation of the
      last such route listing it. */
  ghost predicate PathItemOf(lib: Libraries, convert: bool, routes: seq<Route>, paths: Paths, p: string, m: string)
    requires AllBuild(lib, convert, routes)
  {
    && (p in Keys(paths) <==> Mentioned(routes, p))
    && (p in Keys(paths) ==> Get(Get(paths, p).value, m) == LastOperation(lib, convert, routes, p, m))
  }

  /** One step of the route loop on the path item of `p`. */
  lemma PathsStep(lib: Libraries, convert: bool, routes: seq<Route>, p: string, m: string)
    requires |routes| > 0
    requires AssemblePaths(lib, convert, routes).Success?
    requires AllBuild(lib, convert, routes[..|routes| - 1])
    requires PathItemOf(lib, convert, routes[..|routes| - 1],
                        AssemblePaths(lib, convert, routes[..|routes| - 1]).value.0, p, m)
    ensures PathItemOf(lib, convert, routes, AssemblePaths(lib, convert, routes).value.0, p, m)
  {
    var n := |routes| - 1;
    var route := routes[n];
    MentionedStep(routes, p);
    if Documented(route) && Normalise(route.rule.rule) == p {
      PathsStepSame(lib, convert, routes, p, m);
    } else {
      PathsStepOther(lib, convert, routes, p, m);
    }
  }

  /** The step on any other path: its item is untouched. */
  lemma PathsStepOther(lib: Libraries, convert: bool, routes: seq<Route>, p: string, m: string)
    requires |routes| > 0
    requires AssemblePaths(lib, convert, routes).Success?
    requires !(Documented(routes[|routes| - 1]) && Normalise(routes[|routes| - 1].rule.rule) == p)
    requires AllBuild(lib, convert, routes[..|routes| - 1])
    requires PathItemOf(lib, convert, routes[..|routes| - 1],
                        AssemblePaths(lib, convert, routes[..|routes| - 1]).value.0, p, m)
    ensures var n := |routes| - 1;
      && Get(AssemblePaths(lib, convert, routes).value.0, p) == Get(AssemblePaths(lib, convert, routes[..n]).value.0, p)
      && LastOperation(lib, convert, routes, p, m) == LastOperation(lib, convert, routes[..n], p, m)
  {
    var n := |routes| - 1;
    var route := routes[n];
    var prefix := routes[..n];
    if Documented(route) {
      var built := BuildPath(lib, convert, route).value;
      assert AssemblePaths(lib, convert, routes).value.0
          == MergePath(AssemblePaths(lib, convert, prefix).value.0, built.0, built.1);
    }
  }

  /** A route mentions `p` when its prefix does or its last route does. */
  lemma MentionedStep(routes: seq<Route>, p: string)
    requires |routes| > 0
    ensures var n := |routes| - 1;
      Mentioned(routes, p) <==>
        Mentioned(routes[..n], p) || (Documented(routes[n]) && Normalise(routes[n].rule.rule) == p)
  {
    var n := |routes| - 1;
    assert forall i :: 0 <= i < n ==> routes[..n][i] == routes[i];
    if Mentioned(routes, p) {
      var i :| 0 <= i < |routes| && Documented(routes[i]) && Normalise(routes[i].rule.rule) == p;
      if i < n {
        assert routes[..n][i] == routes[i];
      }
    }
  }

  /** The step on the path the last route normalises to. */
  lemma PathsStepSame(lib: Libraries, convert: bool, routes: seq<Route>, p: string, m: string)
    requires |routes| > 0
    requires AssemblePaths(lib, convert, routes).Success?
    requires Documented(routes[|routes| - 1]) && Normalise(routes[|routes| - 1].rule.rule) == p
    requires AllBuild(lib, convert, routes[..|routes| - 1])
    requires PathItemOf(lib, convert, routes[..|routes| - 1],
                        AssemblePaths(lib, convert, routes[..|routes| - 1]).value.0, p, m)
    ensures var paths := AssemblePaths(lib, convert, routes).value.0;
      && p in Keys(paths)
      && Get(Get(paths, p).value, m) == LastOperation(lib, convert, routes, p, m)
  {
    var n := |routes| - 1;
    var prefix := routes[..n];
    var route := routes[n];
    var paths := AssemblePaths(lib, convert, prefix).value.0;
    var built := BuildPath(lib, convert, route).value;
    BuildPathResult(lib, convert, route);
    var old_ := Get(paths, p).GetOr([]);
    assert built.0 == p;
    assert AssemblePaths(lib, convert, routes).value.0 == MergePath(paths, p, built.1);
    UpdateGet(old_, built.1, m);
    assert m in Keys(built.1) <==> Lists(route.rule, m);
    if !(p in Keys(paths)) {
      assert LastOperation(lib, convert, prefix, p, m) == None;
    }
  }

  /** A path has an item exactly when some documented route normalises to it, and the
      item holds, for each method, the operation of the last such route listing it. */
  lemma {:induction false} AssemblePathsLookup(lib: Libraries, convert: bool, routes: seq<Route>, p: string, m: string)
    requires AssemblePaths(lib, convert, routes).Success?
    ensures PathItemOf(lib, convert, routes, AssemblePaths(lib, convert, routes).value.0, p, m)
    decreases |routes|
  {
    if |routes| > 0 {
      var n := |routes| - 1;
      AllBuildStep(lib, convert, routes);
      AssemblePathsLookup(lib, convert, routes[..n], p, m);
      PathsStep(lib, convert, routes, p, m);
    }
  }

  /* ---------------------------------------------------------------- components */

  /** Everything the documented routes contribute to the registry, route after route and,
      within a route, model after model. */
  ghost function AllComponents(lib: Libraries, convert: bool, routes: seq<Route>): Dict<Json>
    requires AllBuild(lib, convert, routes)
    decreases |routes|
  {
    if |routes| == 0 then []
    else
      var n := |routes| - 1;
      var route := routes[n];
      assert forall i :: 0 <= i < n ==> routes[..n][i] == routes[i];
      var prior := AllComponents(lib, convert, routes[..n]);
      if Documented(route) then
        assert BuildOperation(lib, convert, route.handler, route.rule.converters).Success?;
        prior + AllContributed(lib, OperationUses(convert, route.handler))
      else prior
  }

  /** One step of the route loop on the registry. */
  lemma ComponentsStep(lib: Libraries, convert: bool, routes: seq<Route>, k: string)
    requires |routes| > 0
    requires AssemblePaths(lib, convert, routes).Success?
    requires var prefix := routes[..|routes| - 1];
      && AllBuild(lib, convert, prefix)
      && Get(AssemblePaths(lib, convert, prefix).value.1, k) == LastValue(AllComponents(lib, convert, prefix), k)
    ensures Get(AssemblePaths(lib, convert, routes).value.1, k) == LastValue(AllComponents(lib, convert, routes), k)
  {
    var n := |routes| - 1;
    var prefix := routes[..n];
    var route := routes[n];
    assert forall i :: 0 <= i < n ==> prefix[i] == routes[i];
    if Documented(route) {
      var schemas := AssemblePaths(lib, convert, prefix).value.1;
      var c := AllContributed(lib, OperationUses(convert, route.handler));
      var components := BuildPath(lib, convert, route).value.2;
      BuildPathResult(lib, convert, route);
      assert components == FromPairs(c);
      assert AssemblePaths(lib, convert, routes).value.1 == Update(schemas, components);
      assert AllComponents(lib, convert, routes) == AllComponents(lib, convert, prefix) + c;
      UpdateGet(schemas, components, k);
      FromPairsLast(c, k);
      LastValueConcat(AllComponents(lib, convert, prefix), c, k);
    }
  }

  /** The registry holds, for each schema name, the definition contributed last: a later
      route, or a later model of the same route, wins a name collision. */
  lemma {:induction false} AssembleComponentsLookup(lib: Libraries, convert: bool, routes: seq<Route>, k: string)
    requires AssemblePaths(lib, convert, routes).Success?
    ensures Get(AssemblePaths(lib, convert, routes).value.1, k) == LastValue(AllComponents(lib, convert, routes), k)
    decreases |routes|
  {
    if |routes| > 0 {
      var n := |routes| - 1;
      assert forall i :: 0 <= i < n ==> routes[..n][i] == routes[i];
      AssembleComponentsLookup(lib, convert, routes[..n], k);
      ComponentsStep(lib, convert, routes, k);
    }
  }

  /** The `paths` value of the document: each path item as an object. */
  function PathsObject(paths: Paths): (r: Dict<Json>)
    ensures Keys(r) == Keys(paths)
    ensures forall k :: Get(r, k) == if k in Keys(paths) then Some(Obj(Get(paths, k).value)) else None
    ensures Distinct(paths) ==> Distinct(r)
    decreases |paths|
  {
    if |paths| == 0 then []
    else [(paths[0].0, Obj(paths[0].1))] + PathsObject(paths[1..])
  }

  /* ---------------------------------------------------------------- document */

  /** The extension's settings, each as the mapping its model serialises to. `info` is
      absent until the application sets the default. */
  datatype Config = Config(
    convertCasing: bool,
    info: Option<Json>,
    tags: Option<seq<Json>>,
    servers: Option<seq<Json>>,
    securitySchemes: Option<Dict<SecurityScheme>>,
    security: Option<seq<Json>>,
    externalDocs: Option<Json>)

  /** The info the application sets when none was given: its name, version `0.1.0`. */
  function DefaultInfo(appName: string): (info: Json)
    ensures info.Obj? && Distinct(info.fields)
    ensures Get(info.fields, "title") == Some(Str(appName))
    ensures Get(info.fields, "version") == Some(Str("0.1.0"))
    ensures forall k :: k in Keys(info.fields) ==> k == "title" || k == "version"
  {
    var fields := [("title", Str(appName)), ("version", Str("0.1.0"))];
    DistinctByIndex(fields);
    GetAt(fields, 0);
    GetAt(fields, 1);
    assert forall k :: k in Keys(fields) ==> k == "title" || k == "version" by {
      forall k | k in Keys(fields)
        ensures k == "title" || k == "version"
      {
        InKeys(fields, k);
      }
    }
    Obj(fields)
  }

  /** The info the document shows. */
  function InfoOf(config: Config, appName: string): Json {
    config.info.GetOr(DefaultInfo(appName))
  }

  /** Each security scheme under its name, serialised by `dump` and camelized. */
  function SchemesObject(schemes: Dict<SecurityScheme>, camel: string -> string,
                         dump: SecurityScheme -> Dict<Json>): (r: Dict<Json>)
    ensures Distinct(r)
    ensures forall k :: Get(r, k) == if LastValue(schemes, k).Some?
      then Some(Camelize(Obj(dump(LastValue(schemes, k).value)), camel)) else None
  {
    var pairs := seq(|schemes|, i requires 0 <= i < |schemes| =>
      (schemes[i].0, Camelize(Obj(dump(schemes[i].1)), camel)));
    assert forall k :: Get(FromPairs(pairs), k) == if LastValue(schemes, k).Some?
      then Some(Camelize(Obj(dump(LastValue(schemes, k).value)), camel)) else None by {
      forall k
        ensures Get(FromPairs(pairs), k) == if LastValue(schemes, k).Some?
          then Some(Camelize(Obj(dump(LastValue(schemes, k).value)), camel)) else None
      {
        FromPairsLast(pairs, k);
        LastValueMap(schemes, s => Camelize(Obj(dump(s)), camel), pairs, k);
      }
    }
    FromPairs(pairs)
  }

  /** `components`: the schema registry, and the security schemes when configured. */
  function ComponentsObject(config: Config, camel: string -> string, dump: SecurityScheme -> Dict<Json>,
                            schemas: Dict<Json>): (r: Dict<Json>)
    ensures Distinct(r)
    ensures Get(r, "schemas") == Some(Obj(schemas))
    ensures Get(r, "securitySchemes").Some? <==> config.securitySchemes.Some?
    ensures config.securitySchemes.Some? ==>
      Get(r, "securitySchemes") == Some(Obj(SchemesObject(config.securitySchemes.value, camel, dump)))
    ensures forall k :: k in Keys(r) ==> k == "schemas" || k == "securitySchemes"
  {
    var base := [("schemas", Obj(schemas))];
    assert Get(base, "securitySchemes") == None;
    if config.securitySchemes.Some? then
      Set(base, "securitySchemes", Obj(SchemesObject(config.securitySchemes.value, camel, dump)))
    else base
  }

  /** The top-level keys, in the order they are assigned. */
  const DOCUMENT_KEYS: seq<string> :=
    ["openapi", "info", "components", "paths", "tags", "security", "servers", "externalDocs"]

  lemma DocumentKeysDistinct()
    ensures DistinctKeys(DOCUMENT_KEYS)
  {
    DistinctKeysByIndex(DOCUMENT_KEYS);
  }

  /** The value each of `DOCUMENT_KEYS` is assigned, if any. */
  function DocumentValues(config: Config, appName: string, camel: string -> string,
                          dump: SecurityScheme -> Dict<Json>, paths: Json, schemas: Dict<Json>)
    : (values: seq<Option<Json>>)
    ensures |values| == |DOCUMENT_KEYS|
  {
    [ Some(Str("3.0.3")),
      Some(Camelize(InfoOf(config, appName), camel)),
      Some(Obj(ComponentsObject(config, camel, dump, schemas))),
      Some(paths),
      if config.tags.Some? then Some(Arr(CamelizeAll(config.tags.value, camel))) else None,
      if config.security.Some? then Some(Arr(config.security.value)) else None,
      if config.servers.Some? then Some(Arr(CamelizeAll(config.servers.value, camel))) else None,
      if config.externalDocs.Some? then Some(Camelize(config.externalDocs.value, camel)) else None ]
  }

  /** Each item camelized, in order. */
  function CamelizeAll(items: seq<Json>, camel: string -> string): (r: seq<Json>)
    ensures |r| == |items|
    ensures forall i :: 0 <= i < |items| ==> r[i] == Camelize(items[i], camel)
  {
    seq(|items|, i requires 0 <= i < |items| => Camelize(items[i], camel))
  }

  /** `_build_full_schema`: the document around the assembled paths and schemas. */
  function FullSchema(config: Config, appName: string, camel: string -> string,
                      dump: SecurityScheme -> Dict<Json>, paths: Json, schemas: Dict<Json>): Dict<Json>
  {
    AssignAll([], DOCUMENT_KEYS, DocumentValues(config, appName, camel, dump, paths, schemas))
  }

  /** Each top-level key holds the value assigned to it, if any. */
  lemma DocumentKey(config: Config, appName: string, camel: string -> string,
                    dump: SecurityScheme -> Dict<Json>, paths: Json, schemas: Dict<Json>, i: nat)
    requires i < |DOCUMENT_KEYS|
    ensures Get(FullSchema(config, appName, camel, dump, paths, schemas), DOCUMENT_KEYS[i])
         == DocumentValues(config, appName, camel, dump, paths, schemas)[i]
  {
    var ks := DOCUMENT_KEYS;
    var vs := DocumentValues(config, appName, camel, dump, paths, schemas);
    DocumentKeysDistinct();
    AssignAllGet([], ks, vs, ks[i]);
  }

  /** The document always has `openapi` 3.0.3, the camelized info (the default one when none
      was configured), the components and the paths. */
  lemma FullSchemaLookups(config: Config, appName: string, camel: string -> string,
                          dump: SecurityScheme -> Dict<Json>, paths: Json, schemas: Dict<Json>)
    ensures var doc := FullSchema(config, appName, camel, dump, paths, schemas);
      && Get(doc, "openapi") == Some(Str("3.0.3"))
      && Get(doc, "info") == Some(Camelize(InfoOf(config, appName), camel))
      && Get(doc, "components") == Some(Obj(ComponentsObject(config, camel, dump, schemas)))
      && Get(doc, "paths") == Some(paths)
  {
    DocumentKey(config, appName, camel, dump, paths, schemas, 0);
    DocumentInfo(config, appName, camel, dump, paths, schemas);
    DocumentComponents(config, appName, camel, dump, paths, schemas);
    DocumentPaths(config, appName, camel, dump, paths, schemas);
  }

  lemma DocumentInfo(config: Config, appName: string, camel: string -> string,
                     dump: SecurityScheme -> Dict<Json>, paths: Json, schemas: Dict<Json>)
    ensures Get(FullSchema(config, appName, camel, dump, paths, schemas), "info")
         == Some(Camelize(InfoOf(config, appName), camel))
  {
    DocumentKey(config, appName, camel, dump, paths, schemas, 1);
  }

  lemma DocumentComponents(config: Config, appName: string, camel: string -> string,
                           dump: SecurityScheme -> Dict<Json>, paths: Json, schemas: Dict<Json>)
    ensures Get(FullSchema(config, appName, camel, dump, paths, schemas), "components")
         == Some(Obj(ComponentsObject(config, camel, dump, schemas)))
  {
    DocumentKey(config, appName, camel, dump, paths, schemas, 2);
  }

  lemma DocumentPaths(config: Config, appName: string, camel: string -> string,
                      dump: SecurityScheme -> Dict<Json>, paths: Json, schemas: Dict<Json>)
    ensures Get(FullSchema(config, appName, camel, dump, paths, schemas), "paths") == Some(paths)
  {
    DocumentKey(config, appName, camel, dump, paths, schemas, 3);
  }

  /** `tags`, `security`, `servers` and `externalDocs` appear exactly when configured. */
  lemma FullSchemaOptional(config: Config, appName: string, camel: string -> string,
                           dump: SecurityScheme -> Dict<Json>, paths: Json, schemas: Dict<Json>)
    ensures var doc := FullSchema(config, appName, camel, dump, paths, schemas);
      && Get(doc, "tags") == (if config.tags.Some? then Some(Arr(CamelizeAll(config.tags.value, camel))) else None)
      && Get(doc, "security") == (if config.security.Some? then Some(Arr(config.security.value)) else None)
      && Get(doc, "servers") == (if config.servers.Some? then Some(Arr(CamelizeAll(config.servers.value, camel))) else None)
      && Get(doc, "externalDocs") == (if config.externalDocs.Some? then Some(Camelize(config.externalDocs.value, camel)) else None)
  {
    var doc := FullSchema(config, appName, camel, dump, paths, schemas);
    assert Get(doc, "tags") == (if config.tags.Some? then Some(Arr(CamelizeAll(config.tags.value, camel))) else None) by {
      DocumentKey(config, appName, camel, dump, paths, schemas, 4);
    }
    assert Get(doc, "security") == (if config.security.Some? then Some(Arr(config.security.value)) else None) by {
      DocumentKey(config, appName, camel, dump, paths, schemas, 5);
    }
    assert Get(doc, "servers") == (if config.servers.Some? then Some(Arr(CamelizeAll(config.servers.value, camel))) else None) by {
      DocumentKey(config, appName, camel, dump, paths, schemas, 6);
    }
    assert Get(doc, "externalDocs") == (if config.externalDocs.Some? then Some(Camelize(config.externalDocs.value, camel)) else None) by {
      DocumentKey(config, appName, camel, dump, paths, schemas, 7);
    }
  }

  /** The document has no key beyond `DOCUMENT_KEYS`, and none twice. */
  lemma FullSchemaKeys(config: Config, appName: string, camel: string -> string,
                       dump: SecurityScheme -> Dict<Json>, paths: Json, schemas: Dict<Json>)
    ensures var doc := FullSchema(config, appName, camel, dump, paths, schemas);
      Distinct(doc) && forall k :: k in Keys(doc) ==> k in DOCUMENT_KEYS
  {
    var ks := DOCUMENT_KEYS;
    var vs := DocumentValues(config, appName, camel, dump, paths, schemas);
    var doc := AssignAll([], ks, vs);
    DocumentKeysDistinct();
    forall k | k in Keys(doc)
      ensures k in ks
    {
      AssignAllGet([], ks, vs, k);
    }
  }

  /** `_build_openapi_schema`: assemble the routes, then the document around them. */
  function BuildOpenApi(lib: Libraries, config: Config, appName: string, dump: SecurityScheme -> Dict<Json>,
                        routes: seq<Route>): (r: Result<Json, Error>)
    ensures r.Success? <==> AllBuild(lib, config.convertCasing, routes)
    ensures r.Success? ==> r.value.Obj? && Distinct(r.value.fields)
  {
    var assembled := AssemblePaths(lib, config.convertCasing, routes);
    if assembled.Failure? then Failure(assembled.error)
    else
      var (paths, schemas) := assembled.value;
      var doc := FullSchema(config, appName, lib.camel, dump, Obj(PathsObject(paths)), schemas);
      FullSchemaKeys(config, appName, lib.camel, dump, Obj(PathsObject(paths)), schemas);
      Success(Obj(doc))
  }

  /** The whole document: version 3.0.3; the configured info, camelized, or the default
      one; a path key exactly for each path some documented route normalises to, holding
      under each method the operation of the last such route listing it; a registry holding,
      for each schema name, the definition contributed last; the security schemes exactly
      when configured; the four optional keys exactly when configured; and no other key. */
  lemma OpenApiDocument(lib: Libraries, config: Config, appName: string, dump: SecurityScheme -> Dict<Json>,
                        routes: seq<Route>, p: string, m: string, name: string)
    requires BuildOpenApi(lib, config, appName, dump, routes).Success?
    ensures var doc := BuildOpenApi(lib, config, appName, dump, routes).value.fields;
      && Get(doc, "openapi") == Some(Str("3.0.3"))
      && Get(doc, "info") == Some(Camelize(InfoOf(config, appName), lib.camel))
      && Get(doc, "tags") == (if config.tags.Some? then Some(Arr(CamelizeAll(config.tags.value, lib.camel))) else None)
      && Get(doc, "security") == (if config.security.Some? then Some(Arr(config.security.value)) else None)
      && Get(doc, "servers") == (if config.servers.Some? then Some(Arr(CamelizeAll(config.servers.value, lib.camel))) else None)
      && Get(doc, "externalDocs") == (if config.externalDocs.Some? then Some(Camelize(config.externalDocs.value, lib.camel)) else None)
      && (forall k :: k in Keys(doc) ==> k in DOCUMENT_KEYS)
      && Get(doc, "paths").Some? && Get(doc, "paths").value.Obj?
      && Get(doc, "components").Some? && Get(doc, "components").value.Obj?
      && var paths := Get(doc, "paths").value.fields;
         var components := Get(doc, "components").value.fields;
         && (p in Keys(paths) <==> Mentioned(routes, p))
         && (p in Keys(paths) ==>
               && Get(paths, p).value.Obj?
               && Get(Get(paths, p).value.fields, m) == LastOperation(lib, config.convertCasing, routes, p, m))
         && Get(components, "schemas").Some? && Get(components, "schemas").value.Obj?
         && Get(Get(components, "schemas").value.fields, name)
              == LastValue(AllComponents(lib, config.convertCasing, routes), name)
         && (Get(components, "securitySchemes").Some? <==> config.securitySchemes.Some?)
         && (config.securitySchemes.Some? ==>
               Get(components, "securitySchemes")
                 == Some(Obj(SchemesObject(config.securitySchemes.value, lib.camel, dump))))
         && (forall k :: k in Keys(components) ==> k == "schemas" || k == "securitySchemes")
  {
    var convert := config.convertCasing;
    var (paths, schemas) := AssemblePaths(lib, convert, routes).value;
    FullSchemaLookups(config, appName, lib.camel, dump, Obj(PathsObject(paths)), schemas);
    BuiltDocumentConfigured(lib, config, appName, dump, routes);
    AssemblePathsLookup(lib, convert, routes, p, m);
    assert PathItemOf(lib, convert, routes, paths, p, m);
    AssembleComponentsLookup(lib, convert, routes, name);
  }

  /** The keys of the built document that come from the configuration alone: its info,
      the four optional keys, and no key beyond `DOCUMENT_KEYS`. */
  lemma BuiltDocumentConfigured(lib: Libraries, config: Config, appName: string,
                                dump: SecurityScheme -> Dict<Json>, routes: seq<Route>)
    requires BuildOpenApi(lib, config, appName, dump, routes).Success?
    ensures var doc := BuildOpenApi(lib, config, appName, dump, routes).value.fields;
      && Get(doc, "info") == Some(Camelize(InfoOf(config, appName), lib.camel))
      && Get(doc, "tags") == (if config.tags.Some? then Some(Arr(CamelizeAll(config.tags.value, lib.camel))) else None)
      && Get(doc, "security") == (if config.security.Some? then Some(Arr(config.security.value)) else None)
      && Get(doc, "servers") == (if config.servers.Some? then Some(Arr(CamelizeAll(config.servers.value, lib.camel))) else None)
      && Get(doc, "externalDocs") == (if config.externalDocs.Some? then Some(Camelize(config.externalDocs.value, lib.camel)) else None)
      && (forall k :: k in Keys(doc) ==> k in DOCUMENT_KEYS)
  {
    var (paths, schemas) := AssemblePaths(lib, config.convertCasing, routes).value;
    DocumentInfo(config, appName, lib.camel, dump, Obj(PathsObject(paths)), schemas);
    FullSchemaOptional(config, appName, lib.camel, dump, Obj(PathsObject(paths)), schemas);
    FullSchemaKeys(config, appName, lib.camel, dump, Obj(PathsObject(paths)), schemas);
  }
}
