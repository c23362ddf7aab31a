/**
 * `Router`: tries the registered routes against the request, in order, and
 * runs the handler of the first one that matches; answers OPTIONS with the
 * methods whose routes match the path; answers 404 when nothing matches.
 * Emitting a response and exiting is modelled as returning a
 * `RouterResult`.
 */
module Router {
  import opened Values
  import opened Strings
  import opened Casts
  import opened ApiExceptions
  import opened Requests
  import opened Endpoints
  import opened Matching
  import opened PatternCompiler
  import opened Regex

  // ---------------------------------------------------------------------
  // Running a handler

  /** What a handler's constructor or method does. */
  datatype Outcome =
    | Emits(response: Response)   // called one of the emitters, which exit
    | Raises(failure: Failure)    // threw
    | Returns                     // returned normally

  /**
   * A handler class: the names of its methods, and what its constructor
   * and each method do when given the matched parameters.
   */
  datatype HandlerClass = HandlerClass(
    methods: set<string>,
    construct: Dict<Value> -> Outcome,
    call: (string, Dict<Value>) -> Outcome)

  /** The classes that exist, by name. */
  type Registry = map<string, HandlerClass>

  /** How the router ends: with a response, by exiting with none, or by returning without one. */
  datatype RouterResult =
    | Responded(response: Response)
    | Exited
    | Declined

  /** `checkIfClassExists`: the exception it throws, if any. */
  function CheckIfClassExists(reg: Registry, cls: string): (e: Option<ApiException>)
    ensures e.None? <==> cls in reg
    ensures e.Some? ==> e.value == NewApiException("Server Error: Missing class", 500, None, [("class", Str(cls))])
  {
    if cls in reg then None
    else Some(NewApiException(message := "Server Error: Missing class", code := 500, details := [("class", Str(cls))]))
  }

  /** `checkIfMethodExists`: the exception it throws, if any. */
  function CheckIfMethodExists(reg: Registry, cls: string, m: Option<string>): (e: Option<ApiException>)
    ensures e.None? <==> (m.None? || (cls in reg && m.value in reg[cls].methods))
    ensures e.Some? ==> e.value == NewApiException("Server Error: Method '" + m.value + "' not found", 500, None,
      [("class", Str(cls)), ("method", Str(m.value))])
  {
    if m.None? || (cls in reg && m.value in reg[cls].methods) then None
    else Some(NewApiException(message := "Server Error: Method '" + m.value + "' not found", code := 500,
      details := [("class", Str(cls)), ("method", Str(m.value))]))
  }

  /** What the `try` block of `run` ends with. */
  function HandlerOutcome(reg: Registry, cls: string, m: Option<string>, params: Dict<Value>): Outcome {
    match CheckIfClassExists(reg, cls)
    case Some(e) => Raises(Api(e))
    case None =>
      match CheckIfMethodExists(reg, cls, m)
      case Some(e) => Raises(Api(e))
      case None =>
        var constructed := reg[cls].construct(params);
        if constructed.Returns? && m.Some? then reg[cls].call(m.value, params) else constructed
  }

  /** `"$method"`: a null method interpolates as the empty string. */
  function MethodText(m: Option<string>): string {
    match m case Some(name) => name case None => ""
  }

  function MethodValue(m: Option<string>): Value {
    match m case Some(name) => Str(name) case None => Null
  }

  function OtherFailureDetails(cls: string, m: Option<string>, message: string, trace: Value): Dict<Value> {
    [("class", Str(cls)), ("method", MethodValue(m)), ("errorMessage", Str(message)), ("trace", trace)]
  }

  /** `run($match)`: the outcome of the handler, with failures turned into error responses. */
  function RunSpec(ctx: RequestContext, reg: Registry, cls: string, m: Option<string>, params: Dict<Value>): RouterResult {
    match HandlerOutcome(reg, cls, m, params)
    case Emits(response) => Responded(response)
    case Returns => Exited
    case Raises(Api(e)) => Responded(ErrorResponse(ctx, GetCode(e), GetMessage(e), GetDetails(e)))
    case Raises(Other(message, trace)) =>
      Responded(ErrorResponse(ctx, 500, "Server Error: While calling method '" + MethodText(m) + "'",
        OtherFailureDetails(cls, m, message, trace)))
  }

  /** `run($match)`. */
  method Run(ctx: RequestContext, reg: Registry, route: Request, params: Dict<Value>) returns (r: RouterResult)
    ensures r == RunSpec(ctx, reg, route.handlerClass, route.handlerMethod, params)
  {
    var cls := route.handlerClass;
    var m := route.handlerMethod;
    var outcome: Outcome;
    var classError := CheckIfClassExists(reg, cls);
    var methodError := if classError.None? then CheckIfMethodExists(reg, cls, m) else None;
    if classError.Some? {
      outcome := Raises(Api(classError.value));
    } else if methodError.Some? {
      outcome := Raises(Api(methodError.value));
    } else {
      outcome := reg[cls].construct(params);
      if m.Some? && outcome.Returns? {
        outcome := reg[cls].call(m.value, params);
      }
    }
    match outcome {
      case Emits(response) =>
        r := Responded(response);
      case Returns =>
        r := Exited;
      case Raises(Api(e)) =>
        var response := ThrowJsonError(ctx, GetCode(e), GetMessage(e), GetDetails(e));
        r := Responded(response);
      case Raises(Other(message, trace)) =>
        var response := ThrowJsonError(ctx, 500, "Server Error: While calling method '" + MethodText(m) + "'",
          OtherFailureDetails(cls, m, message, trace));
        r := Responded(response);
    }
  }

  // ---------------------------------------------------------------------
  // The router

  /** The result of `match` for each route, in order. */
  function MatchResults(ctx: RequestContext, routes: seq<RouteInfo>, rules: CastRules): (found: seq<Option<Dict<Value>>>)
    requires AllKindsOk(routes)
    ensures |found| == |routes|
  {
    seq(|routes|, i requires 0 <= i < |routes| => MatchSpec(ctx, routes[i], rules))
  }

  /** The `$options` array for the routes whose results are `found`: each matching method, keyed by itself. */
  function OptionsOf(routes: seq<RouteInfo>, found: seq<Option<Dict<Value>>>): Dict<string>
    requires |found| == |routes|
  {
    if routes == [] then []
    else
      var options := OptionsOf(routes[..|routes| - 1], found[..|found| - 1]);
      var last := routes[|routes| - 1];
      if found[|found| - 1].Some? then Put(options, last.httpMethod, last.httpMethod) else options
  }

  /** The methods of the matching routes, in registration order, repeats included. */
  function MethodsOf(routes: seq<RouteInfo>, found: seq<Option<Dict<Value>>>): seq<string>
    requires |found| == |routes|
  {
    if routes == [] then []
    else
      var init := MethodsOf(routes[..|routes| - 1], found[..|found| - 1]);
      if found[|found| - 1].Some? then init + [routes[|routes| - 1].httpMethod] else init
  }

  function AllowedMethods(ctx: RequestContext, routes: seq<RouteInfo>, rules: CastRules): Dict<string>
    requires AllKindsOk(routes)
  {
    OptionsOf(routes, MatchResults(ctx, routes, rules))
  }

  /** The first result that is a match, with its position. */
  function FirstSome<T>(found: seq<Option<T>>): (r: Option<(nat, T)>)
    ensures r.Some? ==> r.value.0 < |found| && found[r.value.0] == Some(r.value.1)
    ensures r.Some? ==> forall j :: 0 <= j < r.value.0 ==> found[j].None?
    ensures r.None? ==> forall j :: 0 <= j < |found| ==> found[j].None?
  {
    if found == [] then None
    else match found[0]
      case Some(x) => Some((0, x))
      case None =>
        match FirstSome(found[1..])
        case None => None
        case Some(later) => Some((later.0 + 1, later.1))
  }

  /** The first route that matches, with its parameters. */
  function FirstMatch(ctx: RequestContext, routes: seq<RouteInfo>, rules: CastRules): Option<(nat, Dict<Value>)>
    requires AllKindsOk(routes)
  {
    FirstSome(MatchResults(ctx, routes, rules))
  }

  function NotFoundDetails(ctx: RequestContext): Dict<Value> {
    [("uri", Str(ctx.uri)), ("path", Str(ctx.path)), ("query", Str(ctx.query))]
  }

  /** The namespace the router keeps: trailing slashes removed. */
  function Namespace(namespace: string): string {
    RTrim(namespace, '/')
  }

  /** What `new Router($namespace, $requestPatterns)` does. */
  function RouterSpec(ctx: RequestContext, namespace: string, routes: seq<RouteInfo>, reg: Registry, rules: CastRules, queryTime: Value): RouterResult
    requires AllKindsOk(routes)
  {
    if !StartsWith(ctx.uri, Namespace(namespace)) then Declined
    else if ctx.httpMethod == "OPTIONS" then Responded(OptionsResponse(ctx, AllowedMethods(ctx, routes, rules), queryTime))
    else match FirstMatch(ctx, routes, rules)
      case Some(found) => RunSpec(ctx, reg, routes[found.0].handlerClass, routes[found.0].handlerMethod, found.1)
      case None => Responded(ErrorResponse(ctx, 404, "Endpoint not found", NotFoundDetails(ctx)))
  }

  /** The first match is at `i` when every earlier result is no match and result `i` is one. */
  lemma {:induction false} FirstSomeAt<T>(found: seq<Option<T>>, i: nat, x: T)
    requires i < |found| && found[i] == Some(x)
    requires forall j :: 0 <= j < i ==> found[j].None?
    ensures FirstSome(found) == Some((i, x))
    decreases i
  {
    if i > 0 {
      FirstSomeAt(found[1..], i - 1, x);
    }
  }

  lemma NoneFirst<T>(found: seq<Option<T>>)
    requires forall j :: 0 <= j < |found| ==> found[j].None?
    ensures FirstSome(found) == None
  {
  }

  /** One step of the first-match scan: no match yet, then the next result decides. */
  lemma FirstSomeNext<T>(found: seq<Option<T>>, i: nat)
    requires i < |found| && FirstSome(found[..i]) == None
    ensures found[i].None? ==> FirstSome(found[..i + 1]) == None
    ensures found[i].Some? ==> FirstSome(found) == Some((i, found[i].value))
  {
    assert forall j :: 0 <= j < i ==> found[..i][j] == found[j];
    if found[i].None? {
      NoneFirst(found[..i + 1]);
    } else {
      FirstSomeAt(found, i, found[i].value);
    }
  }

  /** Registered routes as their constructors leave them, with patterns of the supported family. */
  predicate Registered(routes: seq<Request>)
    reads routes
  {
    forall i :: 0 <= i < |routes| ==> routes[i].Valid() && Supported(routes[i].pattern)
  }

  lemma RegisteredKinds(routes: seq<Request>)
    requires Registered(routes)
    ensures AllKindsOk(Infos(routes))
  {
    var infos := Infos(routes);
    forall i | 0 <= i < |routes| ensures KindsOk(infos[i].params) {
      RouteOkFacts(infos[i]);
    }
  }

  /** The OPTIONS loop of the constructor: the method of every route that matches. */
  method CollectOptions(ctx: RequestContext, routes: seq<Request>, rules: CastRules) returns (options: Dict<string>)
    requires Registered(routes) && '\n' !in ctx.path
    ensures AllKindsOk(Infos(routes))
    ensures options == AllowedMethods(ctx, Infos(routes), rules)
  {
    RegisteredKinds(routes);
    ghost var infos := Infos(routes);
    ghost var results := MatchResults(ctx, infos, rules);
    options := [];
    for i := 0 to |routes|
      invariant options == OptionsOf(infos[..i], results[..i])
    {
      OptionsOfStep(infos, results, i);
      var found := Match(ctx, routes[i], rules);
      assert found == results[i] && infos[i].httpMethod == routes[i].httpMethod;
      if found.Some? {
        options := Put(options, routes[i].httpMethod, routes[i].httpMethod);
      }
    }
    assert infos[..|routes|] == infos && results[..|routes|] == results;
  }

  /** One more route adds its method to the options when it matches. */
  lemma OptionsOfStep(routes: seq<RouteInfo>, found: seq<Option<Dict<Value>>>, i: nat)
    requires |found| == |routes| && i < |routes|
    ensures OptionsOf(routes[..i + 1], found[..i + 1]) ==
      if found[i].Some? then Put(OptionsOf(routes[..i], found[..i]), routes[i].httpMethod, routes[i].httpMethod)
      else OptionsOf(routes[..i], found[..i])
  {
    assert routes[..i + 1][..i] == routes[..i] && found[..i + 1][..i] == found[..i];
  }

  /** The first-match loop of the constructor, up to the route whose handler it runs. */
  method FindFirstMatch(ctx: RequestContext, routes: seq<Request>, rules: CastRules) returns (found: Option<(nat, Dict<Value>)>)
    requires Registered(routes) && '\n' !in ctx.path
    ensures AllKindsOk(Infos(routes))
    ensures found == FirstMatch(ctx, Infos(routes), rules)
  {
    RegisteredKinds(routes);
    ghost var infos := Infos(routes);
    ghost var results := MatchResults(ctx, infos, rules);
    var i := 0;
    found := None;
    while i < |routes|
      invariant 0 <= i <= |routes|
      invariant FirstSome(results[..i]) == None
    {
      var params := Match(ctx, routes[i], rules);
      FirstSomeNext(results, i);
      if params.Some? {
        found := Some((i, params.value));
        break;
      }
      i := i + 1;
    }
    if found.None? {
      assert results[..|routes|] == results;
    }
  }

  /**
   * `new Router($namespace, $requestPatterns)`: the namespace gate, the
   * OPTIONS answer, the handler of the first matching route, or 404.
   * Returns the namespace the router stores and how the request ended.
   */
  method Route(ctx: RequestContext, namespace: string, routes: seq<Request>, reg: Registry, rules: CastRules, queryTime: Value)
    returns (ns: string, r: RouterResult)
    requires Registered(routes) && '\n' !in ctx.path
    ensures AllKindsOk(Infos(routes))
    ensures ns == Namespace(namespace)
    ensures r == RouterSpec(ctx, namespace, Infos(routes), reg, rules, queryTime)
  {
    RegisteredKinds(routes);
    ns := RTrim(namespace, '/');
    if !StartsWith(ctx.uri, ns) {
      return ns, Declined;
    }
    if ctx.httpMethod == "OPTIONS" {
      var options := CollectOptions(ctx, routes, rules);
      var response := ReturnOptions(ctx, options, queryTime);
      OptionsCase(ctx, namespace, Infos(routes), reg, rules, queryTime);
      return ns, Responded(response);
    }
    var found := FindFirstMatch(ctx, routes, rules);
    if found.Some? {
      r := Run(ctx, reg, routes[found.value.0], found.value.1);
      FoundCase(ctx, namespace, Infos(routes), reg, rules, queryTime);
      return;
    }
    var response := ThrowJsonError(ctx, 404, "Endpoint not found", NotFoundDetails(ctx));
    NoMatchCase(ctx, namespace, Infos(routes), reg, rules, queryTime);
    r := Responded(response);
  }

  lemma OptionsCase(ctx: RequestContext, namespace: string, infos: seq<RouteInfo>, reg: Registry, rules: CastRules, queryTime: Value)
    requires AllKindsOk(infos) && StartsWith(ctx.uri, Namespace(namespace)) && ctx.httpMethod == "OPTIONS"
    ensures RouterSpec(ctx, namespace, infos, reg, rules, queryTime) == Responded(OptionsResponse(ctx, AllowedMethods(ctx, infos, rules), queryTime))
  {
  }

  lemma NoMatchCase(ctx: RequestContext, namespace: string, infos: seq<RouteInfo>, reg: Registry, rules: CastRules, queryTime: Value)
    requires AllKindsOk(infos) && StartsWith(ctx.uri, Namespace(namespace)) && ctx.httpMethod != "OPTIONS"
    requires FirstMatch(ctx, infos, rules).None?
    ensures RouterSpec(ctx, namespace, infos, reg, rules, queryTime) == Responded(ErrorResponse(ctx, 404, "Endpoint not found", NotFoundDetails(ctx)))
  {
  }

  /** Past the gate and not OPTIONS, the first match decides. */
  lemma FoundCase(ctx: RequestContext, namespace: string, infos: seq<RouteInfo>, reg: Registry, rules: CastRules, queryTime: Value)
    requires AllKindsOk(infos) && StartsWith(ctx.uri, Namespace(namespace)) && ctx.httpMethod != "OPTIONS"
    requires FirstMatch(ctx, infos, rules).Some?
    ensures var (i, params) := FirstMatch(ctx, infos, rules).value;
      i < |infos| && RouterSpec(ctx, namespace, infos, reg, rules, queryTime) == RunSpec(ctx, reg, infos[i].handlerClass, infos[i].handlerMethod, params)
  {
  }

  // ---------------------------------------------------------------------
  // What the router promises

  /** The namespace is compared without its trailing slashes. */
  lemma TrailingSlashIgnored(namespace: string)
    ensures Namespace(namespace + "/") == Namespace(namespace)
  {
    assert (namespace + "/")[..|namespace|] == namespace;
  }

  /** The router declines (returns without a response) exactly when the URI is outside its namespace. */
  lemma NamespaceGate(ctx: RequestContext, namespace: string, routes: seq<RouteInfo>, reg: Registry, rules: CastRules, queryTime: Value)
    requires AllKindsOk(routes)
    ensures RouterSpec(ctx, namespace, routes, reg, rules, queryTime).Declined? <==> !StartsWith(ctx.uri, Namespace(namespace))
  {
    if StartsWith(ctx.uri, Namespace(namespace)) && ctx.httpMethod != "OPTIONS" {
      var found := FirstMatch(ctx, routes, rules);
      if found.Some? {
        var route := routes[found.value.0];
        RunNeverDeclines(ctx, reg, route.handlerClass, route.handlerMethod, found.value.1);
      }
    }
  }

  lemma RunNeverDeclines(ctx: RequestContext, reg: Registry, cls: string, m: Option<string>, params: Dict<Value>)
    ensures !RunSpec(ctx, reg, cls, m, params).Declined?
  {
  }

  /**
   * An OPTIONS request inside the namespace is always answered with the
   * options response, even when no route matches: no handler runs and
   * there is no 404.
   */
  lemma OptionsAlwaysAnswered(ctx: RequestContext, namespace: string, routes: seq<RouteInfo>, reg: Registry, rules: CastRules, queryTime: Value)
    requires AllKindsOk(routes)
    requires StartsWith(ctx.uri, Namespace(namespace)) && ctx.httpMethod == "OPTIONS"
    ensures var r := RouterSpec(ctx, namespace, routes, reg, rules, queryTime);
      && r.Responded? && r.response.code == 200
      && r.response == OptionsResponse(ctx, AllowedMethods(ctx, routes, rules), queryTime)
  {
  }

  /** The options array holds each matching method once, keyed by itself, in first-match order. */
  lemma {:induction false} OptionsOfShape(routes: seq<RouteInfo>, found: seq<Option<Dict<Value>>>)
    requires |found| == |routes|
    ensures Keys(OptionsOf(routes, found)) == Dedup(MethodsOf(routes, found))
    ensures forall i :: 0 <= i < |OptionsOf(routes, found)| ==> OptionsOf(routes, found)[i].1 == OptionsOf(routes, found)[i].0
    decreases |routes|
  {
    if routes != [] {
      var n := |routes| - 1;
      var options := OptionsOf(routes[..n], found[..n]);
      var methods := MethodsOf(routes[..n], found[..n]);
      OptionsOfShape(routes[..n], found[..n]);
      if found[n].Some? {
        var m := routes[n].httpMethod;
        PutKeys(options, m, m);
        PutValuesSelf(options, m);
        assert (methods + [m])[..|methods + [m]| - 1] == methods;
        DedupElements(methods);
      }
    }
  }

  lemma {:induction false} PutValuesSelf(d: Dict<string>, m: string)
    requires forall i :: 0 <= i < |d| ==> d[i].1 == d[i].0
    ensures forall i :: 0 <= i < |Put(d, m, m)| ==> Put(d, m, m)[i].1 == Put(d, m, m)[i].0
  {
    if d != [] && d[0].0 != m {
      PutValuesSelf(d[1..], m);
    }
  }

  /** A method is listed exactly when some route with that method matches. */
  lemma {:induction false} MethodsOfMembers(routes: seq<RouteInfo>, found: seq<Option<Dict<Value>>>, m: string)
    requires |found| == |routes|
    ensures m in MethodsOf(routes, found) <==> exists i :: 0 <= i < |routes| && found[i].Some? && routes[i].httpMethod == m
    decreases |routes|
  {
    if routes != [] {
      var n := |routes| - 1;
      MethodsOfMembers(routes[..n], found[..n], m);
      if m in MethodsOf(routes[..n], found[..n]) {
        var i :| 0 <= i < n && found[..n][i].Some? && routes[..n][i].httpMethod == m;
        assert found[i].Some? && routes[i].httpMethod == m;
      }
      if exists i :: 0 <= i < |routes| && found[i].Some? && routes[i].httpMethod == m {
        var i :| 0 <= i < |routes| && found[i].Some? && routes[i].httpMethod == m;
        if i < n {
          assert found[..n][i].Some? && routes[..n][i].httpMethod == m;
        }
      }
    }
  }

  /**
   * Under OPTIONS the method filter is bypassed: the allowed methods are
   * those of the routes whose pattern matches the path, each listed once
   * and keyed by itself.
   */
  lemma AllowedMethodsMeaning(ctx: RequestContext, routes: seq<RouteInfo>, rules: CastRules, m: string)
    requires ctx.httpMethod == "OPTIONS"
    requires AllKindsOk(routes) && forall i :: 0 <= i < |routes| ==> RouteOk(routes[i])
    ensures var options := AllowedMethods(ctx, routes, rules);
      && Unique(options)
      && (forall i :: 0 <= i < |options| ==> options[i].1 == options[i].0)
      && (m in Keys(options) <==>
            exists i :: 0 <= i < |routes| && routes[i].httpMethod == m && PregMatch(ToTokens(Segments(routes[i].pattern)), ctx.path).Some?)
  {
    var found := MatchResults(ctx, routes, rules);
    OptionsOfShape(routes, found);
    MethodsOfMembers(routes, found, m);
    DedupElements(MethodsOf(routes, found));
    DedupDistinct(MethodsOf(routes, found));
    UniqueByKeys(OptionsOf(routes, found));
    forall i | 0 <= i < |routes|
      ensures found[i].Some? <==> PregMatch(ToTokens(Segments(routes[i].pattern)), ctx.path).Some?
    {
      MatchIff(ctx, routes[i], rules);
    }
  }

  /** A route-by-route listing of the first-match scan: later routes are never consulted. */
  lemma LaterRoutesIgnored(ctx: RequestContext, namespace: string, routes: seq<RouteInfo>, later: seq<RouteInfo>, reg: Registry, rules: CastRules, queryTime: Value)
    requires AllKindsOk(routes) && AllKindsOk(later) && AllKindsOk(routes + later)
    requires ctx.httpMethod != "OPTIONS" && FirstMatch(ctx, routes, rules).Some?
    ensures RouterSpec(ctx, namespace, routes + later, reg, rules, queryTime) == RouterSpec(ctx, namespace, routes, reg, rules, queryTime)
  {
    var found := MatchResults(ctx, routes, rules);
    var all := MatchResults(ctx, routes + later, rules);
    var first := FirstSome(found).value;
    assert all[first.0] == found[first.0];
    forall j | 0 <= j < first.0 ensures all[j].None? {
      assert all[j] == found[j];
    }
    FirstSomeAt(all, first.0, first.1);
    assert (routes + later)[first.0] == routes[first.0];
  }

  /**
   * A request outside OPTIONS runs the handler of the first route that
   * matches, with that route's parameters.
   */
  lemma FirstMatchRuns(ctx: RequestContext, namespace: string, routes: seq<RouteInfo>, reg: Registry, rules: CastRules, queryTime: Value, i: nat, params: Dict<Value>)
    requires AllKindsOk(routes) && i < |routes|
    requires StartsWith(ctx.uri, Namespace(namespace)) && ctx.httpMethod != "OPTIONS"
    requires forall j :: 0 <= j < i ==> MatchSpec(ctx, routes[j], rules).None?
    requires MatchSpec(ctx, routes[i], rules) == Some(params)
    ensures RouterSpec(ctx, namespace, routes, reg, rules, queryTime) == RunSpec(ctx, reg, routes[i].handlerClass, routes[i].handlerMethod, params)
  {
    var found := MatchResults(ctx, routes, rules);
    FirstSomeAt(found, i, params);
  }

  /** When no route matches, the answer is 404 "Endpoint not found" with the URI, path and query as details. */
  lemma NotFound(ctx: RequestContext, namespace: string, routes: seq<RouteInfo>, reg: Registry, rules: CastRules, queryTime: Value)
    requires AllKindsOk(routes) && Unique(ctx.meta)
    requires StartsWith(ctx.uri, Namespace(namespace)) && ctx.httpMethod != "OPTIONS"
    requires forall j :: 0 <= j < |routes| ==> MatchSpec(ctx, routes[j], rules).None?
    ensures var r := RouterSpec(ctx, namespace, routes, reg, rules, queryTime);
      && r.Responded? && r.response.code == 404
      && r.response == ErrorResponse(ctx, 404, "Endpoint not found", NotFoundDetails(ctx))
      && Get(r.response.body.fields, "uri") == Some(Str(ctx.uri))
      && Get(r.response.body.fields, "path") == Some(Str(ctx.path))
      && Get(r.response.body.fields, "query") == Some(Str(ctx.query))
  {
    var found := MatchResults(ctx, routes, rules);
    NoneFirst(found);
    var details := NotFoundDetails(ctx);
    assert Unique(details);
    NotFoundDetailsGet(ctx);
    ErrorResponseFacts(ctx, 404, "Endpoint not found", details, "uri");
    ErrorResponseFacts(ctx, 404, "Endpoint not found", details, "path");
    ErrorResponseFacts(ctx, 404, "Endpoint not found", details, "query");
  }

  lemma NotFoundDetailsGet(ctx: RequestContext)
    ensures Get(NotFoundDetails(ctx), "uri") == Some(Str(ctx.uri))
    ensures Get(NotFoundDetails(ctx), "path") == Some(Str(ctx.path))
    ensures Get(NotFoundDetails(ctx), "query") == Some(Str(ctx.query))
  {
    var d := NotFoundDetails(ctx);
    assert d[1..][1..] == [("query", Str(ctx.query))];
    assert "query"[0] != "uri"[0] && "query"[0] != "path"[0];
    assert Get(d[1..][1..], "query") == Some(Str(ctx.query));
  }

  // ---------------------------------------------------------------------
  // What `run` promises

  /**
   * The class is checked first: a missing class is a 500 "Server Error:
   * Missing class" naming it, whatever the method.
   */
  lemma MissingClass(ctx: RequestContext, reg: Registry, cls: string, m: Option<string>, params: Dict<Value>)
    requires cls !in reg
    ensures RunSpec(ctx, reg, cls, m, params) == Responded(ErrorResponse(ctx, 500, "Server Error: Missing class", [("class", Str(cls))]))
  {
  }

  /** A named method the class lacks is a 500 naming the class and the method. */
  lemma MissingMethod(ctx: RequestContext, reg: Registry, cls: string, name: string, params: Dict<Value>)
    requires cls in reg && name !in reg[cls].methods
    ensures RunSpec(ctx, reg, cls, Some(name), params) ==
      Responded(ErrorResponse(ctx, 500, "Server Error: Method '" + name + "' not found", [("class", Str(cls)), ("method", Str(name))]))
  {
  }

  /**
   * The handler runs its constructor with the parameters; only a
   * constructor that returns normally is followed by the named method,
   * and without a method name only the constructor runs.
   */
  lemma HandlerOrder(reg: Registry, cls: string, m: Option<string>, params: Dict<Value>)
    requires cls in reg && (m.None? || m.value in reg[cls].methods)
    ensures m.None? ==> HandlerOutcome(reg, cls, m, params) == reg[cls].construct(params)
    ensures m.Some? && !reg[cls].construct(params).Returns? ==> HandlerOutcome(reg, cls, m, params) == reg[cls].construct(params)
    ensures m.Some? && reg[cls].construct(params).Returns? ==> HandlerOutcome(reg, cls, m, params) == reg[cls].call(m.value, params)
  {
  }

  /**
   * The handler's outcome becomes the router's: its own response, an exit
   * with none, its `ApiException`'s code, message and details verbatim, or
   * a 500 naming the class, the method and the failure.
   */
  lemma OutcomeMapping(ctx: RequestContext, reg: Registry, cls: string, m: Option<string>, params: Dict<Value>)
    ensures var r := RunSpec(ctx, reg, cls, m, params);
      match HandlerOutcome(reg, cls, m, params)
      case Emits(response) => r == Responded(response)
      case Returns => r == Exited
      case Raises(Api(e)) => r.Responded? && r.response.code == e.code && r.response == ErrorResponse(ctx, e.code, e.message, e.details)
      case Raises(Other(message, trace)) =>
        && r.Responded? && r.response.code == 500
        && r.response == ErrorResponse(ctx, 500, "Server Error: While calling method '" + MethodText(m) + "'", OtherFailureDetails(cls, m, message, trace))
  {
  }

  /** An `ApiException` built with a code, message and details yields exactly those. */
  lemma ApiExceptionPassesThrough(ctx: RequestContext, reg: Registry, cls: string, m: Option<string>, params: Dict<Value>,
                                  message: string, code: int, previous: Option<Failure>, details: Dict<Value>)
    requires HandlerOutcome(reg, cls, m, params) == Raises(Api(NewApiException(message, code, previous, details)))
    ensures RunSpec(ctx, reg, cls, m, params) == Responded(ErrorResponse(ctx, code, message, details))
  {
    GettersReturnConstructorArguments(message, code, previous, details);
  }

  /** The details of any other failure: class, method (null when there is none), its message and its trace. */
  lemma OtherFailureDetailsGet(cls: string, m: Option<string>, message: string, trace: Value)
    ensures var d := OtherFailureDetails(cls, m, message, trace);
      && Keys(d) == ["class", "method", "errorMessage", "trace"]
      && Get(d, "class") == Some(Str(cls))
      && Get(d, "method") == (if m.Some? then Some(Str(m.value)) else Some(Null))
      && Get(d, "errorMessage") == Some(Str(message))
      && Get(d, "trace") == Some(trace)
  {
    var d := OtherFailureDetails(cls, m, message, trace);
    var rest := d[1..][1..];
    assert rest == [("errorMessage", Str(message)), ("trace", trace)];
    assert "errorMessage"[0] != "class"[0] && "errorMessage"[0] != "method"[0];
    assert "trace"[0] != "class"[0] && "trace"[0] != "method"[0] && "trace"[0] != "errorMessage"[0];
    assert Get(rest, "errorMessage") == Some(Str(message));
    assert Get(rest[1..], "trace") == Some(trace);
    assert Get(rest, "trace") == Some(trace);
    assert Get(d[1..], "trace") == Some(trace);
  }
}
