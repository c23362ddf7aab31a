/**
 * `Router::match`: whether one registered route matches the request, and
 * the parameters it then hands to the handler: the declared placeholders
 * cast to their declared types, and the parsed query string under `query`.
 */
module Matching {
  import opened Values
  import opened Strings
  import opened Casts
  import opened ApiExceptions
  import opened Regex
  import opened PatternCompiler
  import opened Requests
  import opened Endpoints
  import opened Query

  /** The state of a registered route, as the router reads it. */
  datatype RouteInfo = RouteInfo(
    httpMethod: string,
    pattern: string,
    regex: string,
    params: Dict<string>,
    handlerClass: string,
    handlerMethod: Option<string>)

  function Info(route: Request): (info: RouteInfo)
    reads route
  {
    RouteInfo(route.httpMethod, route.pattern, route.regex, route.params, route.handlerClass, route.handlerMethod)
  }

  function Infos(routes: seq<Request>): (infos: seq<RouteInfo>)
    reads routes
    ensures |infos| == |routes| && forall i :: 0 <= i < |routes| ==> infos[i] == Info(routes[i])
  {
    if routes == [] then [] else [Info(routes[0])] + Infos(routes[1..])
  }

  /** A route as its constructor leaves it, with a pattern of the supported family. */
  predicate RouteOk(info: RouteInfo) {
    && info.regex == CompiledRegex(info.pattern)
    && info.params == ParamTable(info.pattern)
    && Supported(info.pattern)
  }

  /** Every declared datatype is one `settype` is applied with. */
  predicate KindsOk(table: Dict<string>) {
    forall i :: 0 <= i < |table| ==> table[i].1 == "int" || table[i].1 == "string"
  }

  predicate AllKindsOk(routes: seq<RouteInfo>) {
    forall i :: 0 <= i < |routes| ==> KindsOk(routes[i].params)
  }

  /** The tokens of a well-formed route's regex, and the facts about its table. */
  lemma RouteOkFacts(info: RouteInfo)
    requires RouteOk(info)
    ensures ParseRegex(info.regex) == Some(ToTokens(Segments(info.pattern)))
    ensures KindsOk(info.params) && Unique(info.params)
    ensures Keys(info.params) == Dedup(ParamNames(Segments(info.pattern)))
    ensures CapNames(ToTokens(Segments(info.pattern))) == ParamNames(Segments(info.pattern))
  {
    SupportedParses(info.pattern);
    ParamTableShape(info.pattern);
    var empty: Dict<string> := [];
    PutAllUnique(empty, ParamEntries(Segments(info.pattern)));
    CapNamesOfTokens(Segments(info.pattern));
  }

  // ---------------------------------------------------------------------
  // Matching one route

  /** One parameter after the typing step: null when it did not match, else cast. */
  function TypedValue(rules: CastRules, capture: Option<string>, kind: string): (v: Value)
    requires kind == "int" || kind == "string"
    ensures capture.None? <==> v == Null
    ensures capture.Some? && kind == "string" ==> v == Str(capture.value)
    ensures capture.Some? && kind == "int" ==> v == Int(ToInt(rules, capture.value))
  {
    match capture
    case None => Null
    case Some(s) => SetType(rules, s, kind)
  }

  /** The parameter table with each datatype still in place of its value. */
  function Untyped(table: Dict<string>): (d: Dict<Value>)
    ensures |d| == |table| && forall i :: 0 <= i < |table| ==> d[i] == (table[i].0, Str(table[i].1))
  {
    seq(|table|, i requires 0 <= i < |table| => (table[i].0, Str(table[i].1)))
  }

  /** The parameter table with each datatype replaced by the typed capture of its name. */
  function TypedParams(rules: CastRules, ts: seq<Token>, caps: seq<string>, table: Dict<string>): (d: Dict<Value>)
    requires |caps| == CapCount(ts) && KindsOk(table)
  {
    seq(|table|, i requires 0 <= i < |table| => (table[i].0, TypedValue(rules, CaptureOf(ts, caps, table[i].0), table[i].1)))
  }

  /**
   * What `match` returns for one route: nothing when the method differs
   * (unless the request is OPTIONS) or the path does not match, else the
   * typed parameters with the query array under `query`. A regex outside
   * the supported family is not modelled and reads as no match.
   */
  function MatchSpec(ctx: RequestContext, route: RouteInfo, rules: CastRules): (r: Option<Dict<Value>>)
    requires KindsOk(route.params)
    ensures ctx.httpMethod != route.httpMethod && ctx.httpMethod != "OPTIONS" ==> r.None?
  {
    if ctx.httpMethod != route.httpMethod && ctx.httpMethod != "OPTIONS" then None
    else match ParseRegex(route.regex)
      case None => None
      case Some(ts) =>
        match PregMatch(ts, ctx.path)
        case None => None
        case Some(found) => Some(Put(TypedParams(rules, ts, found.1, route.params), "query", Arr(QueryMap(rules, ctx.query))))
  }

  /** One step of the typing loop: the entry at `i` takes its value, the rest stay. */
  lemma TypingStep(rules: CastRules, ts: seq<Token>, caps: seq<string>, table: Dict<string>, i: nat)
    requires |caps| == CapCount(ts) && KindsOk(table) && Unique(table) && i < |table|
    ensures var typed := TypedParams(rules, ts, caps, table);
      var before := typed[..i] + Untyped(table)[i..];
      && Unique(before) && before[i].0 == table[i].0
      && Put(before, table[i].0, typed[i].1) == typed[..i + 1] + Untyped(table)[i + 1..]
  {
    var typed := TypedParams(rules, ts, caps, table);
    var before := typed[..i] + Untyped(table)[i..];
    assert forall j :: 0 <= j < |before| ==> before[j].0 == table[j].0;
    PutAt(before, i, typed[i].1);
    assert before[i := (before[i].0, typed[i].1)] == typed[..i + 1] + Untyped(table)[i + 1..];
  }

  /**
   * `match($patternDto)`: the method filter, `preg_match` on the path, the
   * typing loop over the declared parameters and the query array.
   */
  method Match(ctx: RequestContext, route: Request, rules: CastRules) returns (r: Option<Dict<Value>>)
    requires route.Valid() && Supported(route.pattern) && '\n' !in ctx.path
    ensures KindsOk(route.params)
    ensures r == MatchSpec(ctx, Info(route), rules)
  {
    RouteOkFacts(Info(route));
    if ctx.httpMethod != route.httpMethod && ctx.httpMethod != "OPTIONS" {
      return None;
    }
    var ts := ParseRegex(route.regex).value;
    var found := PregMatch(ts, ctx.path);
    if found.None? {
      return None;
    }
    var caps := found.value.1;
    var table := route.params;
    ghost var typed := TypedParams(rules, ts, caps, table);
    var params := Untyped(table);
    for i := 0 to |table|
      invariant params == typed[..i] + Untyped(table)[i..]
    {
      var name := table[i].0;
      var capture := CaptureOf(ts, caps, name);
      var value := Null;
      if capture.Some? {
        value := SetType(rules, capture.value, table[i].1);
      }
      TypingStep(rules, ts, caps, table, i);
      params := Put(params, name, value);
    }
    assert params == typed;
    var query := ParseQuery(rules, ctx.query);
    params := Put(params, "query", Arr(query));
    r := Some(params);
  }

  // ---------------------------------------------------------------------
  // What a match promises

  /** The keys of the typed parameters are the declared names, in order. */
  lemma TypedParamsGet(rules: CastRules, ts: seq<Token>, caps: seq<string>, table: Dict<string>, name: string)
    requires |caps| == CapCount(ts) && KindsOk(table) && Unique(table)
    ensures Keys(TypedParams(rules, ts, caps, table)) == Keys(table)
    ensures Unique(TypedParams(rules, ts, caps, table))
    ensures Get(TypedParams(rules, ts, caps, table), name).Some? <==> Get(table, name).Some?
    ensures Get(table, name).Some? ==>
      && (Get(table, name).value == "int" || Get(table, name).value == "string")
      && Get(TypedParams(rules, ts, caps, table), name) == Some(TypedValue(rules, CaptureOf(ts, caps, name), Get(table, name).value))
  {
    var typed := TypedParams(rules, ts, caps, table);
    assert Keys(typed) == Keys(table);
    if name in Keys(table) {
      var i :| 0 <= i < |table| && table[i].0 == name;
      GetAt(table, i);
      GetAt(typed, i);
    }
  }

  /**
   * A route matches exactly when the method filter lets it through and
   * `preg_match` finds the compiled pattern in the path.
   */
  lemma MatchIff(ctx: RequestContext, route: RouteInfo, rules: CastRules)
    requires RouteOk(route)
    ensures KindsOk(route.params)
    ensures MatchSpec(ctx, route, rules).Some? <==>
      (ctx.httpMethod == route.httpMethod || ctx.httpMethod == "OPTIONS")
      && PregMatch(ToTokens(Segments(route.pattern)), ctx.path).Some?
  {
    RouteOkFacts(route);
  }

  /** A match of a well-formed route is the typed table of the leftmost match, plus the query. */
  lemma MatchValue(ctx: RequestContext, route: RouteInfo, rules: CastRules)
    requires RouteOk(route) && KindsOk(route.params) && MatchSpec(ctx, route, rules).Some?
    ensures var ts := ToTokens(Segments(route.pattern));
      && PregMatch(ts, ctx.path).Some?
      && MatchSpec(ctx, route, rules).value ==
        Put(TypedParams(rules, ts, PregMatch(ts, ctx.path).value.1, route.params), "query", Arr(QueryMap(rules, ctx.query)))
  {
    RouteOkFacts(route);
  }

  /** Setting `query` on a typed table. */
  lemma PutQuery(typed: Dict<Value>, table: Dict<string>, q: Value, name: string)
    requires Keys(typed) == Keys(table)
    ensures Keys(Put(typed, "query", q)) == (if "query" in Keys(table) then Keys(table) else Keys(table) + ["query"])
    ensures Get(Put(typed, "query", q), "query") == Some(q)
    ensures name != "query" ==> Get(Put(typed, "query", q), name) == Get(typed, name)
  {
    PutKeys(typed, "query", q);
    PutGet(typed, "query", q, name);
    PutGet(typed, "query", q, "query");
  }

  /** The typed table with `query` set, for any tokens and captures. */
  lemma ResultFacts(rules: CastRules, ts: seq<Token>, caps: seq<string>, table: Dict<string>, q: Value, name: string)
    requires |caps| == CapCount(ts) && KindsOk(table) && Unique(table)
    ensures var result := Put(TypedParams(rules, ts, caps, table), "query", q);
      && Keys(result) == (if "query" in Keys(table) then Keys(table) else Keys(table) + ["query"])
      && Get(result, "query") == Some(q)
      && (name != "query" && Get(table, name).Some? ==>
            && (Get(table, name).value == "int" || Get(table, name).value == "string")
            && Get(result, name) == Some(TypedValue(rules, CaptureOf(ts, caps, name), Get(table, name).value)))
      && (name != "query" && Get(table, name).None? ==> Get(result, name).None?)
  {
    var typed := TypedParams(rules, ts, caps, table);
    TypedParamsGet(rules, ts, caps, table, name);
    PutQuery(typed, table, q, name);
  }

  /**
   * The keys of a match: the declared parameters in table order, then
   * `query` (in place, when a parameter has that name), which holds the
   * query array.
   */
  lemma MatchKeys(ctx: RequestContext, route: RouteInfo, rules: CastRules)
    requires RouteOk(route) && KindsOk(route.params) && MatchSpec(ctx, route, rules).Some?
    ensures var result := MatchSpec(ctx, route, rules).value;
      && Keys(result) == (if "query" in Keys(route.params) then Keys(route.params) else Keys(route.params) + ["query"])
      && Get(result, "query") == Some(Arr(QueryMap(rules, ctx.query)))
  {
    var segs := Segments(route.pattern);
    var ts := ToTokens(segs);
    MatchValue(ctx, route, rules);
    RouteOkFacts(route);
    var caps := PregMatch(ts, ctx.path).value.1;
    ResultFacts(rules, ts, caps, route.params, Arr(QueryMap(rules, ctx.query)), "query");
  }

  /**
   * Each declared parameter other than `query` is its capture cast to its
   * declared type: an integer for `int`, the captured text for `string`.
   */
  lemma MatchParam(ctx: RequestContext, route: RouteInfo, rules: CastRules, name: string)
    requires RouteOk(route) && KindsOk(route.params) && MatchSpec(ctx, route, rules).Some?
    requires name != "query" && name in ParamNames(Segments(route.pattern))
    ensures var ts := ToTokens(Segments(route.pattern));
      && PregMatch(ts, ctx.path).Some?
      && var caps := PregMatch(ts, ctx.path).value.1;
      && CaptureOf(ts, caps, name).Some?
      && Get(route.params, name).Some?
      && (Get(route.params, name).value == "int" || Get(route.params, name).value == "string")
      && Get(MatchSpec(ctx, route, rules).value, name) == Some(SetType(rules, CaptureOf(ts, caps, name).value, Get(route.params, name).value))
  {
    var segs := Segments(route.pattern);
    var ts := ToTokens(segs);
    MatchValue(ctx, route, rules);
    RouteOkFacts(route);
    var caps := PregMatch(ts, ctx.path).value.1;
    DeclaredParam(rules, ts, caps, route.params, ParamNames(segs), Arr(QueryMap(rules, ctx.query)), name);
  }

  lemma DeclaredParam(rules: CastRules, ts: seq<Token>, caps: seq<string>, table: Dict<string>, names: seq<string>, q: Value, name: string)
    requires |caps| == CapCount(ts) && KindsOk(table) && Unique(table)
    requires Keys(table) == Dedup(names) && CapNames(ts) == names
    requires name != "query" && name in names
    ensures CaptureOf(ts, caps, name).Some?
    ensures Get(table, name).Some? && (Get(table, name).value == "int" || Get(table, name).value == "string")
    ensures Get(Put(TypedParams(rules, ts, caps, table), "query", q), name) == Some(SetType(rules, CaptureOf(ts, caps, name).value, Get(table, name).value))
  {
    DedupElements(names);
    ResultFacts(rules, ts, caps, table, q, name);
  }

  /** A match sets no name that is neither declared nor `query`. */
  lemma MatchNoOtherParam(ctx: RequestContext, route: RouteInfo, rules: CastRules, name: string)
    requires RouteOk(route) && KindsOk(route.params) && MatchSpec(ctx, route, rules).Some?
    requires name != "query" && name !in ParamNames(Segments(route.pattern))
    ensures Get(MatchSpec(ctx, route, rules).value, name).None?
  {
    var segs := Segments(route.pattern);
    var ts := ToTokens(segs);
    MatchValue(ctx, route, rules);
    RouteOkFacts(route);
    var caps := PregMatch(ts, ctx.path).value.1;
    DedupElements(ParamNames(segs));
    assert name !in Keys(route.params);
    ResultFacts(rules, ts, caps, route.params, Arr(QueryMap(rules, ctx.query)), name);
  }

  /**
   * A path built by filling the route's placeholders with slash-free
   * values matches, and each declared parameter is its value cast to the
   * declared type.
   */
  lemma MatchFilled(ctx: RequestContext, route: RouteInfo, rules: CastRules, vals: seq<string>, name: string)
    requires RouteOk(route)
    requires Separated(ToTokens(Segments(route.pattern)))
    requires |vals| == CapCount(ToTokens(Segments(route.pattern))) && SlashFree(vals)
    requires ctx.path == Fill(ToTokens(Segments(route.pattern)), vals)
    requires ctx.httpMethod == route.httpMethod
    requires name != "query" && name in ParamNames(Segments(route.pattern))
    ensures KindsOk(route.params) && MatchSpec(ctx, route, rules).Some?
    ensures var ts := ToTokens(Segments(route.pattern));
      && CaptureOf(ts, vals, name).Some?
      && Get(route.params, name).Some?
      && (Get(route.params, name).value == "int" || Get(route.params, name).value == "string")
      && Get(MatchSpec(ctx, route, rules).value, name) == Some(SetType(rules, CaptureOf(ts, vals, name).value, Get(route.params, name).value))
  {
    RouteOkFacts(route);
    PregMatchFilled(ToTokens(Segments(route.pattern)), vals);
    MatchParam(ctx, route, rules, name);
  }
}
