/**
 * `Endpoint`: the request record every endpoint (the router included) is
 * built from, and the four terminal emitters that write the custom
 * headers, the fixed headers and the body. Emitting a response and
 * exiting is modelled as returning the `Response`.
 */
module Endpoints {
  import opened Values
  import opened Strings
  import opened Casts

  /** What the server and `parse_url` give the constructor. */
  datatype ServerInput = ServerInput(
    requestMethod: string,
    serverProtocol: string,
    requestScheme: string,
    requestUri: string,
    urlPath: string,
    urlQuery: Option<string>,
    input: string)

  /** The request record: the endpoint's fields. */
  datatype RequestContext = RequestContext(
    httpMethod: string,
    protocol: string,
    scheme: string,
    uri: string,
    path: string,
    query: string,
    body: Option<string>,
    meta: Dict<Value>,
    customHeaders: seq<string>)

  /** The constructor's field initialisation. */
  function NewContext(server: ServerInput): (ctx: RequestContext)
    ensures ctx.httpMethod == server.requestMethod && ctx.protocol == server.serverProtocol
    ensures ctx.uri == server.requestUri && ctx.path == server.urlPath
    ensures ctx.query == (match server.urlQuery case Some(q) => q case None => "")
    ensures ctx.body.Some? <==> (server.requestMethod == "POST" || server.requestMethod == "PUT")
    ensures ctx.body.Some? ==> ctx.body.value == server.input
    ensures ctx.meta == [] && ctx.customHeaders == []
  {
    RequestContext(
      server.requestMethod,
      server.serverProtocol,
      server.requestScheme,
      server.requestUri,
      server.urlPath,
      match server.urlQuery case Some(q) => q case None => "",
      if server.requestMethod in ["POST", "PUT"] then Some(server.input) else None,
      [],
      [])
  }

  datatype Body = Json(fields: Dict<Value>) | Plain(text: string)

  /** A response: the HTTP status code, the headers in the order they are sent, the body. */
  datatype Response = Response(code: int, headers: seq<string>, body: Body)

  const ContentTypeJson := "Content-Type: application/json"
  const ContentTypeText := "Content-Type: text/plain"
  const AllowOrigin := "Access-Control-Allow-Origin: *"
  const AllowHeaders := "Access-Control-Allow-Headers: *"

  /** The status header `"$protocol $code $msg"`. */
  function StatusLine(protocol: string, code: int, msg: string): string {
    protocol + " " + IntToString(code) + " " + msg
  }

  // ---------------------------------------------------------------------
  // What each emitter sends

  function ErrorBody(ctx: RequestContext, errorCode: int, msg: string, details: Dict<Value>): Dict<Value> {
    Merge(Merge([("status", Int(errorCode)), ("msg", Str(msg))], ctx.meta), details)
  }

  function ErrorResponse(ctx: RequestContext, errorCode: int, msg: string, details: Dict<Value>): Response {
    Response(
      errorCode,
      ctx.customHeaders + [ContentTypeJson, AllowOrigin, StatusLine(ctx.protocol, errorCode, msg)],
      Json(ErrorBody(ctx, errorCode, msg, details)))
  }

  function ResultBody(ctx: RequestContext, data: Dict<Value>, msg: string, queryTime: Value): Dict<Value> {
    Merge(Merge([("status", Int(200)), ("msg", Str(msg)), ("queryTime", queryTime)], ctx.meta), data)
  }

  function ResultResponse(ctx: RequestContext, data: Dict<Value>, msg: string, queryTime: Value): Response {
    Response(
      200,
      ctx.customHeaders + [ContentTypeJson, AllowOrigin, StatusLine(ctx.protocol, 200, "success")],
      Json(ResultBody(ctx, data, msg, queryTime)))
  }

  function PlainTextResponse(ctx: RequestContext, text: string, msg: string): Response {
    Response(
      200,
      ctx.customHeaders + [ContentTypeText, AllowOrigin, StatusLine(ctx.protocol, 200, msg)],
      Plain(text))
  }

  /** The values of an array in order, as `implode` reads them. */
  function DictValues(d: Dict<string>): (vs: seq<string>)
    ensures |vs| == |d| && forall i :: 0 <= i < |d| ==> vs[i] == d[i].1
  {
    seq(|d|, i requires 0 <= i < |d| => d[i].1)
  }

  function OptionsBody(ctx: RequestContext, queryTime: Value): Dict<Value> {
    Merge([("status", Int(200)), ("query_time", queryTime)], ctx.meta)
  }

  function OptionsResponse(ctx: RequestContext, options: Dict<string>, queryTime: Value): Response {
    Response(
      200,
      ctx.customHeaders + [
        AllowOrigin,
        AllowHeaders,
        "Access-Control-Allow-Methods: " + Implode(DictValues(options), ", "),
        ContentTypeJson,
        StatusLine(ctx.protocol, 200, "success")],
      Json(OptionsBody(ctx, queryTime)))
  }

  // ---------------------------------------------------------------------
  // The emitters

  /** The loop every emitter starts with: the stored custom headers, in order. */
  method SendCustomHeaders(ctx: RequestContext) returns (sent: seq<string>)
    ensures sent == ctx.customHeaders
  {
    sent := [];
    for i := 0 to |ctx.customHeaders|
      invariant sent == ctx.customHeaders[..i]
    {
      sent := sent + [ctx.customHeaders[i]];
    }
  }

  /** `throwJsonError($errorCode, $msg, $details)`. */
  method ThrowJsonError(ctx: RequestContext, errorCode: int, msg: string, details: Dict<Value> := []) returns (r: Response)
    ensures r == ErrorResponse(ctx, errorCode, msg, details)
  {
    var headers := SendCustomHeaders(ctx);
    headers := headers + [ContentTypeJson];
    headers := headers + [AllowOrigin];
    headers := headers + [StatusLine(ctx.protocol, errorCode, msg)];
    var body := Merge(Merge([("status", Int(errorCode)), ("msg", Str(msg))], ctx.meta), details);
    r := Response(errorCode, headers, Json(body));
  }

  /** `returnJsonResult($data, $msg)`; the elapsed time is given. */
  method ReturnJsonResult(ctx: RequestContext, data: Dict<Value>, queryTime: Value, msg: string := "success") returns (r: Response)
    ensures r == ResultResponse(ctx, data, msg, queryTime)
  {
    var headers := SendCustomHeaders(ctx);
    headers := headers + [ContentTypeJson];
    headers := headers + [AllowOrigin];
    headers := headers + [StatusLine(ctx.protocol, 200, "success")];
    var body := Merge(Merge([("status", Int(200)), ("msg", Str(msg)), ("queryTime", queryTime)], ctx.meta), data);
    r := Response(200, headers, Json(body));
  }

  /** `returnPlainText($string, $msg)`. */
  method ReturnPlainText(ctx: RequestContext, text: string, msg: string := "success") returns (r: Response)
    ensures r == PlainTextResponse(ctx, text, msg)
  {
    var headers := SendCustomHeaders(ctx);
    headers := headers + [ContentTypeText];
    headers := headers + [AllowOrigin];
    headers := headers + [StatusLine(ctx.protocol, 200, msg)];
    r := Response(200, headers, Plain(text));
  }

  /** `returnOptions($options)`; the elapsed time is given. */
  method ReturnOptions(ctx: RequestContext, options: Dict<string>, queryTime: Value) returns (r: Response)
    ensures r == OptionsResponse(ctx, options, queryTime)
  {
    var headers := SendCustomHeaders(ctx);
    headers := headers + [AllowOrigin];
    headers := headers + [AllowHeaders];
    headers := headers + ["Access-Control-Allow-Methods: " + Implode(DictValues(options), ", ")];
    headers := headers + [ContentTypeJson];
    headers := headers + [StatusLine(ctx.protocol, 200, "success")];
    r := Response(200, headers, Json(Merge([("status", Int(200)), ("query_time", queryTime)], ctx.meta)));
  }

  // ---------------------------------------------------------------------
  // What the responses promise

  /** The value of a key in `array_merge(base, a, b)` where `b` and `a` are proper arrays. */
  lemma Merge3Get(base: Dict<Value>, a: Dict<Value>, b: Dict<Value>, k: string)
    requires Unique(a) && Unique(b)
    ensures Get(Merge(Merge(base, a), b), k) ==
      if Get(b, k).Some? then Get(b, k) else if Get(a, k).Some? then Get(a, k) else Get(base, k)
  {
    MergeGet(Merge(base, a), b, k);
    MergeGet(base, a, k);
  }

  /**
   * The error response: the HTTP code is `errorCode`, the custom headers
   * come first, and each body key takes its value from the details, else
   * from the meta data, else from `{status, msg}`.
   */
  lemma ErrorResponseFacts(ctx: RequestContext, errorCode: int, msg: string, details: Dict<Value>, k: string)
    requires Unique(ctx.meta) && Unique(details)
    ensures var r := ErrorResponse(ctx, errorCode, msg, details);
      && r.code == errorCode
      && r.headers[..|ctx.customHeaders|] == ctx.customHeaders
      && r.headers[|ctx.customHeaders|..] == [ContentTypeJson, AllowOrigin, StatusLine(ctx.protocol, errorCode, msg)]
      && r.body.Json?
      && Get(r.body.fields, k) ==
        if Get(details, k).Some? then Get(details, k)
        else if Get(ctx.meta, k).Some? then Get(ctx.meta, k)
        else if k == "status" then Some(Int(errorCode))
        else if k == "msg" then Some(Str(msg))
        else None
  {
    Merge3Get([("status", Int(errorCode)), ("msg", Str(msg))], ctx.meta, details, k);
  }

  /** Details that override `status` change the body but never the HTTP code. */
  lemma ErrorCodeNotOverridden(ctx: RequestContext, errorCode: int, msg: string, details: Dict<Value>, v: Value)
    requires Unique(ctx.meta) && Unique(details) && Get(details, "status") == Some(v)
    ensures ErrorResponse(ctx, errorCode, msg, details).code == errorCode
    ensures Get(ErrorResponse(ctx, errorCode, msg, details).body.fields, "status") == Some(v)
  {
    ErrorResponseFacts(ctx, errorCode, msg, details, "status");
  }

  /** The body starts with `status` and `msg`, then the other keys of meta and details, each once. */
  lemma ErrorBodyKeys(ctx: RequestContext, errorCode: int, msg: string, details: Dict<Value>)
    ensures |ErrorBody(ctx, errorCode, msg, details)| >= 2
    ensures ErrorBody(ctx, errorCode, msg, details)[0].0 == "status"
    ensures ErrorBody(ctx, errorCode, msg, details)[1].0 == "msg"
    ensures Unique(ErrorBody(ctx, errorCode, msg, details))
  {
    var base: Dict<Value> := [("status", Int(errorCode)), ("msg", Str(msg))];
    MergeKeepsPositions(base, ctx.meta);
    PutAllUnique(base, ctx.meta);
    MergeKeepsPositions(Merge(base, ctx.meta), details);
    PutAllUnique(Merge(base, ctx.meta), details);
  }

  /** The keys the success body always carries. */
  lemma ResultBaseGet(msg: string, queryTime: Value, k: string)
    ensures Get([("status", Int(200)), ("msg", Str(msg)), ("queryTime", queryTime)], k) ==
      if k == "status" then Some(Int(200))
      else if k == "msg" then Some(Str(msg))
      else if k == "queryTime" then Some(queryTime)
      else None
  {
    var base: Dict<Value> := [("status", Int(200)), ("msg", Str(msg)), ("queryTime", queryTime)];
    var tail: Dict<Value> := [("msg", Str(msg)), ("queryTime", queryTime)];
    var last: Dict<Value> := [("queryTime", queryTime)];
    assert base[1..] == tail && tail[1..] == last && last[1..] == [];
    if k != "status" {
      assert Get(base, k) == Get(tail, k);
      if k != "msg" {
        assert Get(tail, k) == Get(last, k);
      }
    }
  }

  /**
   * The success response: status line `200 success` whatever `msg` is,
   * and each body key from the data, else the meta data, else
   * `{status, msg, queryTime}`.
   */
  lemma ResultResponseFacts(ctx: RequestContext, data: Dict<Value>, msg: string, queryTime: Value, k: string)
    requires Unique(ctx.meta) && Unique(data)
    ensures var r := ResultResponse(ctx, data, msg, queryTime);
      && r.code == 200
      && r.headers[..|ctx.customHeaders|] == ctx.customHeaders
      && r.headers[|ctx.customHeaders|..] == [ContentTypeJson, AllowOrigin, StatusLine(ctx.protocol, 200, "success")]
      && r.body.Json?
      && Get(r.body.fields, k) ==
        if Get(data, k).Some? then Get(data, k)
        else if Get(ctx.meta, k).Some? then Get(ctx.meta, k)
        else if k == "status" then Some(Int(200))
        else if k == "msg" then Some(Str(msg))
        else if k == "queryTime" then Some(queryTime)
        else None
  {
    var base: Dict<Value> := [("status", Int(200)), ("msg", Str(msg)), ("queryTime", queryTime)];
    Merge3Get(base, ctx.meta, data, k);
    ResultBaseGet(msg, queryTime, k);
  }

  /** The plain-text response is the text itself, with the message in its status line. */
  lemma PlainTextFacts(ctx: RequestContext, text: string, msg: string)
    ensures var r := PlainTextResponse(ctx, text, msg);
      && r.code == 200 && r.body == Plain(text)
      && r.headers[..|ctx.customHeaders|] == ctx.customHeaders
      && r.headers[|ctx.customHeaders|..] == [ContentTypeText, AllowOrigin, StatusLine(ctx.protocol, 200, msg)]
  {
  }

  /**
   * The options response: the allowed methods joined by ", ", a body
   * with `status` and `query_time` and never `msg`.
   */
  lemma OptionsResponseFacts(ctx: RequestContext, options: Dict<string>, queryTime: Value, k: string)
    requires Unique(ctx.meta)
    ensures var r := OptionsResponse(ctx, options, queryTime);
      && r.code == 200
      && r.headers[..|ctx.customHeaders|] == ctx.customHeaders
      && r.headers[|ctx.customHeaders|..] == [AllowOrigin, AllowHeaders,
           "Access-Control-Allow-Methods: " + Implode(DictValues(options), ", "),
           ContentTypeJson, StatusLine(ctx.protocol, 200, "success")]
      && r.body.Json?
      && Get(r.body.fields, k) ==
        if Get(ctx.meta, k).Some? then Get(ctx.meta, k)
        else if k == "status" then Some(Int(200))
        else if k == "query_time" then Some(queryTime)
        else None
  {
    MergeGet([("status", Int(200)), ("query_time", queryTime)], ctx.meta, k);
  }
}
