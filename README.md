# simple-api router core, in Dafny

This project models the routing and dispatch core of the PHP micro-framework
`simple-api`, and proves properties of that model.

- **`Request`** is one registered route. It holds an HTTP method, a URL pattern such as `/items/{id::int}`,
  a handler class and an optional handler method. Its constructor compiles the pattern into a PCRE regex
  string and a parameter table (name to `'int'` or `'string'`).
- **`Router`** is itself an `Endpoint`. Its constructor does the following, in order:
  - it strips the trailing slashes from its namespace and returns silently for a URI outside it;
  - it answers `OPTIONS` with the methods of every route whose pattern matches the path;
  - otherwise it runs the handler of the first route that matches (`match`, then `run`);
  - when no route matches, it answers 404.
- **`run`** checks that the class and the method exist. It then constructs the handler and calls the
  method, and turns an `ApiException` or any other failure into a JSON error response.
- **`Endpoint`** builds the request record and provides the four terminal emitters:
  - a JSON error;
  - a JSON result;
  - plain text;
  - the OPTIONS answer.
- **`ApiException`** carries a code, a message and a details array.

## Layout

| module | file | what it holds |
|---|---|---|
| `Values` | `values.dfy` | PHP values and ordered string-keyed arrays; `$a[$k] = $v` as `Put`, `array_merge` as `Merge` |
| `Strings` | `strings.dfy` | `str_replace`, `explode`, `implode`, `rtrim` |
| `Casts` | `casts.dfy` | `is_numeric`, `(int)` and `settype` for integer-shaped strings; the engine's other behaviour as an abstract `CastRules` record |
| `ApiExceptions` | `api_exception.dfy` | the exception as a datatype with the constructor's defaults |
| `Regex` | `regex.dfy` | the family of regexes a route compiles to, shown below |
| `PatternCompiler` | `pattern_compiler.dfy` | the placeholder recogniser, and the string-level steps of `extractParams` next to a structural reading of the pattern |
| `Requests` | `requests.dfy` | class `Request`, whose constructor runs `ExtractParams`; the `GET`/`POST`/`PUT` factories |
| `Endpoints` | `endpoint.dfy` | the request record, the emitters as methods, and the responses they build as functions |
| `Query` | `query.dfy` | the query-string loop of `match` |
| `Matching` | `match.dfy` | `match` as a method, with the function that specifies it |
| `Router` | `router.dfy` | `run`, the OPTIONS loop, the first-match loop and the constructor as methods, each with its specifying function |

The `Regex` module covers only regexes made of literal text and named groups `(?<name>.*)`, end-anchored by `$`:
- a parser from the regex string back to tokens, proved to invert the renderer;
- `preg_match` for that family: the leftmost start position, then greedy `.*` with backtracking,
  and the match must end at the end of the subject.

Three places where the code does something other than its comments or its documented intent; the model follows the code:
- **The `float` type.** The doc comment of `extractParams` promises a `float` datatype. The recogniser
  `/\{(([a-zA-Z_]*)(?>::int|float)?)}/` never records it. Its alternation reads `::int` or `float`, so
  `{x::float}` does not match at all and stays literal text. A brace group such as `{xfloat}` could be
  read as the run `x` followed by `float`, because the letter run backtracks. But PCRE first tries the
  longer run `xfloat` with nothing after it, and that reading succeeds. So `{xfloat}` is a placeholder
  named `xfloat`, and the recorded datatypes are only `int` and `string`. `PatternCompiler.RecogniserChoice`
  proves this for every match.
- **Query values.** A query value `true` (as in `?verbose=true`) is the string `"true"`. Only a key
  without `=` becomes boolean `true`. Only integer-shaped values are turned into integers exactly.
- **The success status line.** `returnJsonResult` sends the status line `200 success` whatever `msg` is.
  Only the body carries `msg`.

## Model

| member | source | states |
|---|---|---|
| `ApiExceptions.NewApiException` | src/ApiException.php:24-32 | the exception holds exactly the message, code, previous and details it was given |
| `ApiExceptions.Defaults` | src/ApiException.php:24-28 | without arguments: code 500, message "", no previous, empty details |
| `ApiExceptions.GettersReturnConstructorArguments` | src/ApiException.php:31-42 | `getMessage`, `getCode`, `getPrevious` and `getDetails` return the constructor's arguments |
| `Values.PutGet` | src/Router.php:107 | after `$a[$k] = $v`, key `k` reads `v` and every other key reads as before |
| `Values.PutKeys` | src/Request.php:73 | assignment keeps an existing key in place and appends a new key at the end |
| `Values.PutAllGet` | src/Request.php:69-74 | after a sequence of assignments, a key reads its last assigned value, or its old value if never assigned |
| `Values.PutAllKeys` | src/Request.php:69-74 | the keys after a sequence of assignments are the old keys followed by the new ones, each once, in first-occurrence order |
| `Values.PutAllUnique` | src/Request.php:69-74 | assignments never create a duplicate key |
| `Values.Put` | src/Router.php:107 | `$a[$k] = $v` on an ordered string-keyed array; its meaning is stated by `Values.PutGet` and `Values.PutKeys` |
| `Values.PutAll` | src/Request.php:69-74 | a run of such assignments, in order; stated by `Values.PutAllGet`, `Values.PutAllKeys` and `Values.PutAllUnique` |
| `Values.Merge` | src/SimpleApi/Endpoint.php:94 | `array_merge` of two string-keyed arrays; stated by `Values.MergeGet` and `Values.MergeKeepsPositions` |
| `Values.MergeGet` | src/SimpleApi/Endpoint.php:94 | in `array_merge($a, $b)` a key of `b` takes `b`'s value, and any other key keeps `a`'s |
| `Values.MergeKeepsPositions` | src/SimpleApi/Endpoint.php:94 | `array_merge` keeps every key of the first array at its position |
| `Values.DedupElements` | src/Router.php:39 | deduplication keeps exactly the elements that occur |
| `Values.DedupDistinct` | src/Router.php:39 | deduplication leaves no element twice |
| `Strings.ImplodeExplode` | src/Router.php:95-96 | joining the pieces of `explode` with the separator gives back the string |
| `Strings.ExplodeWhole` | src/Router.php:96 | a string without the separator explodes into itself alone |
| `Strings.ExplodeAt` | src/Router.php:96 | the text before the first separator is the first piece, and the rest is exploded on |
| `Strings.ExplodeJoin` | src/Router.php:95 | exploding `a . sep . b` gives the pieces of `a` followed by the pieces of `b` |
| `Strings.StrReplaceAbsent` | src/Router.php:95 | `str_replace` changes nothing in a string that lacks the last character of the searched text |
| `Strings.RTrim` | src/Router.php:29 | `rtrim` keeps a prefix, removes only the trimmed character, and leaves none at the end |
| `Strings.StrReplace` | src/Router.php:95 | `str_replace`, scanning left to right and skipping past each replaced occurrence; stated by `Strings.StrReplaceAbsent` and `Query.EntityReplaced` |
| `Strings.Explode` | src/Router.php:96 | `explode`, which always yields at least one piece; stated by `Strings.ExplodeWhole`, `Strings.ExplodeAt`, `Strings.ExplodeJoin` and `Strings.ImplodeExplode` |
| `Strings.Implode` | src/SimpleApi/Endpoint.php:159 | `implode`, the pieces joined by the separator; `Strings.ImplodeExplode` proves it inverts `explode` |
| `Strings.StartsWith` | src/Router.php:31 | `str_starts_with`: the prefix is at most as long as the string and equals its start; used by `Router.NamespaceGate` |
| `Casts.IntToStringRoundTrip` | src/SimpleApi/Endpoint.php:91 | a status code written in decimal is integer-shaped and reads back as itself |
| `Casts.IsNumeric` | src/Router.php:104 | every integer-shaped string is numeric, and no string without a digit is |
| `Casts.ToIntOfRendered` | src/Router.php:104 | `(int)` of a 64-bit integer's decimal text is that integer |
| `Casts.ToInt` | src/Router.php:104 | `(int)` of a string: exact for integer-shaped text within 64 bits, otherwise the engine's abstract cast; stated by `Casts.ToIntOfRendered` |
| `Casts.SetType` | src/Router.php:90 | `settype` to `string` leaves the text, and to `int` gives an integer |
| `Regex.ParseCompile` | src/Request.php:76 | the regex string of a well-formed token list parses back to exactly that list |
| `Regex.MatchAtComplete` | src/Router.php:81-84 | if the tokens can spell out the rest of the path, matching at that position succeeds |
| `Regex.MatchAtPreferred` | src/Router.php:81-84 | the match found is the one PCRE's backtracking order prefers: at the first group that differs, the longer text |
| `Regex.LongestEnd` | src/Router.php:81 | a greedy `.*` ends at the last position after which the rest matches, and no later one works |
| `Regex.Leftmost` | src/Router.php:81 | the search returns the first start position at which the regex matches, and no earlier one matches |
| `Regex.PregMatchMeaning` | src/Router.php:81-84 | `preg_match` succeeds whenever some start and some group texts spell out the path to its end; it starts no later than any such start, and at the same start it prefers its texts |
| `Regex.PregMatchSound` | src/Router.php:81-84 | whatever `preg_match` returns spells out the path from the match start to its end |
| `Regex.PregMatchFilled` | src/Router.php:81-88 | a path built by substituting slash-free values into a route whose groups are followed by `/` or end it matches from 0 and captures exactly those values |
| `Regex.CaptureOf` | src/Router.php:88 | a group name has a capture exactly when the regex declares that group |
| `Regex.MatchAt` | src/Router.php:81 | PCRE's backtracking match of the tokens at one start position; a result it returns spells out the path from there to its end, with one text per group |
| `Regex.PregMatch` | src/Router.php:81-84 | `preg_match` of the end-anchored regex: the search from position 0; stated by `Regex.PregMatchMeaning`, `Regex.PregMatchSound` and `Regex.Leftmost` |
| `PatternCompiler.PlaceholderSound` | src/Request.php:65 | what the recogniser finds is `{name}` or `{name::int}` at that position, with a name made of letters and `_` |
| `PatternCompiler.RecogniserChoice` | src/Request.php:65 | among all ways the recogniser can match, the one found has the longest name run, and at that run its suffix is the one PCRE tries first; it is never `float` |
| `PatternCompiler.FloatNotRecognised` | src/Request.php:65 | `{x::float}` is not a placeholder |
| `PatternCompiler.DigitNotRecognised` | src/Request.php:65 | a brace group holding a digit, such as `{id1}`, is not a placeholder |
| `PatternCompiler.PlaceholderTextRecognised` | src/Request.php:65 | the text `{name}` or `{name::int}` is recognised as exactly that placeholder |
| `PatternCompiler.PlaceholderAt` | src/Request.php:65 | the recogniser anchored at one position; what it finds lies within the string; stated by `PatternCompiler.PlaceholderSound` and `PatternCompiler.RecogniserChoice` |
| `PatternCompiler.MatchAllGroup1` | src/Request.php:67 | group 1 of `preg_match_all`: the left-to-right, non-overlapping scan; stated by `PatternCompiler.GroupEntriesAreParamEntries` |
| `PatternCompiler.ReplaceAll` | src/Request.php:76 | `preg_replace` by `(?<$2>.*)`, the same scan; stated by `PatternCompiler.ReplaceAllCompiles` |
| `PatternCompiler.ReplaceAllCompiles` | src/Request.php:66-76 | escaping `/`, delimiting, end-anchoring and then `preg_replace` yield the regex of the token form: every placeholder becomes `(?<name>.*)`, nothing else changes |
| `PatternCompiler.GroupEntriesAreParamEntries` | src/Request.php:67-73 | the loop over `preg_match_all`'s group 1 assigns exactly the placeholders' names and datatypes, in order |
| `PatternCompiler.UnparseSegments` | src/Request.php:65-76 | reading the pattern into text and placeholders loses nothing |
| `PatternCompiler.SegmentsNamesValid` | src/Request.php:65 | every placeholder name is made of letters and `_` |
| `PatternCompiler.SegmentsMerged` | src/Request.php:65-76 | the reading never yields an empty text or two texts side by side |
| `PatternCompiler.ParamTableShape` | src/Request.php:69-74 | the table has one key per distinct placeholder name, in first-occurrence order, and every datatype is `int` or `string` |
| `PatternCompiler.ParamTableGet` | src/Request.php:69-73 | a name is in the table exactly when some placeholder has it, and its datatype is its last placeholder's |
| `PatternCompiler.NoPlaceholders` | src/Request.php:66-76 | a pattern without a brace has an empty table, no collected groups, and the escaped pattern as its regex |
| `PatternCompiler.CompiledRegexShape` | src/Request.php:66 | the regex opens with the `/` delimiter and ends with `$/`: anchored at the end, not at the start |
| `PatternCompiler.SupportedWellFormed` | src/Request.php:76 | a pattern without metacharacters and with distinct names compiles to a well-formed token list |
| `PatternCompiler.SupportedParses` | src/Request.php:76 | such a pattern's regex string parses back to its token form |
| `PatternCompiler.TextThenParamTable` | src/Request.php:69-74 | a brace-free text then one placeholder, as in `/items/{id::int}`, declares that one name with its datatype |
| `PatternCompiler.TextThenParamRegex` | src/Request.php:66-76 | such a pattern compiles to the escaped text followed by one named group, then `$/` |
| `Requests.Request.constructor` | src/Request.php:44-53 | the method, pattern, handler class and handler method are stored unchanged, and the regex and table are the compiled pattern's |
| `Requests.Request.ExtractParams` | src/Request.php:63-79 | the regex is the substituted escaped pattern and is returned; the table gets the collected groups' entries assigned in order |
| `Requests.GET` | src/Request.php:89-92 | a fresh route with method "GET" and the arguments stored unchanged |
| `Requests.POST` | src/Request.php:102-105 | a fresh route with method "POST" and the arguments stored unchanged |
| `Requests.PUT` | src/Request.php:115-118 | a fresh route with method "PUT" and the arguments stored unchanged |
| `Endpoints.NewContext` | src/SimpleApi/Endpoint.php:55-69 | the record takes the server's method, protocol, URI and path; a missing query is ""; the body is read exactly for POST and PUT |
| `Endpoints.SendCustomHeaders` | src/SimpleApi/Endpoint.php:86-88 | the headers sent are the stored custom headers, in order |
| `Endpoints.ThrowJsonError` | src/SimpleApi/Endpoint.php:84-97 | the response is the error response of its arguments |
| `Endpoints.ReturnJsonResult` | src/SimpleApi/Endpoint.php:106-123 | the response is the success response of its arguments |
| `Endpoints.ReturnPlainText` | src/SimpleApi/Endpoint.php:132-144 | the response is the plain-text response of its arguments |
| `Endpoints.ReturnOptions` | src/SimpleApi/Endpoint.php:152-169 | the response is the options response of its arguments |
| `Endpoints.ErrorResponse` | src/SimpleApi/Endpoint.php:84-97 | the response `throwJsonError` sends; stated by `Endpoints.ErrorResponseFacts`, `Endpoints.ErrorCodeNotOverridden` and `Endpoints.ErrorBodyKeys` |
| `Endpoints.ResultResponse` | src/SimpleApi/Endpoint.php:106-123 | the response `returnJsonResult` sends; stated by `Endpoints.ResultResponseFacts` |
| `Endpoints.PlainTextResponse` | src/SimpleApi/Endpoint.php:132-144 | the response `returnPlainText` sends; stated by `Endpoints.PlainTextFacts` |
| `Endpoints.OptionsResponse` | src/SimpleApi/Endpoint.php:152-169 | the response `returnOptions` sends; stated by `Endpoints.OptionsResponseFacts` |
| `Endpoints.ErrorResponseFacts` | src/SimpleApi/Endpoint.php:84-97 | code `errorCode`; custom headers, then JSON type, allow-origin and `"<protocol> <code> <msg>"`; each body key from details, else meta, else `{status, msg}` |
| `Endpoints.ErrorCodeNotOverridden` | src/SimpleApi/Endpoint.php:92-94 | details that set `status` change the body but never the HTTP code |
| `Endpoints.ErrorBodyKeys` | src/SimpleApi/Endpoint.php:94 | the error body starts with `status` and `msg`, and has no key twice |
| `Endpoints.ResultResponseFacts` | src/SimpleApi/Endpoint.php:106-123 | code 200; custom headers, then JSON type, allow-origin and `"<protocol> 200 success"` whatever `msg` is; each body key from data, else meta, else `{status: 200, msg, queryTime}` |
| `Endpoints.PlainTextFacts` | src/SimpleApi/Endpoint.php:132-144 | code 200; the body is the text itself; custom headers, then text/plain, allow-origin and `"<protocol> 200 <msg>"` |
| `Endpoints.OptionsResponseFacts` | src/SimpleApi/Endpoint.php:152-169 | code 200; custom headers, then allow-origin, allow-headers, the options joined by ", ", JSON type and `200 success`; each body key from meta, else `{status: 200, query_time}`; no `msg` unless the meta data has one |
| `Query.ParseQuery` | src/Router.php:94-108 | the loop builds exactly the query array of the query string |
| `Query.QueryItems` | src/Router.php:95 | the query string always splits into at least one item |
| `Query.FlagItem` | src/Router.php:102 | an item without `=` sets its key to `true` |
| `Query.ValueItem` | src/Router.php:96-105 | only the text between the first and the second `=` is the value |
| `Query.EmptyValueItem` | src/Router.php:103-104 | `k=` gives the empty string, not a number |
| `Query.EmptyKeyItem` | src/Router.php:97-100 | an item with an empty key assigns nothing |
| `Query.EmptyQuery` | src/Router.php:94-108 | the empty query gives the empty array |
| `Query.QueryMapKeys` | src/Router.php:98-107 | the query array has no empty key and no key twice |
| `Query.QueryMapGet` | src/Router.php:107 | a key assigned by the last item takes that item's value |
| `Query.QueryMapOther` | src/Router.php:107 | items that do not assign a key leave its value alone |
| `Query.ItemEntriesAppend` | src/Router.php:95-108 | the assignments of two runs of items are those of the first, then those of the second |
| `Query.EntityReplaced` | src/Router.php:95 | for every `a` and `b`, replacing `&amp;` in `a . &amp; . b` gives the replaced `a`, then `&`, then the replaced `b`: no occurrence straddles the separator |
| `Query.PlainQueryItems` | src/Router.php:95 | for every `a` and `b`, the items of `a . &amp; . b` are the items of `a` followed by the items of `b`: `&amp;`, which is how `htmlspecialchars` delivers `&`, separates items exactly as `&` does |
| `Query.UnescapedQueryItems` | src/Router.php:95 | a query without `;` holds no `&amp;`, and its items are its `&`-separated pieces |
| `Query.LastItemWins` | src/Router.php:95-107 | whatever query text comes before, a final item `k=v` after `&amp;` maps `k` to the value of `v`: a repeated key keeps the value of its last item |
| `Query.QueryMap` | src/Router.php:94-108 | the query array built from the query string; its properties are stated by `Query.ParseQuery`, `Query.QueryMapKeys`, `Query.QueryMapGet` and `Query.LastItemWins` |
| `Matching.TypedValue` | src/Router.php:88-91 | a missing capture is null; a capture is its text for `string` and its `(int)` for `int` |
| `Matching.RouteOkFacts` | src/Request.php:63-79 | a constructed route's regex parses to its token form; its table has distinct keys, the declared names in order, and only `int`/`string` |
| `Matching.Match` | src/Router.php:73-111 | the method's result is the specified match result of the route |
| `Matching.MatchSpec` | src/Router.php:76-78 | outside OPTIONS, a route of another method never matches, whatever the path |
| `Matching.TypedParamsGet` | src/Router.php:87-92 | typing keeps the table's keys and order; each declared name maps to its typed capture |
| `Matching.TypedParams` | src/Router.php:87-92 | the loop over the table: each name's capture, or null, after `settype`; stated by `Matching.TypedParamsGet` |
| `Matching.MatchIff` | src/Router.php:76-84 | a route matches exactly when the method filter lets it through and `preg_match` finds its regex in the path |
| `Matching.MatchValue` | src/Router.php:81-108 | a match is the typed table of the leftmost match, with the query array under `query` |
| `Matching.MatchKeys` | src/Router.php:87-94 | a match has the declared names in table order, then `query` (in place when declared), which holds the query array |
| `Matching.MatchParam` | src/Router.php:87-92 | each declared parameter other than `query` is its capture after `settype` with its declared datatype |
| `Matching.MatchNoOtherParam` | src/Router.php:87-94 | a match sets no name that is neither declared nor `query` |
| `Matching.MatchFilled` | src/Router.php:73-111 | a path made by filling a route's placeholders with slash-free values matches a request of that method, and each declared parameter is its value after `settype` |
| `Router.CheckIfClassExists` | src/Router.php:162-171 | throws exactly when the class is missing: 500 "Server Error: Missing class" with details {class} |
| `Router.CheckIfMethodExists` | src/Router.php:181-190 | throws exactly when a non-null method is missing: 500 "Server Error: Method '<m>' not found" with details {class, method} |
| `Router.HandlerOutcome` | src/Router.php:124-131 | the class check, the method check, the constructor and the method call, in that order; stated by `Router.MissingClass`, `Router.MissingMethod` and `Router.HandlerOrder` |
| `Router.RunSpec` | src/Router.php:119-153 | what `run` does with each outcome; stated by `Router.OutcomeMapping`, `Router.RunNeverDeclines` and `Router.ApiExceptionPassesThrough` |
| `Router.Run` | src/Router.php:119-153 | the method's result is the specified `run` outcome |
| `Router.CollectOptions` | src/Router.php:34-41 | the loop's options array is that of the routes whose match succeeds |
| `Router.AllowedMethods` | src/Router.php:34-41 | the options array of the OPTIONS loop; stated by `Router.OptionsOfShape`, `Router.MethodsOfMembers` and `Router.AllowedMethodsMeaning` |
| `Router.FindFirstMatch` | src/Router.php:47-52 | the loop stops at the first route that matches, with its parameters, or finds none |
| `Router.FirstMatch` | src/Router.php:47-52 | the first route whose match succeeds, with its parameters; stated by `Router.FirstSome`, `Router.LaterRoutesIgnored` and `Router.FirstMatchRuns` |
| `Router.Route` | src/Router.php:25-64 | the namespace kept is the trimmed one, and the result is the specified router outcome |
| `Router.Namespace` | src/Router.php:29 | the namespace with its trailing slashes removed; stated by `Strings.RTrim` and `Router.TrailingSlashIgnored` |
| `Router.RouterSpec` | src/Router.php:25-64 | the namespace gate, then OPTIONS, then the first match, then 404; stated by `Router.NamespaceGate`, `Router.OptionsAlwaysAnswered`, `Router.FirstMatchRuns` and `Router.NotFound` |
| `Router.FirstSome` | src/Router.php:47-52 | the match found is at the first position holding a match, and every earlier result is none |
| `Router.TrailingSlashIgnored` | src/Router.php:29 | a trailing `/` on the namespace makes no difference |
| `Router.NamespaceGate` | src/Router.php:29-31 | the router returns without a response exactly when the URI does not start with the trimmed namespace |
| `Router.RunNeverDeclines` | src/Router.php:119-153 | `run` never returns to the router: it responds or exits |
| `Router.OptionsAlwaysAnswered` | src/Router.php:34-44 | an OPTIONS request in the namespace always gets the options response, even with no match: no handler runs, no 404 |
| `Router.OptionsOfShape` | src/Router.php:35-40 | the options array holds each method of a matching route once, keyed by itself, in first-match order |
| `Router.MethodsOfMembers` | src/Router.php:36-40 | a method is listed exactly when some route of that method matches |
| `Router.AllowedMethodsMeaning` | src/Router.php:34-78 | under OPTIONS the method filter is bypassed: a method is allowed exactly when a route of that method has a pattern that matches the path |
| `Router.LaterRoutesIgnored` | src/Router.php:47-52 | once a route matches, appending routes after it changes nothing |
| `Router.FirstMatchRuns` | src/Router.php:47-52 | outside OPTIONS, the handler of the first matching route runs, with that route's parameters |
| `Router.NotFound` | src/Router.php:55-63 | when no route matches: 404 "Endpoint not found" with details exactly {uri, path, query} |
| `Router.MissingClass` | src/Router.php:126-171 | the class is checked first: a missing class gives the missing-class error, whatever the method |
| `Router.MissingMethod` | src/Router.php:127-190 | a missing named method gives 500 naming the class and the method |
| `Router.HandlerOrder` | src/Router.php:128-131 | the constructor runs first; the method runs only after a constructor that returns, and a null method runs only the constructor |
| `Router.OutcomeMapping` | src/Router.php:124-152 | a handler's response is the router's; a normal return exits with none; an `ApiException` gives its own code, message and details; any other failure gives 500 "Server Error: While calling method '<m>'" |
| `Router.ApiExceptionPassesThrough` | src/Router.php:133-138 | an `ApiException` built with a code, message and details yields exactly those in the error response |
| `Router.OtherFailureDetailsGet` | src/Router.php:140-149 | the details of another failure are class, method (null when there is none), the error message and the trace |

## Left out

- **Environment reading.** `filter_input`, `htmlspecialchars`, `parse_url` and `php://input` in the `Endpoint` constructor are I/O. Their results are the `ServerInput` record given to `NewContext`.
- **Timing.** `microtime` and `round` for `queryTime`/`query_time` are floating point. The elapsed time is an opaque `Value` parameter.
- **Output plumbing.** `header`, `http_response_code`, `print`, `json_encode` and `exit` are output. Each emitter returns a `Response`, and the router a `RouterResult`; the JSON text itself is not produced.
- **Reflection.** `class_exists`, `method_exists`, the dynamic `new` and the dynamic method call are reflection. They are replaced by a `Registry` of handler classes and their outcomes; handler logic is opaque.
- **Case of class and method names.** PHP compares class and method names without regard to case, so `class_exists('myhandler')` finds `MyHandler`. The `Registry` lookup compares names exactly. A route whose handler names differ from the declared ones only in case is read as a missing class or method.
- **The `setup` hook.** The hook of the `Endpoint` constructor is a call into subclasses, so it is not modelled.
- **Stack traces.** `getTrace` is an opaque value.
- **Values.Merge: integer keys.** The model gives every array string keys. The fixed parts of the response bodies are string-keyed. But the handler-supplied `data` of `returnJsonResult`, the `details` of an `ApiException` and the `meta` array may be lists with integer keys. For such keys `array_merge` renumbers them and appends their values instead of overwriting. That case is not modelled.
- **Matching.Match: no in-place update.** It returns a fresh array instead of writing into the route's `params` field. A route object listed twice, after a match changed its table, is not captured; every request ends right after a match.
- **Matching.Match: restricted patterns.** It requires a supported pattern: literal text without regex metacharacters other than `/`, and nonempty, distinct placeholder names of at most 32 characters. The 32-character bound is the limit of PCRE2 releases before 10.44. Later releases accept longer names, so the bound is conservative. It also requires a path without a newline. Other regexes (including the invalid `(?<>.*)` of `{::int}`) and PCRE's handling of `$` and `.` around newlines are outside the modelled family, and `MatchSpec` reads them as no match.
- **Router.Route, Router.CollectOptions, Router.FindFirstMatch.** These carry the same restriction on the routes and the path as `Match`.
- **Router.Route: loop restructured.** The first-match loop is modelled as the search for the first matching route followed by `run`. This is equivalent because `run` never returns to the loop.
- **Casts.IsNumeric, Casts.ToInt.** Only integer-shaped strings are exact: an optional sign and decimal digits, within 64 bits. Decimals, exponents, whitespace and leading-number reading belong to the abstract `CastRules`.
- **Casts.SetType: no float.** Float coercion is not modelled, because the recogniser never records `float`.
