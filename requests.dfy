/**
 * A route: the HTTP method it answers, its URL pattern, the handler class
 * and method it dispatches to, and the regex string and parameter table
 * derived from the pattern when it is constructed.
 */
module Requests {
  import opened Values
  import opened Strings
  import opened PatternCompiler

  class Request {
    const httpMethod: string
    const pattern: string
    const handlerClass: string
    const handlerMethod: Option<string>
    var regex: string
    var params: Dict<string>

    /** The derived fields are the compiled regex and the parameter table of the pattern. */
    predicate Valid()
      reads this
    {
      regex == CompiledRegex(pattern) && params == ParamTable(pattern)
    }

    /** `new Request($method, $pattern, $handlerClass, $handlerMethod)`. */
    constructor (httpMethod: string, pattern: string, handlerClass: string, handlerMethod: Option<string> := None)
      ensures this.httpMethod == httpMethod && this.pattern == pattern
      ensures this.handlerClass == handlerClass && this.handlerMethod == handlerMethod
      ensures Valid()
    {
      this.httpMethod := httpMethod;
      this.handlerClass := handlerClass;
      this.handlerMethod := handlerMethod;
      this.pattern := pattern;
      this.regex := "uninitialized";
      this.params := [];
      new;
      var compiled := ExtractParams();
      ReplaceAllCompiles(pattern);
      GroupEntriesAreParamEntries(pattern);
    }

    /**
     * `extractParams`: the escaped, delimited, end-anchored regex string;
     * each placeholder's name assigned its datatype in the table; then each
     * placeholder substituted by its named group.
     */
    method ExtractParams() returns (r: string)
      modifies this
      ensures regex == ReplaceAll(EscapedPattern(pattern)) && r == regex
      ensures params == PutAll(old(params), GroupEntries(MatchAllGroup1(EscapedPattern(pattern))))
    {
      regex := "/" + StrReplace(pattern, "/", "\\/") + "$/";
      var groups := MatchAllGroup1(regex);
      for i := 0 to |groups|
        invariant regex == EscapedPattern(pattern)
        invariant params == PutAll(old(params), GroupEntries(groups[..i]))
      {
        var split := Explode(groups[i], "::");
        var name := split[0];
        var kind := if |split| > 1 then split[1] else "string";
        assert GroupEntries(groups[..i + 1])[..i] == GroupEntries(groups[..i]);
        params := Put(params, name, kind);
      }
      assert groups[..|groups|] == groups;
      regex := ReplaceAll(regex);
      r := regex;
    }
  }

  /** `Request::GET($pattern, $handlerClass, $handlerMethod)`. */
  method GET(pattern: string, handlerClass: string, handlerMethod: Option<string> := None) returns (r: Request)
    ensures fresh(r) && r.httpMethod == "GET" && r.pattern == pattern
    ensures r.handlerClass == handlerClass && r.handlerMethod == handlerMethod && r.Valid()
  {
    r := new Request("GET", pattern, handlerClass, handlerMethod);
  }

  /** `Request::POST($pattern, $handlerClass, $handlerMethod)`. */
  method POST(pattern: string, handlerClass: string, handlerMethod: Option<string> := None) returns (r: Request)
    ensures fresh(r) && r.httpMethod == "POST" && r.pattern == pattern
    ensures r.handlerClass == handlerClass && r.handlerMethod == handlerMethod && r.Valid()
  {
    r := new Request("POST", pattern, handlerClass, handlerMethod);
  }

  /** `Request::PUT($pattern, $handlerClass, $handlerMethod)`. */
  method PUT(pattern: string, handlerClass: string, handlerMethod: Option<string> := None) returns (r: Request)
    ensures fresh(r) && r.httpMethod == "PUT" && r.pattern == pattern
    ensures r.handlerClass == handlerClass && r.handlerMethod == handlerMethod && r.Valid()
  {
    r := new Request("PUT", pattern, handlerClass, handlerMethod);
  }
}
