/**
 * `ApiException`: the structured failure a handler raises to choose the
 * response code, message and details of its error response.
 */
module ApiExceptions {
  import opened Values

  /**
   * The exception's state: the message and code it hands to the base
   * exception, the previous exception, and its own details array.
   */
  datatype ApiException = ApiException(
    message: string,
    code: int,
    previous: Option<Failure>,
    details: Dict<Value>)

  /** Anything a handler can throw: an `ApiException` or any other throwable. */
  datatype Failure =
    | Api(exception: ApiException)
    | Other(message: string, trace: Value)

  /** `new ApiException(message: ..., code: ..., previous: ..., details: ...)` with the constructor's defaults. */
  function NewApiException(
    message: string := "",
    code: int := 500,
    previous: Option<Failure> := None,
    details: Dict<Value> := []): (e: ApiException)
    ensures e.message == message && e.code == code
    ensures e.previous == previous && e.details == details
  {
    ApiException(message, code, previous, details)
  }

  /** `getMessage()`, inherited from the base exception. */
  function GetMessage(e: ApiException): string { e.message }

  /** `getCode()`, inherited from the base exception. */
  function GetCode(e: ApiException): int { e.code }

  /** `getPrevious()`, inherited from the base exception. */
  function GetPrevious(e: ApiException): Option<Failure> { e.previous }

  /** `getDetails()`. */
  function GetDetails(e: ApiException): Dict<Value> { e.details }

  /** Without arguments the exception has code 500, an empty message and no details. */
  lemma Defaults()
    ensures GetCode(NewApiException()) == 500
    ensures GetMessage(NewApiException()) == ""
    ensures GetDetails(NewApiException()) == []
    ensures GetPrevious(NewApiException()) == None
  {
  }

  /** The getters return exactly what the constructor was given. */
  lemma GettersReturnConstructorArguments(message: string, code: int, previous: Option<Failure>, details: Dict<Value>)
    ensures var e := NewApiException(message, code, previous, details);
      GetMessage(e) == message && GetCode(e) == code && GetPrevious(e) == previous && GetDetails(e) == details
  {
  }
}
