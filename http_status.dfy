/** The SSL Labs status-code taxonomy of internal/ssllabs/http_status.go. */
module HttpStatus {
  import opened Wrappers

  const StatusOK := 200
  const StatusBadRequest := 400
  const StatusTooManyRequests := 429
  const StatusInternalServerError := 500
  const StatusServiceUnavailable := 503
  const StatusOverloaded := 529

  /** The error kinds the classifier distinguishes; the two fallbacks keep the code. */
  datatype StatusError =
    | InvalidRequest        // 400: invocation error, bad domain or parameters
    | RateLimited           // 429: requests or new assessments too fast
    | InternalServer        // 500
    | Unavailable           // 503: down for maintenance
    | Overloaded            // 529
    | ServerError(code: int)  // any other code >= 500
    | Unexpected(code: int)   // any other code below 500

  /** True for the kinds a server-side fault (a 5xx code) produces. */
  predicate IsServerSide(e: StatusError) {
    e.InternalServer? || e.Unavailable? || e.Overloaded? || e.ServerError?
  }

  /** The status code an error kind stands for. */
  function CodeOf(e: StatusError): int {
    match e
    case InvalidRequest => StatusBadRequest
    case RateLimited => StatusTooManyRequests
    case InternalServer => StatusInternalServerError
    case Unavailable => StatusServiceUnavailable
    case Overloaded => StatusOverloaded
    case ServerError(c) => c
    case Unexpected(c) => c
  }

  /** True for the codes with a case of their own in the switch. */
  predicate IsExplicitCode(code: int) {
    code == StatusOK || code == StatusBadRequest || code == StatusTooManyRequests
    || code == StatusInternalServerError || code == StatusServiceUnavailable
    || code == StatusOverloaded
  }

  /** validateHTTPStatus: Pass is Go's nil error. */
  function ValidateHttpStatus(code: int): (r: Outcome<StatusError>)
    ensures r.Pass? <==> code == StatusOK
    ensures r.Fail? ==> CodeOf(r.error) == code
    ensures r.Fail? ==> (IsServerSide(r.error) <==> code >= 500)
    ensures r.Fail? && (r.error.ServerError? || r.error.Unexpected?) <==> !IsExplicitCode(code)
  {
    if code == StatusOK then Pass
    else if code == StatusBadRequest then Fail(InvalidRequest)
    else if code == StatusTooManyRequests then Fail(RateLimited)
    else if code == StatusInternalServerError then Fail(InternalServer)
    else if code == StatusServiceUnavailable then Fail(Unavailable)
    else if code == StatusOverloaded then Fail(Overloaded)
    else if code >= 500 then Fail(ServerError(code))
    else Fail(Unexpected(code))
  }

  /** Each documented code maps to its own error kind. */
  lemma DocumentedCodes()
    ensures ValidateHttpStatus(400) == Fail(InvalidRequest)
    ensures ValidateHttpStatus(429) == Fail(RateLimited)
    ensures ValidateHttpStatus(500) == Fail(InternalServer)
    ensures ValidateHttpStatus(503) == Fail(Unavailable)
    ensures ValidateHttpStatus(529) == Fail(Overloaded)
  {
  }

  /** Any other 5xx (or higher) code is a generic server error carrying the code. */
  lemma ServerErrorFallback(code: int)
    requires code >= 500 && !IsExplicitCode(code)
    ensures ValidateHttpStatus(code) == Fail(ServerError(code))
  {
  }

  /** Any other code below 500, negative ones included, is "unexpected status". */
  lemma UnexpectedFallback(code: int)
    requires code < 500 && !IsExplicitCode(code)
    ensures ValidateHttpStatus(code) == Fail(Unexpected(code))
  {
  }

  /** The explicit cases beat the >= 500 fallback. */
  lemma ExplicitCasesFirst(code: int)
    requires code == 500 || code == 503 || code == 529
    ensures ValidateHttpStatus(code).Fail? && !ValidateHttpStatus(code).error.ServerError?
  {
  }

  /** No two codes share a classification: the code can always be recovered. */
  lemma {:induction false} ClassificationInjective(a: int, b: int)
    requires ValidateHttpStatus(a) == ValidateHttpStatus(b)
    ensures a == b
  {
    var r := ValidateHttpStatus(a);
    if r.Fail? {
      assert CodeOf(r.error) == a && CodeOf(r.error) == b;
    }
  }
}
