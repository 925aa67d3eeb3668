# TLS checker core — a Dafny model

This project models the core of a Go command-line TLS checker that drives the
SSL Labs assessment API:

- **the status classifier** (`validateHTTPStatus`): an HTTP status code becomes
  success (only 200) or one of seven error kinds — invalid request (400), rate
  limited (429), internal server error (500), unavailable (503), overloaded (529),
  a generic server error carrying any other code ≥ 500, and "unexpected status"
  carrying any other code;
- **the domain validator** (`ValidateDomain`): reject the empty string, reject
  anything containing `://`, otherwise require the pattern
  `^(?:[a-zA-Z0-9-]+\.)+[a-zA-Z]{2,}$`;
- **the assessment client** (`check`, `analyze`) and **the analysis poller**
  (`RunAnalysis`): an availability check, one start request with
  `startNew=on`, then at most `maxAttempts` polls that stop on `READY`, on
  `ERROR` or on any error, with a 15-second pause after every other status,
  and a timeout when the attempts run out;
- **the legacy single-file program** `main.go`: its own copies of the
  classifier, the validator and the request builder, a `check` that ignores
  the status code, and a polling loop with no attempt bound.

Files and modules:

| file | module | models |
|---|---|---|
| `wrappers.dfy` | `Wrappers` | `Outcome` (Go's `error`), `Result` (Go's `(*T, error)`), `Option` |
| `http_status.dfy` | `HttpStatus` | `internal/ssllabs/http_status.go` |
| `domain.dfy` | `Domain` | `internal/validator/domain.go` |
| `models.dfy` | `Models` | `internal/ssllabs/models.go` |
| `network.dfy` | `Network` | the HTTP transport, JSON decoding and `time.Sleep`, as the class `Oracle` |
| `requests.dfy` | `Requests` | what `check`, `analyze` and `RunAnalysis` compute, as functions |
| `client.dfy` | `SslLabs` | the class `Client` of `internal/ssllabs/client.go` and `analyzer.go` |
| `legacy.dfy` | `Legacy` | `main.go` |

**The network is a scripted oracle.** `Network.Oracle` holds a sequence of
replies; every GET consumes exactly one. A reply is a transport failure or a
status code together with the outcome of decoding its body (a decoded
`Response`, or undecodable). Once the script is exhausted every further GET
fails as if the server were unreachable. A ghost trace of events
(`Requested(url)`, `Slept(seconds)`) records every request and every pause in
order. Call counts, "no further calls", the URL of every request and the
placement of every sleep are therefore stated exactly.

**Specification functions, imperative methods.** `Requests` gives, for a base
URL, a domain and a script, the result, the events and the remaining script of
each operation (`CheckSpec`, `AnalyzeSpec`, `PollSpec`, `RunSpec`). The class
`SslLabs.Client` performs the same operations step by step on an `Oracle`.
Each method is proved to produce exactly that result, that trace and that
remaining script. The properties of the source are proved as lemmas about the
functions. The polling loop of `RunAnalysis` sits in its own method,
`Client.Poll`. Its loop invariant says that the k rounds so far were all
answered non-terminally, that the oracle has consumed exactly k replies, and
that the trace has grown by k poll-and-sleep pairs. On exit, `PollDecidedAt`
or `PollTimesOut` turns that into the equation with `PollSpec`. `Legacy.Run`
and `Legacy.Poll` do the same for `main.go`, through `PollLoopDecidedAt`.

**The pattern is specified by its language.** `Domain.InPattern` holds when
the string is some non-empty list of `[A-Za-z0-9-]+` labels, each followed by
a dot, then a final label of two or more ASCII letters. `Domain.MatchesPattern`
decides it by splitting at the last dot, and `MatchesPatternIff` proves the two
equal.

`baseURL` is a constructor parameter of `Client`. The Go source declares it
`const` (`internal/ssllabs/client.go:11`), but `internal/ssllabs/analyzer_test.go:31`
assigns it. `main.go` keeps its own fixed `Legacy.BaseUrl`.

Behaviour of the code that is easy to misread:

- After the last non-terminal poll the code still sleeps before returning the
  timeout (`internal/ssllabs/analyzer.go:41`). The pause is not skipped after the
  final attempt.
- The package's `check` and `analyze` accept exactly status 200. Every other 2xx code is
  "unexpected status" (`internal/ssllabs/http_status.go:24-41`).
- The domain is inserted into the query string verbatim, with no URL encoding
  (`internal/ssllabs/client.go:46`).
- The response carries only `Host`, `Status` and `Endpoints`. Each endpoint has
  `IPAddress`, `StatusMessage` and `Grade`. No certificate, duration or port
  fields are declared (`internal/ssllabs/models.go:7-21`).

## Model

| member | source | states |
|---|---|---|
| `HttpStatus.ValidateHttpStatus` | internal/ssllabs/http_status.go:24-42 | success exactly for 200; every error kind gives back the code it came from; the kind is server-side exactly for codes ≥ 500; a fallback kind exactly for codes without their own case |
| `HttpStatus.DocumentedCodes` | internal/ssllabs/http_status.go:27-36 | 400, 429, 500, 503 and 529 map to invalid request, rate limited, internal server error, unavailable and overloaded |
| `HttpStatus.ServerErrorFallback` | internal/ssllabs/http_status.go:38-39 | any other code ≥ 500 is a generic server error carrying the code |
| `HttpStatus.UnexpectedFallback` | internal/ssllabs/http_status.go:41 | any other code below 500, negative ones included, is "unexpected status" carrying the code |
| `HttpStatus.ExplicitCasesFirst` | internal/ssllabs/http_status.go:31-39 | 500, 503 and 529 never yield the generic server error |
| `HttpStatus.ClassificationInjective` | internal/ssllabs/http_status.go:24-42 | two codes with the same classification are the same code |
| `HttpStatus.StatusError` | internal/ssllabs/http_status.go:27-41 | the errors of the switch: one per documented code, then the server-error and unexpected-status fallbacks carrying the code; a datatype with no contract |
| `Domain.ValidateDomain` | internal/validator/domain.go:9-27 | the empty string, and only it, gets the "empty" error; a non-empty string gets the scheme error exactly when it contains `://`; an accepted string matches the pattern |
| `Domain.DomainError` | internal/validator/domain.go:11-23 | the three errors of the validator: empty, scheme, invalid format; a datatype with no contract |
| `Domain.InPattern` | internal/validator/domain.go:20 | the language of `^(?:[a-zA-Z0-9-]+\.)+[a-zA-Z]{2,}$`: one or more labels each followed by a dot, then two or more letters; every member has at least three characters and ends in two letters (its meaning is tied to the code by `MatchesPatternIff`) |
| `Domain.MatchesPattern` | internal/validator/domain.go:20-22 | the executable match, by the last dot; a matching string has at least four characters, starts with a label character and ends in a letter (`MatchesPatternIff` proves it equal to `InPattern`) |
| `Domain.MatchesPatternIff` | internal/validator/domain.go:20-24 | splitting at the last dot decides exactly the language of the pattern |
| `Domain.ValidateDomainAccepts` | internal/validator/domain.go:9-27 | a string is accepted if and only if it lies in the pattern's language |
| `Domain.SchemeNeverMatches` | internal/validator/domain.go:15-24 | a string containing `://` never matches the pattern, so the scheme check only chooses the error reported |
| `Domain.AcceptedCharset` | internal/validator/domain.go:20 | every character of an accepted string is a letter, a digit, `-` or `.` |
| `Domain.AcceptedShape` | internal/validator/domain.go:20 | an accepted string contains a dot, neither starts nor ends with one, and has no empty label |
| `Domain.AcceptedFinalLabel` | internal/validator/domain.go:20 | after the last dot of an accepted string come two or more letters, with no digit and no hyphen |
| `Domain.AcceptsOneLabel` | internal/validator/domain.go:20 | a label, a dot and a final label of two or more letters are accepted |
| `Domain.AcceptsTwoLabels` | internal/validator/domain.go:20 | two labels each followed by a dot, then a final label, are accepted |
| `Domain.AcceptedVectors` | internal/validator/domain_test.go:6-16 | `example.com`, `www.example.com` and `sub.domain.co` are accepted |
| `Domain.RejectedSchemeVectors` | internal/validator/domain_test.go:21-23 | the empty string gets the "empty" error; `http://example.com` and `https://example.com` get the scheme error |
| `Domain.RejectedFormatVectors` | internal/validator/domain_test.go:24-27 | `example`, `example.`, `.com` and `exa_mple.com` get the format error |
| `Network.Oracle.Get` | internal/ssllabs/client.go:31 | one GET consumes exactly the next reply (a transport failure once the script is exhausted) and logs its URL |
| `Network.Oracle.Sleep` | internal/ssllabs/analyzer.go:41 | a pause is logged and consumes no reply |
| `Requests.InfoUrl` | internal/ssllabs/client.go:31 | the info URL starts with the base and ends in `/info` |
| `Requests.AnalyzeUrl` | internal/ssllabs/client.go:46-49 | the analyze URL starts with `base + "/analyze?host=" + domain` and ends in `&startNew=on` exactly when a new analysis is asked for, otherwise in `&all=done` (`UrlRoundTrip` shows nothing is lost) |
| `Requests.UrlRoundTrip` | internal/ssllabs/client.go:46-49 | the domain and the startNew flag can be read back from the analyze URL: the domain goes in verbatim and nothing is lost |
| `Requests.StartUrlExtendsPollUrl` | internal/ssllabs/client.go:46-49 | the start URL is the poll URL `base + "/analyze?host=" + domain + "&all=done"` followed by exactly `&startNew=on` |
| `Requests.InfoUrlDistinct` | internal/ssllabs/client.go:31 | the info URL is never an analyze URL |
| `Requests.CheckSpec` | internal/ssllabs/client.go:30-38 | one request to the info URL; success exactly when the reply is not a transport failure and its status is 200; otherwise the transport error or the classifier's error |
| `Requests.ClientError` | internal/ssllabs/client.go:53-65 | the errors of the client: the transport error, a status error carrying its classification, the decode error; and those of RunAnalysis (analyzer.go:12, 37, 44): the connect error carrying its cause, the analysis-failed error and the timeout; a datatype with no contract |
| `Requests.AnalyzeSpec` | internal/ssllabs/client.go:45-68 | one request to the analyze URL; success exactly for a 200 reply whose body decodes, returning that response; a transport failure gives the transport error, as `Get`'s own error is returned (client.go:53-55); a non-200 status gives the classifier's error; a 200 reply whose body does not decode gives the decode error (client.go:63-65); every error is one of these three |
| `Requests.AnalyzeIgnoresBodyOnBadStatus` | internal/ssllabs/client.go:58-60 | with a non-200 status the body is never looked at |
| `Requests.Verdict` | internal/ssllabs/analyzer.go:27-37 | a reply that ends the loop gives success exactly when it is a decoded 200 reply with status READY, and then the response itself; a decoded 200 reply with status ERROR gives the analysis-failed error (analyzer.go:36-37); a failed call gives the call's own error as it is (analyzer.go:27-29): the transport error, the classifier's error for a non-200 status, the decode error for an undecodable 200 body |
| `Requests.PollSpec` | internal/ssllabs/analyzer.go:22-44 | the polling loop: a success is always a READY response, no error is a connect error, and the loop produces at most two events per attempt (its exact behaviour is given by `PollTimesOut`, `PollDecidedAt` and `PollBounds`) |
| `Requests.PollTimesOut` | internal/ssllabs/analyzer.go:22-44 | if the first attempts are all answered 200 with a non-terminal status, the loop times out after exactly max(attempts, 0) polls, each followed by one 15-second sleep |
| `Requests.PollDecidedAt` | internal/ssllabs/analyzer.go:22-41 | the first reply within the attempts that is an error, READY or ERROR ends the loop with `Verdict` of that reply (whose contract fixes it as the READY response, the analysis-failed error or the call's own error) after that poll, with no sleep after it and no further request |
| `Requests.PollBounds` | internal/ssllabs/analyzer.go:22-44 | never more polls than attempts; on timeout one sleep per poll, otherwise one sleep fewer than polls; every request of the loop is the poll URL |
| `Requests.RunSpec` | internal/ssllabs/analyzer.go:8-45 | the whole analysis: the first request is always the info URL, a success is always a READY response, and at most two events more than twice the attempts are produced (its cases are given by `RunConnectFailure`, `RunStartFailure`, `RunPolls` and `RunNoAttempts`) |
| `Requests.RunConnectFailure` | internal/ssllabs/analyzer.go:11-13 | a failed availability check returns a connect error wrapping the check's error, after the info request alone |
| `Requests.RunStartFailure` | internal/ssllabs/analyzer.go:16-19 | a failed start call returns its error after the info and start requests, before any poll |
| `Requests.RunPolls` | internal/ssllabs/analyzer.go:16-44 | once check and start succeed the run is the polling loop on the replies that follow |
| `Requests.RunIgnoresStartStatus` | internal/ssllabs/analyzer.go:16 | the status of a successful start reply does not change the run |
| `Requests.RunNoAttempts` | internal/ssllabs/analyzer.go:22-44 | with maxAttempts ≤ 0 no poll is made and the run times out |
| `Requests.RunTimeoutAgainstInProgressServer` | internal/ssllabs/analyzer_test.go:13-39 | against a server that always answers IN_PROGRESS, three attempts time out after the check, the start and exactly three polls, each followed by a sleep |
| `SslLabs.Client.Check` | internal/ssllabs/client.go:30-38 | result, requests and consumed replies are exactly those of `CheckSpec` |
| `SslLabs.Client.Analyze` | internal/ssllabs/client.go:45-68 | result, requests and consumed replies are exactly those of `AnalyzeSpec` |
| `SslLabs.Client.RunAnalysis` | internal/ssllabs/analyzer.go:8-45 | result, events and consumed replies are exactly those of `RunSpec` |
| `SslLabs.Client.Poll` | internal/ssllabs/analyzer.go:21-44 | the loop's result, events and consumed replies are exactly those of `PollSpec` |
| `Legacy.ValidateHttpStatus` | main.go:85-115 | main.go's own classifier: success exactly for 200, and every failure carries back its code (`StatusCopyAgrees` proves it equal to the package one) |
| `Legacy.ValidateDomain` | main.go:117-135 | main.go's own validator: the empty string and only it gets the empty error, and an accepted string matches the pattern (`DomainCopyAgrees` proves it equal to the package one) |
| `Legacy.AnalyzeUrl` | main.go:57-60 | main.go's URL starts with the fixed base, `/analyze?host=` and the domain (`UrlCopyAgrees` proves it equal to the package URL over that base) |
| `Legacy.StatusCopyAgrees` | main.go:85-115 | the copied classifier agrees with the package one on every code |
| `Legacy.DomainCopyAgrees` | main.go:117-135 | the copied validator agrees with the package one on every string and accepts exactly the pattern's language |
| `Legacy.UrlCopyAgrees` | main.go:56-60 | the copied URL builder gives the package URL over the fixed base, domain and flag recoverable |
| `Legacy.CheckSpec` | main.go:42-49 | one request to the info URL, consuming one reply; success exactly when the GET returns, whatever the status, and a transport failure gives the GET's own error |
| `Legacy.CheckIgnoresStatus` | main.go:42-49 | the legacy check succeeds exactly when the GET returns, whatever the status; where the status is not 200 the package check fails |
| `Legacy.CheckDiffersOnUnavailable` | main.go:42-49 | a 503 answer passes the legacy check and fails the package check with "unavailable" |
| `Legacy.Check` | main.go:42-49 | result, request and consumed reply are exactly those of the legacy `CheckSpec` |
| `Legacy.Analyze` | main.go:56-78 | result, request and consumed reply are exactly those of the package `AnalyzeSpec` over the fixed base |
| `Legacy.ReadyEndpoints` | main.go:190-194 | the endpoints the READY branch prints: no more than the response holds, each one of them with StatusMessage "Ready" (`ReadyEndpointsMembers` gives the converse) |
| `Legacy.ReadyEndpointsMembers` | main.go:190-194 | an endpoint is reported exactly when it is in the response and its StatusMessage is `Ready` |
| `Legacy.ReadyEndpointsAppend` | main.go:190-194 | the report keeps the original order: filtering distributes over concatenation |
| `Legacy.ReportReady` | main.go:190-194 | the loop over the endpoints reports exactly `ReadyEndpoints` |
| `Legacy.PollLoop` | main.go:179-205 | the unbounded loop never ends with a connect or start failure, prints only "Ready" endpoints, and always starts with a poll request (its exact behaviour is given by `PollLoopDecidedAt`) |
| `Legacy.PollLoopDecidedAt` | main.go:179-205 | however many non-terminal replies come first, the loop ends at the first error, READY or ERROR reply, after a sleep for every earlier one |
| `Legacy.ExitFor` | main.go:180-201 | how main ends for a reply that ends the loop: a READY reply prints its "Ready" endpoints, an ERROR reply gives the assessment-failed ending, and a failed call ends with that call's own error |
| `Legacy.OutlastsPackageLoop` | main.go:179-205 | after any number n of non-terminal replies a READY reply is still reported, where the package loop with n attempts has timed out |
| `Legacy.PollLoopEnds` | main.go:179-205 | every round makes a request, so the loop stops within one request more than the script holds; this bound exists only because an exhausted script answers with a transport failure, and says nothing about termination of main.go's loop, which has no bound |
| `Legacy.StartFailureEndsRun` | main.go:172-176 | a failed start call ends main after the info and start requests, before any poll |
| `Legacy.RunConnectFailure` | main.go:164-167 | a failed info request ends main with the GET's own error, after that request alone |
| `Legacy.RunIgnoresInfoStatus` | main.go:42-49 | two info replies that both arrive, whatever their status, give the same run: a non-200 info reply still goes on to the start request |
| `Legacy.RunPolls` | main.go:171-205 | once the info request returns and the start call succeeds, main is the polling loop on the replies after the first two, after the info and start requests |
| `Legacy.RunSpec` | main.go:163-205 | main after the prompt: the first request is always the info URL, and a report shows only "Ready" endpoints |
| `Legacy.Exit` | main.go:164-201 | the ways main ends after the prompt: connect failure, start failure, poll failure, the READY report with the endpoints shown, the ERROR ending; a datatype with no contract |
| `Legacy.Run` | main.go:163-205 | the ending, events and consumed replies are exactly those of the legacy `RunSpec` |
| `Legacy.Poll` | main.go:178-205 | the ending, events and consumed replies of the loop are exactly those of `PollLoop` |
| `Models.Response` | internal/ssllabs/models.go:7-11 | the analyze response: host, status and the endpoints in order; a datatype with no contract |
| `Models.Endpoint` | internal/ssllabs/models.go:17-21 | one endpoint: IP address, status message and grade; a datatype with no contract |

The classifier and the validator are Dafny functions, so they are total and
deterministic and read no state. That is the language's guarantee, not a lemma.

## Left out

- Network transport, TLS and the per-request timeout of `http.Client` (`NewClient`, internal/ssllabs/client.go:18-24): replaced by the scripted oracle; a timed-out or refused request is a `TransportError` reply.
- JSON decoding: replaced by the decode outcome carried in a reply. Which bodies decode, and Go's decoding of missing or extra fields, are not modelled.
- `time.Sleep`: recorded as a `Slept(15)` event; no time passes.
- Error message text of `fmt.Errorf` and the `%w` wrapping: replaced by the `ClientError` constructors; the wrapped connect error keeps its cause.
- `resp.Body.Close` and the unclosed body of main.go's `check`: resources are not modelled.
- All console output: the status prints (internal/ssllabs/analyzer.go:31, main.go:186), the progress and error messages of main.go and the banner (main.go:211-236, internal/ui/banner.go). The READY report is modelled as the endpoints it prints.
- The domain prompt loop of main.go:141-161. It reads `os.Args` and stdin and calls `log.Fatal`. Reading input is I/O, and the loop never ends when `os.Args[1]` is invalid, because the same argument is re-checked forever. The model takes the domain as a parameter.
- The final "Press Enter to exit" read (main.go:207-208).
- Go's `regexp` engine: the model specifies the language of the pattern rather than the matcher.
- cmd/tls-checker/main.go: prompts, the `results.json` store and the result printer, which uses endpoint fields that internal/ssllabs/models.go does not declare.
- The unbounded polling loop of main.go is modelled over a finite script. A run against a server that answers non-terminally forever is not represented; every finite prefix of one is.
- Go's `int` width: status codes and attempt counts are unbounded integers. No arithmetic on them can overflow in the source's range of use.
