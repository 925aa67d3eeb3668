/** The single-file program main.go: its own copies of the classifier, the
    validator and the request builder, a `check` that ignores the status
    code, and a polling loop with no attempt bound. The copies are proved to
    agree with the package versions and the differences are stated. */
module Legacy {
  import opened Wrappers
  import HttpStatus
  import Domain
  import opened Models
  import opened Network
  import opened Requests

  /** The API root of main.go, fixed. */
  const BaseUrl := "https://api.ssllabs.com/api/v2"

  /** main.go's copy of validateHTTPStatus. */
  function ValidateHttpStatus(code: int): (r: Outcome<HttpStatus.StatusError>)
    ensures r.Pass? <==> code == 200
    ensures r.Fail? ==> HttpStatus.CodeOf(r.error) == code
  {
    if code == 200 then Pass
    else if code == 400 then Fail(HttpStatus.InvalidRequest)
    else if code == 429 then Fail(HttpStatus.RateLimited)
    else if code == 500 then Fail(HttpStatus.InternalServer)
    else if code == 503 then Fail(HttpStatus.Unavailable)
    else if code == 529 then Fail(HttpStatus.Overloaded)
    else if code >= 500 then Fail(HttpStatus.ServerError(code))
    else Fail(HttpStatus.Unexpected(code))
  }

  /** The copy classifies every code as the package does. */
  lemma StatusCopyAgrees(code: int)
    ensures ValidateHttpStatus(code) == HttpStatus.ValidateHttpStatus(code)
    ensures ValidateHttpStatus(code).Pass? <==> code == 200
  {
  }

  /** main.go's copy of validateDomain: the same three checks in the same order. */
  function ValidateDomain(domain: string): (r: Outcome<Domain.DomainError>)
    ensures domain == "" <==> r == Fail(Domain.Empty)
    ensures r.Pass? ==> Domain.MatchesPattern(domain)
  {
    if domain == "" then Fail(Domain.Empty)
    else if Domain.Contains(domain, "://") then Fail(Domain.HasScheme)
    else if !Domain.MatchesPattern(domain) then Fail(Domain.InvalidFormat)
    else Pass
  }

  lemma DomainCopyAgrees(domain: string)
    ensures ValidateDomain(domain) == Domain.ValidateDomain(domain)
    ensures ValidateDomain(domain).Pass? <==> Domain.InPattern(domain)
  {
    Domain.ValidateDomainAccepts(domain);
  }

  /** main.go's analyze builds the package client's URL over the fixed base. */
  function AnalyzeUrl(domain: string, startNew: bool): (url: string)
    ensures IsPrefix(BaseUrl + AnalyzePath + domain, url)
  {
    var url := BaseUrl + "/analyze?host=" + domain + "&all=done";
    if startNew then url + "&startNew=on" else url
  }

  lemma UrlCopyAgrees(domain: string, startNew: bool)
    ensures AnalyzeUrl(domain, startNew) == Requests.AnalyzeUrl(BaseUrl, domain, startNew)
    ensures ParseAnalyzeUrl(BaseUrl, AnalyzeUrl(domain, startNew)) == Some((domain, startNew))
  {
    UrlRoundTrip(BaseUrl, domain, startNew);
  }

  // ---------------------------------------------------------------------
  // check, status-blind

  /** main.go's check: only a transport failure is an error. */
  function CheckSpec(script: seq<Reply>): (s: Step<()>)
    ensures s.events == [Requested(InfoUrl(BaseUrl))] && s.rest == Drop(script, 1)
    ensures s.result.Ok? <==> NextReply(script).HttpReply?
    ensures NextReply(script).TransportError? ==> s.result == Err(Transport)
  {
    var result := if NextReply(script).TransportError? then Err(Transport) else Ok(());
    Step(result, [Requested(InfoUrl(BaseUrl))], Drop(script, 1))
  }

  /** The legacy check succeeds whatever the status; the package check exactly on 200. */
  lemma CheckIgnoresStatus(script: seq<Reply>)
    ensures CheckSpec(script).result.Ok? <==> NextReply(script).HttpReply?
    ensures CheckSpec(script).result.Ok? && NextReply(script).statusCode != HttpStatus.StatusOK ==>
      Requests.CheckSpec(BaseUrl, script).result.Err?
  {
  }

  /** A 503 answer to the info request: the legacy check passes, the package check fails. */
  lemma CheckDiffersOnUnavailable(tail: seq<Reply>)
    ensures CheckSpec([HttpReply(503, Undecodable)] + tail).result == Ok(())
    ensures Requests.CheckSpec(BaseUrl, [HttpReply(503, Undecodable)] + tail).result
         == Err(BadStatus(HttpStatus.Unavailable))
  {
  }

  method Check(http: Oracle) returns (res: Result<(), ClientError>)
    modifies http
    ensures var s := CheckSpec(old(http.script));
      res == s.result && http.events == old(http.events) + s.events && http.script == s.rest
  {
    var reply := http.Get(BaseUrl + "/info");
    if reply.TransportError? {
      return Err(Transport);
    }
    return Ok(());
  }

  /** main.go's analyze: the same steps as the package client's, over the fixed base. */
  method Analyze(http: Oracle, domain: string, startNew: bool) returns (res: Result<Response, ClientError>)
    modifies http
    ensures var s := AnalyzeSpec(BaseUrl, domain, startNew, old(http.script));
      res == s.result && http.events == old(http.events) + s.events && http.script == s.rest
  {
    var url := BaseUrl + "/analyze?host=" + domain + "&all=done";
    if startNew {
      url := url + "&startNew=on";
    }
    var reply := http.Get(url);
    if reply.TransportError? {
      return Err(Transport);
    }
    var status := ValidateHttpStatus(reply.statusCode);
    if status.Fail? {
      StatusCopyAgrees(reply.statusCode);
      return Err(BadStatus(status.error));
    }
    match reply.body
    case Undecodable =>
      return Err(Decode);
    case Decoded(r) =>
      return Ok(r);
  }

  // ---------------------------------------------------------------------
  // The report on READY

  predicate IsReadyEndpoint(e: Endpoint) {
    e.statusMessage == "Ready"
  }

  /** The endpoints the READY branch prints, in order. */
  function ReadyEndpoints(eps: seq<Endpoint>): (shown: seq<Endpoint>)
    ensures |shown| <= |eps|
    ensures forall e :: e in shown ==> e in eps && IsReadyEndpoint(e)
  {
    if eps == [] then []
    else ReadyEndpoints(eps[..|eps| - 1])
         + (if IsReadyEndpoint(eps[|eps| - 1]) then [eps[|eps| - 1]] else [])
  }

  /** The report keeps exactly the endpoints whose StatusMessage is "Ready". */
  lemma {:induction false} ReadyEndpointsMembers(eps: seq<Endpoint>, e: Endpoint)
    ensures e in ReadyEndpoints(eps) <==> e in eps && IsReadyEndpoint(e)
  {
    if eps != [] {
      var init := eps[..|eps| - 1];
      ReadyEndpointsMembers(init, e);
      assert eps == init + [eps[|eps| - 1]];
    }
  }

  /** The report keeps the original order: filtering distributes over concatenation. */
  lemma {:induction false} ReadyEndpointsAppend(a: seq<Endpoint>, b: seq<Endpoint>)
    ensures ReadyEndpoints(a + b) == ReadyEndpoints(a) + ReadyEndpoints(b)
    decreases |b|
  {
    if b == [] {
      assert a + b == a;
    } else {
      var init := b[..|b| - 1];
      assert (a + b)[..|a + b| - 1] == a + init;
      assert (a + b)[|a + b| - 1] == b[|b| - 1];
      ReadyEndpointsAppend(a, init);
    }
  }

  /** The `for _, ep := range result.Endpoints` loop of the READY branch. */
  method ReportReady(eps: seq<Endpoint>) returns (shown: seq<Endpoint>)
    ensures shown == ReadyEndpoints(eps)
  {
    shown := [];
    for i := 0 to |eps|
      invariant shown == ReadyEndpoints(eps[..i])
    {
      assert eps[..i + 1][..i] == eps[..i];
      if eps[i].statusMessage == "Ready" {
        shown := shown + [eps[i]];
      }
    }
    assert eps[..|eps|] == eps;
  }

  // ---------------------------------------------------------------------
  // main's analysis: check, start, then the unbounded polling loop

  /** How main ends. */
  datatype Exit =
    | ConnectFailed(cause: ClientError)  // "Failed to connect."
    | StartFailed(cause: ClientError)    // the start call failed
    | PollFailed(cause: ClientError)     // a poll failed
    | Reported(shown: seq<Endpoint>)     // READY: the endpoints printed
    | AssessmentFailed                   // the service reported ERROR

  /** How main ends, the events it produced and the script it left. */
  datatype Ending = Ending(exit: Exit, events: seq<Event>, rest: seq<Reply>)

  /** The `for { ... }` polling loop: no bound but the script itself. */
  function PollLoop(domain: string, script: seq<Reply>): (e: Ending)
    ensures !e.exit.ConnectFailed? && !e.exit.StartFailed?
    ensures e.exit.Reported? ==> forall ep :: ep in e.exit.shown ==> IsReadyEndpoint(ep)
    ensures e.events != [] && e.events[0] == Requested(Requests.AnalyzeUrl(BaseUrl, domain, false))
    decreases |script|
  {
    var a := AnalyzeSpec(BaseUrl, domain, false, script);
    match a.result
    case Err(e) => Ending(PollFailed(e), a.events, a.rest)
    case Ok(r) =>
      if r.status == AssessmentReady then Ending(Reported(ReadyEndpoints(r.endpoints)), a.events, a.rest)
      else if r.status == AssessmentError then Ending(AssessmentFailed, a.events, a.rest)
      else
        var p := PollLoop(domain, a.rest);
        Ending(p.exit, a.events + [Slept(PollDelay)] + p.events, p.rest)
  }

  /** main after the domain prompt. */
  function RunSpec(domain: string, script: seq<Reply>): (e: Ending)
    ensures e.events != [] && e.events[0] == Requested(InfoUrl(BaseUrl))
    ensures e.exit.Reported? ==> forall ep :: ep in e.exit.shown ==> IsReadyEndpoint(ep)
  {
    var c := CheckSpec(script);
    if c.result.Err? then Ending(ConnectFailed(c.result.error), c.events, c.rest)
    else
      var st := AnalyzeSpec(BaseUrl, domain, true, c.rest);
      if st.result.Err? then Ending(StartFailed(st.result.error), c.events + st.events, st.rest)
      else
        var p := PollLoop(domain, st.rest);
        Ending(p.exit, c.events + st.events + p.events, p.rest)
  }

  /** A failed info request ends main with the GET's own error, after that request alone. */
  lemma RunConnectFailure(domain: string, script: seq<Reply>)
    requires NextReply(script).TransportError?
    ensures RunSpec(domain, script) == Ending(ConnectFailed(Transport), [Requested(InfoUrl(BaseUrl))], Drop(script, 1))
  {
  }

  /** Once the info request returns, whatever its status, and the start call succeeds,
      main is the polling loop on the replies that follow. */
  lemma RunPolls(domain: string, script: seq<Reply>)
    requires NextReply(script).HttpReply?
    requires AnalyzeSpec(BaseUrl, domain, true, Drop(script, 1)).result.Ok?
    ensures var p := PollLoop(domain, Drop(script, 2));
      RunSpec(domain, script)
      == Ending(p.exit, [Requested(InfoUrl(BaseUrl)), Requested(AnalyzeUrl(domain, true))] + p.events, p.rest)
  {
    var c := CheckSpec(script);
    assert c.result.Ok?;
    var st := AnalyzeSpec(BaseUrl, domain, true, c.rest);
    DropDrop(script, 1);
    assert st.rest == Drop(script, 2);
    UrlCopyAgrees(domain, true);
  }

  /** The status of the info reply never changes how main goes on. */
  lemma RunIgnoresInfoStatus(domain: string, c1: int, b1: Body, c2: int, b2: Body, tail: seq<Reply>)
    ensures RunSpec(domain, [HttpReply(c1, b1)] + tail) == RunSpec(domain, [HttpReply(c2, b2)] + tail)
  {
    assert Drop([HttpReply(c1, b1)] + tail, 1) == tail == Drop([HttpReply(c2, b2)] + tail, 1);
  }

  /** How main ends for a reply that ends the loop. */
  function ExitFor(reply: Reply): (e: Exit)
    requires !NonTerminal(reply)
    ensures (reply.HttpReply? && reply.statusCode == HttpStatus.StatusOK && reply.body.Decoded? &&
             reply.body.response.status == AssessmentReady) ==>
      e == Reported(ReadyEndpoints(reply.body.response.endpoints))
    ensures (reply.HttpReply? && reply.statusCode == HttpStatus.StatusOK && reply.body.Decoded? &&
             reply.body.response.status == AssessmentError) ==> e == AssessmentFailed
    ensures !(reply.HttpReply? && reply.statusCode == HttpStatus.StatusOK && reply.body.Decoded?) ==>
      e == PollFailed(Verdict(reply).error)
  {
    match Verdict(reply)
    case Ok(r) => Reported(ReadyEndpoints(r.endpoints))
    case Err(e) => if e == AnalysisFailed then AssessmentFailed else PollFailed(e)
  }

  /** One round of the loop on a non-terminal reply: a poll, a sleep, then the rest. */
  lemma PollLoopStepNonTerminal(domain: string, script: seq<Reply>)
    requires NonTerminal(NextReply(script))
    ensures var p := PollLoop(domain, Drop(script, 1));
      PollLoop(domain, script)
      == Ending(p.exit, [Requested(AnalyzeUrl(domain, false)), Slept(PollDelay)] + p.events, p.rest)
  {
    UrlCopyAgrees(domain, false);
    var a := AnalyzeSpec(BaseUrl, domain, false, script);
    assert a.result.Ok? && !IsTerminalStatus(a.result.value.status);
  }

  /** The last round of the loop: a poll whose reply decides how main ends. */
  lemma PollLoopStepTerminal(domain: string, script: seq<Reply>)
    requires !NonTerminal(NextReply(script))
    ensures PollLoop(domain, script)
         == Ending(ExitFor(NextReply(script)), [Requested(AnalyzeUrl(domain, false))], Drop(script, 1))
  {
    UrlCopyAgrees(domain, false);
  }

  /** The loop ends exactly at the first reply that is not non-terminal, however
      late: k + 1 polls, each of the first k followed by a sleep. */
  lemma {:induction false} PollLoopDecidedAt(domain: string, script: seq<Reply>, k: nat)
    requires forall j: nat :: j < k ==> NonTerminal(ReplyAt(script, j))
    requires !NonTerminal(ReplyAt(script, k))
    ensures PollLoop(domain, script)
         == Ending(ExitFor(ReplyAt(script, k)),
                Cycles(AnalyzeUrl(domain, false), k) + [Requested(AnalyzeUrl(domain, false))],
                Drop(script, k + 1))
    decreases k
  {
    var url := AnalyzeUrl(domain, false);
    if k == 0 {
      PollLoopStepTerminal(domain, script);
    } else {
      assert NonTerminal(ReplyAt(script, 0));
      var rest := Drop(script, 1);
      forall j: nat | j < k - 1 ensures NonTerminal(ReplyAt(rest, j)) {
        assert ReplyAt(rest, j) == ReplyAt(script, j + 1);
      }
      assert ReplyAt(rest, k - 1) == ReplyAt(script, k);
      PollLoopDecidedAt(domain, rest, k - 1);
      DropDrop(script, k);
      var x := ExitFor(ReplyAt(script, k));
      assert ExitFor(ReplyAt(rest, k - 1)) == x;
      assert Drop(rest, k) == Drop(script, k + 1);
      PollLoopPrependsRound(domain, script, k, x);
    }
  }

  /** A non-terminal round in front of a loop that ends after k - 1 rounds and one poll. */
  lemma PollLoopPrependsRound(domain: string, script: seq<Reply>, k: nat, x: Exit)
    requires k > 0 && NonTerminal(NextReply(script))
    requires PollLoop(domain, Drop(script, 1))
          == Ending(x, Cycles(AnalyzeUrl(domain, false), k - 1) + [Requested(AnalyzeUrl(domain, false))],
                    Drop(script, k + 1))
    ensures PollLoop(domain, script)
         == Ending(x, Cycles(AnalyzeUrl(domain, false), k) + [Requested(AnalyzeUrl(domain, false))],
                   Drop(script, k + 1))
  {
    var url := AnalyzeUrl(domain, false);
    PollLoopStepNonTerminal(domain, script);
    assert [Requested(url), Slept(PollDelay)] + (Cycles(url, k - 1) + [Requested(url)])
        == Cycles(url, k) + [Requested(url)];
  }

  /** No attempt bound: after any number n of non-terminal replies a READY reply is
      still reported, where the package loop with n attempts has already timed out. */
  lemma OutlastsPackageLoop(domain: string, script: seq<Reply>, n: nat, ready: Response)
    requires |script| == n
    requires forall j :: 0 <= j < n ==> NonTerminal(script[j])
    requires ready.status == AssessmentReady
    ensures PollLoop(domain, script + [HttpReply(200, Decoded(ready))]).exit
         == Reported(ReadyEndpoints(ready.endpoints))
    ensures PollSpec(BaseUrl, domain, n, script + [HttpReply(200, Decoded(ready))]).result == Err(Timeout)
  {
    var s := script + [HttpReply(200, Decoded(ready))];
    forall j: nat | j < n ensures NonTerminal(ReplyAt(s, j)) {
      assert ReplyAt(s, j) == script[j];
    }
    assert ReplyAt(s, n) == HttpReply(200, Decoded(ready));
    PollLoopDecidedAt(domain, s, n);
    PollTimesOut(BaseUrl, domain, n, s);
  }

  /** The loop ends within one request more than the script holds. */
  lemma {:induction false} PollLoopEnds(domain: string, script: seq<Reply>)
    ensures RequestCount(PollLoop(domain, script).events) <= |script| + 1
    decreases |script|
  {
    var a := AnalyzeSpec(BaseUrl, domain, false, script);
    assert RequestCount(a.events) == 1 by { assert a.events[1..] == []; }
    if a.result.Ok? && !IsTerminalStatus(a.result.value.status) {
      var p := PollLoop(domain, a.rest);
      PollLoopEnds(domain, a.rest);
      var sl: seq<Event> := [Slept(PollDelay)];
      assert RequestCount(sl) == 0 by { assert sl[1..] == []; }
      CountsAppend(a.events, sl);
      CountsAppend(a.events + sl, p.events);
    }
  }

  /** A failed start call ends main before any poll. */
  lemma StartFailureEndsRun(domain: string, script: seq<Reply>)
    requires NextReply(script).HttpReply?
    requires AnalyzeSpec(BaseUrl, domain, true, Drop(script, 1)).result.Err?
    ensures RunSpec(domain, script).exit.StartFailed?
    ensures RunSpec(domain, script).events
         == [Requested(InfoUrl(BaseUrl)), Requested(AnalyzeUrl(domain, true))]
  {
  }

  /** main after the domain prompt, on the scripted network. */
  method Run(http: Oracle, domain: string) returns (exit: Exit)
    modifies http
    ensures var r := RunSpec(domain, old(http.script));
      exit == r.exit && http.events == old(http.events) + r.events && http.script == r.rest
  {
    var checked := Check(http);
    if checked.Err? {
      return ConnectFailed(checked.error);
    }
    var started := Analyze(http, domain, true);
    if started.Err? {
      return StartFailed(started.error);
    }
    exit := Poll(http, domain);
  }

  /** The polling loop of main. */
  method Poll(http: Oracle, domain: string) returns (exit: Exit)
    modifies http
    ensures var r := PollLoop(domain, old(http.script));
      exit == r.exit && http.events == old(http.events) + r.events && http.script == r.rest
  {
    ghost var s0 := http.script;
    ghost var url := AnalyzeUrl(domain, false);
    ghost var k: nat := 0;
    UrlCopyAgrees(domain, false);
    while true
      invariant http.script == Drop(s0, k)
      invariant http.events == old(http.events) + Cycles(url, k)
      invariant forall j: nat :: j < k ==> NonTerminal(ReplyAt(s0, j))
      decreases |http.script|
    {
      assert ReplyAt(s0, k) == NextReply(http.script);
      var result := Analyze(http, domain, false);
      if result.Err? || IsTerminalStatus(result.value.status) {
        PollLoopDecidedAt(domain, s0, k);
        if result.Err? {
          return PollFailed(result.error);
        } else if result.value.status == AssessmentReady {
          var shown := ReportReady(result.value.endpoints);
          return Reported(shown);
        } else {
          return AssessmentFailed;
        }
      }
      http.Sleep(PollDelay);
      DropStep(s0, k);
      CyclesSnoc(url, k);
      k := k + 1;
    }
  }
}
