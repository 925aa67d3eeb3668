/** The SSL Labs client of internal/ssllabs/client.go and its RunAnalysis
    loop of internal/ssllabs/analyzer.go, over the scripted network. Each
    method is proved to produce exactly the result, the events and the
    remaining script its Requests specification gives. */
module SslLabs {
  import opened Wrappers
  import opened HttpStatus
  import opened Models
  import opened Network
  import opened Requests

  class Client {
    /** The API root; a parameter, since internal/ssllabs/analyzer_test.go:31 reassigns it to a fake server's URL. */
    const baseURL: string
    /** The HTTP client (and clock) the calls go through. */
    const http: Oracle

    constructor (baseURL: string, http: Oracle)
      ensures this.baseURL == baseURL && this.http == http
    {
      this.baseURL := baseURL;
      this.http := http;
    }

    /** check(): the API is reachable and answers the info request with 200. */
    method Check() returns (res: Result<(), ClientError>)
      modifies http
      ensures var s := CheckSpec(baseURL, old(http.script));
        res == s.result && http.events == old(http.events) + s.events && http.script == s.rest
    {
      var reply := http.Get(InfoUrl(baseURL));
      if reply.TransportError? {
        return Err(Transport);
      }
      var status := ValidateHttpStatus(reply.statusCode);
      if status.Fail? {
        return Err(BadStatus(status.error));
      }
      return Ok(());
    }

    /** analyze(domain, startNew): one GET, the status check, then decoding. */
    method Analyze(domain: string, startNew: bool) returns (res: Result<Response, ClientError>)
      modifies http
      ensures var s := AnalyzeSpec(baseURL, domain, startNew, old(http.script));
        res == s.result && http.events == old(http.events) + s.events && http.script == s.rest
    {
      var url := baseURL + AnalyzePath + domain + AllDone;
      if startNew {
        url := url + StartNewFlag;
      }
      var reply := http.Get(url);
      if reply.TransportError? {
        return Err(Transport);
      }
      var status := ValidateHttpStatus(reply.statusCode);
      if status.Fail? {
        return Err(BadStatus(status.error));
      }
      match reply.body
      case Undecodable =>
        return Err(Decode);
      case Decoded(r) =>
        return Ok(r);
    }

    /** RunAnalysis(domain, maxAttempts): check, start, then at most maxAttempts polls. */
    method RunAnalysis(domain: string, maxAttempts: int) returns (res: Result<Response, ClientError>)
      modifies http
      ensures var s := RunSpec(baseURL, domain, maxAttempts, old(http.script));
        res == s.result && http.events == old(http.events) + s.events && http.script == s.rest
    {
      var checked := Check();
      if checked.Err? {
        return Err(Connect(checked.error));
      }
      var started := Analyze(domain, true);
      if started.Err? {
        return Err(started.error);
      }
      res := Poll(domain, maxAttempts);
    }

    /** The `for maxAttempts > 0` loop of RunAnalysis. */
    method Poll(domain: string, maxAttempts: int) returns (res: Result<Response, ClientError>)
      modifies http
      ensures var s := PollSpec(baseURL, domain, maxAttempts, old(http.script));
        res == s.result && http.events == old(http.events) + s.events && http.script == s.rest
    {
      ghost var s0 := http.script;
      ghost var url := AnalyzeUrl(baseURL, domain, false);
      ghost var k: nat := 0;
      var attempts := maxAttempts;
      while attempts > 0
        invariant k + attempts == maxAttempts && (k == 0 || attempts >= 0)
        invariant http.script == Drop(s0, k)
        invariant http.events == old(http.events) + Cycles(url, k)
        invariant forall j: nat :: j < k ==> NonTerminal(ReplyAt(s0, j))
        decreases attempts
      {
        assert ReplyAt(s0, k) == NextReply(http.script);
        var result := Analyze(domain, false);
        attempts := attempts - 1;
        if result.Err? || IsTerminalStatus(result.value.status) {
          VerdictOfAnalyze(baseURL, domain, Drop(s0, k));
          PollDecidedAt(baseURL, domain, maxAttempts, s0, k);
          if result.Err? {
            return Err(result.error);
          } else if result.value.status == AssessmentReady {
            return Ok(result.value);
          } else {
            return Err(AnalysisFailed);
          }
        }
        http.Sleep(PollDelay);
        DropStep(s0, k);
        CyclesSnoc(url, k);
        k := k + 1;
      }
      PollTimesOut(baseURL, domain, maxAttempts, s0);
      return Err(Timeout);
    }
  }
}
