/** What the SSL Labs client does, as functions of the base URL, the domain
    and the script of replies: `check` and `analyze` of
    internal/ssllabs/client.go and `RunAnalysis` of
    internal/ssllabs/analyzer.go. Each function returns the result, the
    events the call produces and the script left after it; the methods of
    SslLabs.Client are proved to behave exactly so. */
module Requests {
  import opened Wrappers
  import opened HttpStatus
  import opened Models
  import opened Network

  /** The errors RunAnalysis can return. */
  datatype ClientError =
    | Transport                       // the GET itself failed
    | BadStatus(status: StatusError)  // validateHTTPStatus rejected the code
    | Decode                          // the JSON body could not be decoded
    | Connect(cause: ClientError)     // the availability check failed (wrapped with %w)
    | AnalysisFailed                  // the service reported status ERROR
    | Timeout                         // the attempts ran out

  /** The result of a call, the events it produced and the script it left. */
  datatype Step<T> = Step(result: Result<T, ClientError>, events: seq<Event>, rest: seq<Reply>)

  /** The pause between two polls, in seconds. */
  const PollDelay: nat := 15

  const InfoPath := "/info"
  const AnalyzePath := "/analyze?host="
  const AllDone := "&all=done"
  const StartNewFlag := "&startNew=on"

  function InfoUrl(base: string): (url: string)
    ensures IsPrefix(base, url) && IsSuffix(InfoPath, url)
  {
    base + InfoPath
  }

  /** The URL `analyze` requests: the domain inserted verbatim. */
  function AnalyzeUrl(base: string, domain: string, startNew: bool): (url: string)
    ensures IsPrefix(base + AnalyzePath + domain, url)
    ensures IsSuffix(if startNew then StartNewFlag else AllDone, url)
  {
    var url := base + AnalyzePath + domain + AllDone;
    if startNew then url + StartNewFlag else url
  }

  predicate IsPrefix(p: string, s: string) {
    |p| <= |s| && s[..|p|] == p
  }

  predicate IsSuffix(p: string, s: string) {
    |p| <= |s| && s[|s| - |p|..] == p
  }

  /** Reads the domain and the startNew flag back from an analyze URL. */
  function ParseAnalyzeUrl(base: string, url: string): Option<(string, bool)> {
    var head := base + AnalyzePath;
    if !IsPrefix(head, url) then None
    else
      var query := url[|head|..];
      if IsSuffix(AllDone + StartNewFlag, query) then
        Some((query[..|query| - |AllDone + StartNewFlag|], true))
      else if IsSuffix(AllDone, query) then
        Some((query[..|query| - |AllDone|], false))
      else None
  }

  /** The URL determines the domain and the flag: nothing is escaped or lost. */
  lemma UrlRoundTrip(base: string, domain: string, startNew: bool)
    ensures ParseAnalyzeUrl(base, AnalyzeUrl(base, domain, startNew)) == Some((domain, startNew))
  {
    if startNew {
      StartUrlParses(base, domain);
    } else {
      PollUrlParses(base, domain);
    }
  }

  lemma StartUrlParses(base: string, domain: string)
    ensures ParseAnalyzeUrl(base, AnalyzeUrl(base, domain, true)) == Some((domain, true))
  {
    var head := base + AnalyzePath;
    var query := domain + AllDone + StartNewFlag;
    assert AnalyzeUrl(base, domain, true) == head + query;
    HeadSplits(head, query);
    StartQueryParses(domain);
  }

  lemma PollUrlParses(base: string, domain: string)
    ensures ParseAnalyzeUrl(base, AnalyzeUrl(base, domain, false)) == Some((domain, false))
  {
    var head := base + AnalyzePath;
    var query := domain + AllDone;
    assert AnalyzeUrl(base, domain, false) == head + query;
    HeadSplits(head, query);
    PollQueryParses(domain);
  }

  lemma HeadSplits(head: string, query: string)
    ensures IsPrefix(head, head + query) && (head + query)[|head|..] == query
  {
    assert (head + query)[..|head|] == head;
  }

  lemma StartQueryParses(domain: string)
    ensures var query := domain + AllDone + StartNewFlag;
      IsSuffix(AllDone + StartNewFlag, query) && query[..|query| - |AllDone + StartNewFlag|] == domain
  {
    assert domain + AllDone + StartNewFlag == domain + (AllDone + StartNewFlag);
  }

  lemma PollQueryParses(domain: string)
    ensures var query := domain + AllDone;
      !IsSuffix(AllDone + StartNewFlag, query) && IsSuffix(AllDone, query) && query[..|query| - |AllDone|] == domain
  {
    var query := domain + AllDone;
    assert query[|query| - 1] == 'e';
    assert (AllDone + StartNewFlag)[|AllDone + StartNewFlag| - 1] == 'n';
  }

  /** The start URL is the poll URL followed by exactly "&startNew=on". */
  lemma StartUrlExtendsPollUrl(base: string, domain: string)
    ensures AnalyzeUrl(base, domain, true) == AnalyzeUrl(base, domain, false) + StartNewFlag
    ensures AnalyzeUrl(base, domain, true) != AnalyzeUrl(base, domain, false)
  {
  }

  /** The info URL is never an analyze URL. */
  lemma InfoUrlDistinct(base: string, domain: string, startNew: bool)
    ensures InfoUrl(base) != AnalyzeUrl(base, domain, startNew)
  {
    var i := |base| + 1;
    assert InfoUrl(base)[i] == 'i';
    assert AnalyzeUrl(base, domain, startNew)[i] == 'a';
  }

  // ---------------------------------------------------------------------
  // check and analyze

  /** Client.check: one GET of the info URL, then the status classification. */
  function CheckSpec(base: string, script: seq<Reply>): (s: Step<()>)
    ensures s.events == [Requested(InfoUrl(base))]
    ensures s.rest == Drop(script, 1)
    ensures s.result.Ok? <==> NextReply(script).HttpReply? && NextReply(script).statusCode == StatusOK
    ensures NextReply(script).TransportError? ==> s.result == Err(Transport)
    ensures NextReply(script).HttpReply? && NextReply(script).statusCode != StatusOK ==>
      s.result == Err(BadStatus(ValidateHttpStatus(NextReply(script).statusCode).error))
  {
    var result := match NextReply(script)
      case TransportError => Err(Transport)
      case HttpReply(code, _) =>
        match ValidateHttpStatus(code)
        case Pass => Ok(())
        case Fail(e) => Err(BadStatus(e));
    Step(result, [Requested(InfoUrl(base))], Drop(script, 1))
  }

  /** Client.analyze: one GET, the status classification, then decoding. */
  function AnalyzeSpec(base: string, domain: string, startNew: bool, script: seq<Reply>): (s: Step<Response>)
    ensures s.events == [Requested(AnalyzeUrl(base, domain, startNew))]
    ensures s.rest == Drop(script, 1)
    ensures s.result.Ok? <==> NextReply(script).HttpReply? && NextReply(script).statusCode == StatusOK
                              && NextReply(script).body.Decoded?
    ensures s.result.Ok? ==> s.result.value == NextReply(script).body.response
    ensures NextReply(script).HttpReply? && NextReply(script).statusCode != StatusOK ==>
      s.result == Err(BadStatus(ValidateHttpStatus(NextReply(script).statusCode).error))
    ensures NextReply(script).TransportError? ==> s.result == Err(Transport)
    ensures (NextReply(script).HttpReply? && NextReply(script).statusCode == StatusOK &&
             NextReply(script).body.Undecodable?) ==> s.result == Err(Decode)
    ensures s.result.Err? ==> s.result.error.Transport? || s.result.error.BadStatus? || s.result.error.Decode?
  {
    var result := match NextReply(script)
      case TransportError => Err(Transport)
      case HttpReply(code, body) =>
        match ValidateHttpStatus(code)
        case Fail(e) => Err(BadStatus(e))
        case Pass =>
          match body
          case Undecodable => Err(Decode)
          case Decoded(r) => Ok(r);
    Step(result, [Requested(AnalyzeUrl(base, domain, startNew))], Drop(script, 1))
  }

  /** With a non-200 status the body is never looked at. */
  lemma AnalyzeIgnoresBodyOnBadStatus(base: string, domain: string, startNew: bool,
                                      code: int, b1: Body, b2: Body, tail: seq<Reply>)
    requires code != StatusOK
    ensures AnalyzeSpec(base, domain, startNew, [HttpReply(code, b1)] + tail)
         == AnalyzeSpec(base, domain, startNew, [HttpReply(code, b2)] + tail)
  {
  }

  // ---------------------------------------------------------------------
  // The polling loop of RunAnalysis

  /** A reply after which the loop polls again: 200, decoded, status neither READY nor ERROR. */
  predicate NonTerminal(reply: Reply) {
    reply.HttpReply? && reply.statusCode == StatusOK && reply.body.Decoded?
    && !IsTerminalStatus(reply.body.response.status)
  }

  /** What RunAnalysis returns for a reply that ends the loop. */
  function Verdict(reply: Reply): (r: Result<Response, ClientError>)
    requires !NonTerminal(reply)
    ensures r.Ok? <==> reply.HttpReply? && reply.statusCode == StatusOK && reply.body.Decoded?
                       && reply.body.response.status == AssessmentReady
    ensures r.Ok? ==> r.value == reply.body.response
    ensures r.Err? ==> !r.error.Timeout? && !r.error.Connect?
    ensures reply.TransportError? ==> r == Err(Transport)
    ensures reply.HttpReply? && reply.statusCode != StatusOK ==>
      r == Err(BadStatus(ValidateHttpStatus(reply.statusCode).error))
    ensures (reply.HttpReply? && reply.statusCode == StatusOK && reply.body.Undecodable?) ==> r == Err(Decode)
    ensures (reply.HttpReply? && reply.statusCode == StatusOK && reply.body.Decoded? &&
             reply.body.response.status == AssessmentError) ==> r == Err(AnalysisFailed)
  {
    match reply
    case TransportError => Err(Transport)
    case HttpReply(code, body) =>
      if code != StatusOK then Err(BadStatus(ValidateHttpStatus(code).error))
      else if body.Undecodable? then Err(Decode)
      else if body.response.status == AssessmentReady then Ok(body.response)
      else Err(AnalysisFailed)
  }

  /** The verdict on a reply that ends the loop is what the loop body makes of the
      analyze call's result. */
  lemma VerdictOfAnalyze(base: string, domain: string, script: seq<Reply>)
    requires !NonTerminal(NextReply(script))
    ensures var a := AnalyzeSpec(base, domain, false, script).result;
      Verdict(NextReply(script))
      == if a.Err? || a.value.status == AssessmentReady then a else Err(AnalysisFailed)
  {
  }

  /** The `for maxAttempts > 0` loop, from `attempts` remaining attempts on. */
  function PollSpec(base: string, domain: string, attempts: int, script: seq<Reply>): (s: Step<Response>)
    ensures s.result.Ok? ==> s.result.value.status == AssessmentReady
    ensures s.result.Err? ==> !s.result.error.Connect?
    ensures |s.events| <= 2 * Max0(attempts)
    decreases attempts
  {
    if attempts <= 0 then Step(Err(Timeout), [], script)
    else
      var a := AnalyzeSpec(base, domain, false, script);
      match a.result
      case Err(e) => Step(Err(e), a.events, a.rest)
      case Ok(r) =>
        if r.status == AssessmentReady then Step(Ok(r), a.events, a.rest)
        else if r.status == AssessmentError then Step(Err(AnalysisFailed), a.events, a.rest)
        else
          var p := PollSpec(base, domain, attempts - 1, a.rest);
          Step(p.result, a.events + [Slept(PollDelay)] + p.events, p.rest)
  }

  /** `k` rounds of a poll followed by its sleep. */
  function Cycles(url: string, k: nat): (es: seq<Event>)
    ensures |es| == 2 * k
  {
    if k == 0 then [] else [Requested(url), Slept(PollDelay)] + Cycles(url, k - 1)
  }

  /** k + 1 rounds are k rounds followed by one more. */
  lemma {:induction false} CyclesSnoc(url: string, k: nat)
    ensures Cycles(url, k + 1) == Cycles(url, k) + [Requested(url), Slept(PollDelay)]
  {
    if k > 0 {
      CyclesSnoc(url, k - 1);
    }
  }

  function Max0(n: int): nat {
    if n > 0 then n else 0
  }

  /** One round of the loop on a non-terminal reply: a poll, a sleep, then the rest of the loop. */
  lemma PollStepNonTerminal(base: string, domain: string, attempts: int, script: seq<Reply>)
    requires attempts > 0 && NonTerminal(NextReply(script))
    ensures var p := PollSpec(base, domain, attempts - 1, Drop(script, 1));
      PollSpec(base, domain, attempts, script)
      == Step(p.result, [Requested(AnalyzeUrl(base, domain, false)), Slept(PollDelay)] + p.events, p.rest)
  {
    var a := AnalyzeSpec(base, domain, false, script);
    assert a.result.Ok? && !IsTerminalStatus(a.result.value.status);
  }

  /** The last round of the loop: a poll whose reply decides the verdict. */
  lemma PollStepTerminal(base: string, domain: string, attempts: int, script: seq<Reply>)
    requires attempts > 0 && !NonTerminal(NextReply(script))
    ensures PollSpec(base, domain, attempts, script)
         == Step(Verdict(NextReply(script)), [Requested(AnalyzeUrl(base, domain, false))], Drop(script, 1))
  {
  }

  /** All polls answered non-terminally: timeout after exactly max(attempts, 0)
      polls, each followed by a sleep. */
  lemma {:induction false} PollTimesOut(base: string, domain: string, attempts: int, script: seq<Reply>)
    requires forall j: nat :: j < attempts ==> NonTerminal(ReplyAt(script, j))
    ensures PollSpec(base, domain, attempts, script)
         == Step(Err(Timeout), Cycles(AnalyzeUrl(base, domain, false), Max0(attempts)), Drop(script, Max0(attempts)))
    decreases attempts
  {
    if attempts > 0 {
      assert NonTerminal(ReplyAt(script, 0));
      var rest := Drop(script, 1);
      forall j: nat | j < attempts - 1 ensures NonTerminal(ReplyAt(rest, j)) {
        assert ReplyAt(rest, j) == ReplyAt(script, j + 1);
      }
      PollStepNonTerminal(base, domain, attempts, script);
      PollTimesOut(base, domain, attempts - 1, rest);
      assert Drop(rest, Max0(attempts - 1)) == Drop(script, Max0(attempts));
    }
  }

  /** The first reply that is not non-terminal, within the attempts, decides:
      the loop returns its verdict after k + 1 polls and k sleeps, and no more. */
  lemma {:induction false} PollDecidedAt(base: string, domain: string, attempts: int, script: seq<Reply>, k: nat)
    requires k < attempts
    requires forall j: nat :: j < k ==> NonTerminal(ReplyAt(script, j))
    requires !NonTerminal(ReplyAt(script, k))
    ensures PollSpec(base, domain, attempts, script)
         == Step(Verdict(ReplyAt(script, k)),
                 Cycles(AnalyzeUrl(base, domain, false), k) + [Requested(AnalyzeUrl(base, domain, false))],
                 Drop(script, k + 1))
    decreases k
  {
    var url := AnalyzeUrl(base, domain, false);
    if k == 0 {
      PollStepTerminal(base, domain, attempts, script);
    } else {
      assert NonTerminal(ReplyAt(script, 0));
      var rest := Drop(script, 1);
      forall j: nat | j < k - 1 ensures NonTerminal(ReplyAt(rest, j)) {
        assert ReplyAt(rest, j) == ReplyAt(script, j + 1);
      }
      assert ReplyAt(rest, k - 1) == ReplyAt(script, k);
      PollDecidedAt(base, domain, attempts - 1, rest, k - 1);
      DropDrop(script, k);
      var v := Verdict(ReplyAt(script, k));
      assert Verdict(ReplyAt(rest, k - 1)) == v;
      assert Drop(rest, k) == Drop(script, k + 1);
      PollPrependsRound(base, domain, attempts, script, k, v);
    }
  }

  /** A non-terminal round in front of a loop that ends after k - 1 rounds and one poll. */
  lemma PollPrependsRound(base: string, domain: string, attempts: int, script: seq<Reply>, k: nat,
                          v: Result<Response, ClientError>)
    requires attempts > 0 && k > 0 && NonTerminal(NextReply(script))
    requires PollSpec(base, domain, attempts - 1, Drop(script, 1))
          == Step(v, Cycles(AnalyzeUrl(base, domain, false), k - 1) + [Requested(AnalyzeUrl(base, domain, false))],
                  Drop(script, k + 1))
    ensures PollSpec(base, domain, attempts, script)
         == Step(v, Cycles(AnalyzeUrl(base, domain, false), k) + [Requested(AnalyzeUrl(base, domain, false))],
                 Drop(script, k + 1))
  {
    var url := AnalyzeUrl(base, domain, false);
    PollStepNonTerminal(base, domain, attempts, script);
    assert [Requested(url), Slept(PollDelay)] + (Cycles(url, k - 1) + [Requested(url)])
        == Cycles(url, k) + [Requested(url)];
  }

  /** The number of GETs among some events. */
  function RequestCount(es: seq<Event>): nat {
    if es == [] then 0 else (if es[0].Requested? then 1 else 0) + RequestCount(es[1..])
  }

  /** The number of sleeps among some events. */
  function SleepCount(es: seq<Event>): nat {
    if es == [] then 0 else (if es[0].Slept? then 1 else 0) + SleepCount(es[1..])
  }

  lemma {:induction false} CountsAppend(a: seq<Event>, b: seq<Event>)
    ensures RequestCount(a + b) == RequestCount(a) + RequestCount(b)
    ensures SleepCount(a + b) == SleepCount(a) + SleepCount(b)
  {
    if a != [] {
      assert (a + b)[1..] == a[1..] + b;
      CountsAppend(a[1..], b);
    } else {
      assert a + b == b;
    }
  }

  /** Never more polls than attempts; one sleep per poll on timeout, one fewer otherwise;
      every request of the loop is a poll (startNew=false). */
  lemma {:induction false} PollBounds(base: string, domain: string, attempts: int, script: seq<Reply>)
    ensures var s := PollSpec(base, domain, attempts, script);
      && RequestCount(s.events) <= Max0(attempts)
      && (s.result == Err(Timeout) ==> SleepCount(s.events) == RequestCount(s.events) == Max0(attempts))
      && (s.result != Err(Timeout) ==> SleepCount(s.events) + 1 == RequestCount(s.events))
      && (forall e :: e in s.events && e.Requested? ==> e.url == AnalyzeUrl(base, domain, false))
    decreases attempts
  {
    var url := AnalyzeUrl(base, domain, false);
    var poll: seq<Event> := [Requested(url)];
    assert RequestCount(poll) == 1 && SleepCount(poll) == 0 by { assert poll[1..] == []; }
    if attempts > 0 {
      if NonTerminal(NextReply(script)) {
        PollStepNonTerminal(base, domain, attempts, script);
        var p := PollSpec(base, domain, attempts - 1, Drop(script, 1));
        PollBounds(base, domain, attempts - 1, Drop(script, 1));
        var sl: seq<Event> := [Slept(PollDelay)];
        assert RequestCount(sl) == 0 && SleepCount(sl) == 1 by { assert sl[1..] == []; }
        CountsAppend(poll, sl);
        CountsAppend(poll + sl, p.events);
        assert [Requested(url), Slept(PollDelay)] + p.events == poll + sl + p.events;
      } else {
        PollStepTerminal(base, domain, attempts, script);
        assert Verdict(NextReply(script)) != Err(Timeout);
      }
    }
  }

  // ---------------------------------------------------------------------
  // RunAnalysis

  /** Client.RunAnalysis: availability check, one start call, then the polling loop. */
  function RunSpec(base: string, domain: string, maxAttempts: int, script: seq<Reply>): (s: Step<Response>)
    ensures s.result.Ok? ==> s.result.value.status == AssessmentReady
    ensures s.events != [] && s.events[0] == Requested(InfoUrl(base))
    ensures |s.events| <= 2 + 2 * Max0(maxAttempts)
  {
    var c := CheckSpec(base, script);
    if c.result.Err? then Step(Err(Connect(c.result.error)), c.events, c.rest)
    else
      var st := AnalyzeSpec(base, domain, true, c.rest);
      if st.result.Err? then Step(Err(st.result.error), c.events + st.events, st.rest)
      else
        var p := PollSpec(base, domain, maxAttempts, st.rest);
        Step(p.result, c.events + st.events + p.events, p.rest)
  }

  /** A failed availability check ends the run with a wrapped connect error
      and no analyze call. */
  lemma RunConnectFailure(base: string, domain: string, maxAttempts: int, script: seq<Reply>)
    requires !(NextReply(script).HttpReply? && NextReply(script).statusCode == StatusOK)
    ensures var s := RunSpec(base, domain, maxAttempts, script);
      && s.result.Err? && s.result.error.Connect?
      && s.result.error.cause == CheckSpec(base, script).result.error
      && s.events == [Requested(InfoUrl(base))]
  {
  }

  /** A failed start call ends the run with its error, before any poll. */
  lemma RunStartFailure(base: string, domain: string, maxAttempts: int, script: seq<Reply>)
    requires CheckSpec(base, script).result.Ok?
    requires AnalyzeSpec(base, domain, true, Drop(script, 1)).result.Err?
    ensures var s := RunSpec(base, domain, maxAttempts, script);
      && s.result == AnalyzeSpec(base, domain, true, Drop(script, 1)).result
      && s.events == [Requested(InfoUrl(base)), Requested(AnalyzeUrl(base, domain, true))]
      && s.rest == Drop(script, 2)
  {
  }

  /** Once check and start succeed, the run is the polling loop on the rest of the
      script; the start reply's status is not looked at. */
  lemma RunPolls(base: string, domain: string, maxAttempts: int, script: seq<Reply>)
    requires CheckSpec(base, script).result.Ok?
    requires AnalyzeSpec(base, domain, true, Drop(script, 1)).result.Ok?
    ensures var s := RunSpec(base, domain, maxAttempts, script);
      var p := PollSpec(base, domain, maxAttempts, Drop(script, 2));
      && s.result == p.result
      && s.events == [Requested(InfoUrl(base)), Requested(AnalyzeUrl(base, domain, true))] + p.events
      && s.rest == p.rest
  {
  }

  /** Two start replies that both decode give the same run, whatever their status. */
  lemma RunIgnoresStartStatus(base: string, domain: string, maxAttempts: int,
                              check: Reply, r1: Response, r2: Response, tail: seq<Reply>)
    ensures var s1 := RunSpec(base, domain, maxAttempts, [check, HttpReply(StatusOK, Decoded(r1))] + tail);
      var s2 := RunSpec(base, domain, maxAttempts, [check, HttpReply(StatusOK, Decoded(r2))] + tail);
      s1.result == s2.result && s1.events == s2.events
  {
    var t1 := [check, HttpReply(StatusOK, Decoded(r1))] + tail;
    var t2 := [check, HttpReply(StatusOK, Decoded(r2))] + tail;
    assert Drop(t1, 1)[1..] == tail == Drop(t2, 1)[1..];
  }

  /** With maxAttempts <= 0 no poll is made and the run times out. */
  lemma RunNoAttempts(base: string, domain: string, maxAttempts: int, script: seq<Reply>)
    requires maxAttempts <= 0
    requires CheckSpec(base, script).result.Ok?
    requires AnalyzeSpec(base, domain, true, Drop(script, 1)).result.Ok?
    ensures RunSpec(base, domain, maxAttempts, script).result == Err(Timeout)
    ensures RunSpec(base, domain, maxAttempts, script).events
         == [Requested(InfoUrl(base)), Requested(AnalyzeUrl(base, domain, true))]
  {
  }

  /** A server that answers every request with 200 and status IN_PROGRESS, as in
      internal/ssllabs/analyzer_test.go: three attempts end in a timeout after
      the check, the start call and exactly three polls, each followed by a sleep. */
  lemma RunTimeoutAgainstInProgressServer(base: string)
    ensures var inProgress := HttpReply(StatusOK, Decoded(Response("", "IN_PROGRESS", [])));
      var s := RunSpec(base, "example.com", 3, [inProgress, inProgress, inProgress, inProgress, inProgress]);
      var poll := Requested(AnalyzeUrl(base, "example.com", false));
      && s.result == Err(Timeout)
      && s.events == [Requested(InfoUrl(base)), Requested(AnalyzeUrl(base, "example.com", true)),
                      poll, Slept(PollDelay), poll, Slept(PollDelay), poll, Slept(PollDelay)]
      && s.rest == []
  {
    var inProgress := HttpReply(StatusOK, Decoded(Response("", "IN_PROGRESS", [])));
    var script := [inProgress, inProgress, inProgress, inProgress, inProgress];
    var rest := Drop(script, 2);
    forall j: nat | j < 3 ensures NonTerminal(ReplyAt(rest, j)) {
      assert ReplyAt(rest, j) == inProgress;
    }
    PollTimesOut(base, "example.com", 3, rest);
    var url := AnalyzeUrl(base, "example.com", false);
    assert Cycles(url, 1) == [Requested(url), Slept(PollDelay)];
    assert Cycles(url, 2) == [Requested(url), Slept(PollDelay), Requested(url), Slept(PollDelay)];
    assert Cycles(url, 3) == [Requested(url), Slept(PollDelay), Requested(url), Slept(PollDelay),
                              Requested(url), Slept(PollDelay)];
    assert Drop(rest, 3) == [];
    RunPolls(base, "example.com", 3, script);
  }
}
