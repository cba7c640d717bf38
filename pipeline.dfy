/** The request pipeline as functions of the tracker state and the script of
    responses: what `Call`, `Execute` and the probe inside the two queries
    send, sleep, store and return. The methods of `DeskApiClient` are proved
    to do exactly this. */
module Pipeline {
  import opened Wrappers
  import opened Int32
  import opened Headers
  import opened RateLimit
  import opened Transport

  const OK: int := 200
  const Created: int := 201
  const UnprocessableEntity: int := 422
  const TooManyRequests: int := 429

  /** The exceptions a call raises. */
  datatype Fault =
      /** `Call`: "Error retrieving response", with the response's
          `ErrorException` as inner exception. */
    | ResponseError(inner: string)
      /** `Execute`: a status other than 200, 201 and 422; the message holds
          the status, its description and the content, and the response's
          `ErrorException`, when there is one, is the inner exception. */
    | StatusFailure(status: int, description: string, content: string, cause: Option<string>)
      /** `Thread.Sleep` given a negative duration: ArgumentOutOfRangeException. */
    | SleepOutOfRange(milliseconds: int)

  /** What `Call` ends with: the response it returns, or the exception. */
  datatype Raw = Got(response: Response) | Threw(fault: Fault)

  /** What `Execute<T>` ends with: `JsonConvert.DeserializeObject<T>` of the
      content (kept as the content itself), `default(T)`, or the exception. */
  datatype Typed = Deserialized(content: string) | Absent | Failed(fault: Fault)

  /** One run of the pipeline: the tracker state it leaves, its result, what
      it did on the network, and the responses still to come. */
  datatype Run<R> = Run(tracker: Tracker, result: R, events: seq<Event>, rest: seq<Response>)

  /** `GetRequest(method, resource)`: a fresh request without headers or body. */
  function GetRequest(verb: HttpMethod, resource: string): Request {
    Request(verb, resource, [], None)
  }

  /** The request the two queries send when nothing has been observed. */
  const ProbeRequest: Request := GetRequest(Get, "groups")

  /** The request `Execute` sends: the caller's request with a JSON
      `Content-Type` header and the JSON text as body. */
  function WithJsonBody(request: Request, jsonBody: string): Request {
    request.(headers := request.headers + [Header("Content-Type", "application/json")], body := Some(jsonBody))
  }

  /** `Thread.Sleep(secsUntilRateLimitReset * 1000)`: the product wraps to 32
      bits, and a negative duration raises. */
  function SleepArgument(seconds: int32): (r: Result<nat, Fault>)
    ensures r.Success? <==> Mul(seconds, 1000) >= 0
    ensures r.Success? ==> r.value == Mul(seconds, 1000)
    ensures r.Failure? ==> r.error == SleepOutOfRange(Mul(seconds, 1000))
  {
    var ms := Mul(seconds, 1000);
    if ms < 0 then Failure(SleepOutOfRange(ms)) else Success(ms)
  }

  /** A reset window of up to 2147483 seconds is slept in full. */
  lemma SleepWholeWindow(seconds: int32)
    requires 0 <= seconds <= MaxValue / 1000
    ensures SleepArgument(seconds) == Success(seconds * 1000)
  {
  }

  /** The wrapped product is never -1, the value `Thread.Sleep` reads as
      "wait forever": only the negative-duration exception is possible. */
  lemma SleepNeverInfinite(seconds: int32)
    ensures Mul(seconds, 1000) != -1
  {
    var r := Mul(seconds, 1000);
    var k := (seconds * 1000 - r) / Modulus;
    assert seconds * 1000 - r == k * Modulus;
  }

  /** Lines 110-120 and 163-173 after the first response has arrived: read
      its headers into the tracker, and on 429 sleep for the stored reset
      window (the 429's own Reset header counts only when its limit header
      reads non-zero) and resend the same request once. The retry's headers are
      not read. Both results are raw responses, or the sleep's exception. */
  function ObserveThenRetry(t: Tracker, client: RestClient, request: Request,
                            first: Response, rest: seq<Response>): (r: Run<Result<Response, Fault>>)
    ensures r.tracker == Observe(t, Some(first.headers))
    ensures r.events != [] <==> first.status == TooManyRequests && SleepArgument(r.tracker.reset).Success?
    ensures r.events != [] ==> r.events == [Slept(SleepArgument(r.tracker.reset).value), Exchange(client, request)]
    ensures r.events == [] ==> r.rest == rest
    ensures first.status != TooManyRequests ==> r.result == Success(first)
    ensures r.events != [] ==> r.result == Success(Answer(rest).0) && r.rest == Answer(rest).1
    ensures first.status == TooManyRequests && r.events == [] ==>
              r.result == Failure(SleepOutOfRange(Mul(r.tracker.reset, 1000)))
  {
    var observed := Observe(t, Some(first.headers));
    if first.status != TooManyRequests then
      Run(observed, Success(first), [], rest)
    else
      match SleepArgument(observed.reset)
      case Failure(f) => Run(observed, Failure(f), [], rest)
      case Success(ms) =>
        var (second, remaining) := Answer(rest);
        Run(observed, Success(second), [Slept(ms), Exchange(client, request)], remaining)
  }

  /** `Call(request)`: one exchange; an `ErrorException` on it raises before
      anything is read; otherwise the headers are read and a 429 is retried
      once, and the final response is returned as it came. */
  function CallRun(t: Tracker, client: RestClient, request: Request, script: seq<Response>): (r: Run<Raw>)
    ensures |r.events| == 1 || |r.events| == 3
    ensures r.events[0] == Exchange(client, request)
    ensures r.tracker == t || r.tracker == Observe(t, Some(Answer(script).0.headers))
  {
    var (first, rest) := Answer(script);
    if first.errorException.Some? then
      Run(t, Threw(ResponseError(first.errorException.value)), [Exchange(client, request)], rest)
    else
      var run := ObserveThenRetry(t, client, request, first, rest);
      Run(run.tracker,
          match run.result case Success(r) => Got(r) case Failure(f) => Threw(f),
          [Exchange(client, request)] + run.events,
          run.rest)
  }

  /** Lines 122-143: how `Execute` reads the final response. */
  function Classify(response: Response): (r: Typed)
    ensures r.Failed? ==> r.fault.StatusFailure? && r.fault.status == response.status &&
                          response.status !in {OK, Created, UnprocessableEntity}
    ensures r.Deserialized? ==> response.status in {OK, Created} && r.content == response.content
  {
    if response.status == UnprocessableEntity then Absent
    else if response.status != Created && response.status != OK then
      Failed(StatusFailure(response.status, response.description, response.content, response.errorException))
    else Deserialized(response.content)
  }

  /** `Execute<T>(request, jsonBody)` once the JSON body is attached: like
      `Call` but without the `ErrorException` check on the first response,
      and with the final response classified. */
  function ExecuteRun(t: Tracker, client: RestClient, request: Request, script: seq<Response>): (r: Run<Typed>)
    ensures |r.events| == 1 || |r.events| == 3
    ensures r.events[0] == Exchange(client, request)
    ensures r.tracker == Observe(t, Some(Answer(script).0.headers))
  {
    var (first, rest) := Answer(script);
    var run := ObserveThenRetry(t, client, request, first, rest);
    Run(run.tracker,
        match run.result case Success(r) => Classify(r) case Failure(f) => Failed(f),
        [Exchange(client, request)] + run.events,
        run.rest)
  }

  /** The probe at the start of `IsExceedingApiLimits` and
      `IsNearingApiLimits`: one `Call("groups", GET)` when the limit is 0,
      nothing otherwise. An exception of the probe is the query's. */
  datatype Probed = Probed(tracker: Tracker, fault: Option<Fault>, events: seq<Event>, rest: seq<Response>)

  function ProbeIfUnobserved(t: Tracker, client: RestClient, script: seq<Response>): (r: Probed)
    ensures t.limit != 0 ==> r == Probed(t, None, [], script)
    ensures t.limit == 0 ==> |r.events| == 1 || |r.events| == 3
    ensures r.fault.Some? ==> !r.fault.value.StatusFailure?
  {
    if t.limit != 0 then Probed(t, None, [], script)
    else
      var run := CallRun(t, client, ProbeRequest, script);
      Probed(run.tracker, if run.result.Threw? then Some(run.result.fault) else None, run.events, run.rest)
  }

  /** A query's result: the probe's exception, or the answer on the state
      the probe left. */
  function QueryResult(p: Probed, answer: bool): Result<bool, Fault> {
    if p.fault.Some? then Failure(p.fault.value) else Success(answer)
  }

  // ---------------------------------------------------------------------------
  // At most two exchanges, the second only after a 429 and a sleep
  // ---------------------------------------------------------------------------

  /** The condition under which `Call` and `Execute` resend: the first
      response is a 429 and the reset window stored after reading it can be
      slept. */
  predicate Retries(t: Tracker, first: Response) {
    first.status == TooManyRequests && SleepArgument(Observe(t, Some(first.headers)).reset).Success?
  }

  /** `Call` sends its request once, or — exactly when the first response has
      no error and is a 429 whose reset window can be slept — sleeps for that
      window (the stored one, after the first response's headers have been
      read) and sends the same
      request a second time; no other event happens. */
  lemma CallExchanges(t: Tracker, client: RestClient, request: Request, script: seq<Response>)
    ensures var first := Answer(script).0;
            var run := CallRun(t, client, request, script);
            if first.errorException.None? && Retries(t, first) then
              run.events == [Exchange(client, request),
                             Slept(Mul(Observe(t, Some(first.headers)).reset, 1000)),
                             Exchange(client, request)]
            else run.events == [Exchange(client, request)]
  {
  }

  /** `Execute` sends twice exactly when the first response is a 429 whose
      reset window can be slept, whether or not it carries an error. */
  lemma ExecuteExchanges(t: Tracker, client: RestClient, request: Request, script: seq<Response>)
    ensures var first := Answer(script).0;
            var run := ExecuteRun(t, client, request, script);
            if Retries(t, first) then
              run.events == [Exchange(client, request),
                             Slept(Mul(Observe(t, Some(first.headers)).reset, 1000)),
                             Exchange(client, request)]
            else run.events == [Exchange(client, request)]
  {
  }

  /** The sleep uses the stored window, not the 429's own Reset header: when
      the 429's limit header reads 0 (or is missing or does not parse), the
      window is the one stored before, whatever the Reset header says. */
  lemma StaleWindowSlept(t: Tracker, client: RestClient, request: Request, script: seq<Response>)
    requires script != [] && script[0].errorException.None? && script[0].status == TooManyRequests
    requires GetIntHeaderValue(Some(script[0].headers), LimitHeader) == 0
    requires 0 <= t.reset <= MaxValue / 1000
    ensures CallRun(t, client, request, script).events ==
              [Exchange(client, request), Slept(t.reset * 1000), Exchange(client, request)]
    ensures ExecuteRun(t, client, request, script).events ==
              [Exchange(client, request), Slept(t.reset * 1000), Exchange(client, request)]
  {
    assert Observe(t, Some(script[0].headers)) == t;
    SleepWholeWindow(t.reset);
    CallExchanges(t, client, request, script);
    ExecuteExchanges(t, client, request, script);
  }

  /** Each run consumes one response per exchange. */
  lemma RunsConsumeOnePerExchange(t: Tracker, client: RestClient, request: Request, script: seq<Response>)
    requires |script| >= 2
    ensures var run := CallRun(t, client, request, script);
            run.rest == if |run.events| == 1 then script[1..] else script[2..]
    ensures var run := ExecuteRun(t, client, request, script);
            run.rest == if |run.events| == 1 then script[1..] else script[2..]
  {
    CallExchanges(t, client, request, script);
    ExecuteExchanges(t, client, request, script);
    assert Answer(script[1..]) == (script[1], script[2..]);
  }

  /** The tracker is read from the first response only: two scripts that
      agree on it leave the same state, and that state is the first
      response's headers read into the old one (or the old one when the
      exchange failed, for `Call`). */
  lemma RetryHeadersIgnored(t: Tracker, client: RestClient, request: Request, s1: seq<Response>, s2: seq<Response>)
    requires s1 != [] && s2 != [] && s1[0] == s2[0]
    ensures CallRun(t, client, request, s1).tracker == CallRun(t, client, request, s2).tracker
    ensures ExecuteRun(t, client, request, s1).tracker == ExecuteRun(t, client, request, s2).tracker
    ensures CallRun(t, client, request, s1).tracker ==
              if s1[0].errorException.Some? then t else Observe(t, Some(s1[0].headers))
    ensures ExecuteRun(t, client, request, s1).tracker == Observe(t, Some(s1[0].headers))
  {
  }

  // ---------------------------------------------------------------------------
  // What Call returns
  // ---------------------------------------------------------------------------

  /** `Call` raises, leaving the tracker alone, when the first response
      carries an error; raises the sleep's exception when a 429 names a
      window that cannot be slept; and otherwise returns the final response
      unchanged — the first one, or the second after a 429 (even if that one
      is a 429 again or carries an error). */
  lemma CallResult(t: Tracker, client: RestClient, request: Request, script: seq<Response>)
    ensures var (first, rest) := Answer(script);
            var run := CallRun(t, client, request, script);
            var observed := Observe(t, Some(first.headers));
            if first.errorException.Some? then
              run.result == Threw(ResponseError(first.errorException.value)) && run.tracker == t
            else if first.status != TooManyRequests then
              run.result == Got(first)
            else if Retries(t, first) then
              run.result == Got(Answer(rest).0)
            else
              run.result == Threw(SleepOutOfRange(Mul(observed.reset, 1000)))
  {
  }

  // ---------------------------------------------------------------------------
  // What Execute returns
  // ---------------------------------------------------------------------------

  /** The final status decides `Execute`'s result: 422 gives `default(T)`,
      200 and 201 give the content, anything else raises with the status,
      its description, the content and the error as cause. */
  lemma ClassifyOutcomes(response: Response)
    ensures Classify(response) == Absent <==> response.status == UnprocessableEntity
    ensures Classify(response) == Deserialized(response.content) <==> response.status in {OK, Created}
    ensures Classify(response).Failed? <==> response.status !in {OK, Created, UnprocessableEntity}
    ensures Classify(response).Failed? ==>
              Classify(response).fault ==
                StatusFailure(response.status, response.description, response.content, response.errorException)
  {
  }

  /** What `Execute` returns, for every script: the retry's response
      classified after a sleepable 429, the sleep's exception after a 429
      whose window cannot be slept, and otherwise the first response
      classified, whether or not it carries an error. */
  lemma ExecuteResult(t: Tracker, client: RestClient, request: Request, script: seq<Response>)
    ensures var (first, rest) := Answer(script);
            var run := ExecuteRun(t, client, request, script);
            if Retries(t, first) then
              run.result == Classify(Answer(rest).0)
            else if first.status == TooManyRequests then
              run.result == Failed(SleepOutOfRange(Mul(Observe(t, Some(first.headers)).reset, 1000)))
            else
              run.result == Classify(first)
  {
  }

  /** A transport failure that `Execute` reads as a status failure keeps the
      error as the exception's cause, as at lines 135-139. */
  lemma ExecuteKeepsErrorAsCause(t: Tracker, client: RestClient, request: Request, script: seq<Response>)
    requires script != [] && script[0].errorException.Some?
    requires script[0].status !in {OK, Created, UnprocessableEntity, TooManyRequests}
    ensures ExecuteRun(t, client, request, script).result ==
              Failed(StatusFailure(script[0].status, script[0].description, script[0].content, script[0].errorException))
  {
    ExecuteResult(t, client, request, script);
  }

  /** Where `Call` would not raise on the first response, `Execute` does the
      same exchanges and sleeps, leaves the same state, and classifies the
      response `Call` returns. */
  lemma ExecuteIsClassifiedCall(t: Tracker, client: RestClient, request: Request, script: seq<Response>)
    requires Answer(script).0.errorException.None?
    ensures var call := CallRun(t, client, request, script);
            var exec := ExecuteRun(t, client, request, script);
            exec.tracker == call.tracker && exec.events == call.events && exec.rest == call.rest &&
            exec.result == match call.result case Got(r) => Classify(r) case Threw(f) => Failed(f)
  {
  }

  /** A second 429 is not retried: `Call` returns it and `Execute` raises
      with status 429. */
  lemma SecondThrottleSurfaced(t: Tracker, client: RestClient, request: Request, script: seq<Response>)
    requires |script| >= 2
    requires script[0].errorException.None? && Retries(t, script[0]) && script[1].status == TooManyRequests
    ensures CallRun(t, client, request, script).result == Got(script[1])
    ensures ExecuteRun(t, client, request, script).result ==
              Failed(StatusFailure(TooManyRequests, script[1].description, script[1].content, script[1].errorException))
    ensures |CallRun(t, client, request, script).events| == 3
  {
    assert Answer(script[1..]).0 == script[1];
    CallResult(t, client, request, script);
    CallExchanges(t, client, request, script);
    ExecuteIsClassifiedCall(t, client, request, script);
  }

  // ---------------------------------------------------------------------------
  // Scenarios
  // ---------------------------------------------------------------------------

  /** A 200 with a body: `Execute` returns the body after a single exchange. */
  lemma ScenarioSuccess(t: Tracker, client: RestClient, request: Request, ok: Response, later: seq<Response>)
    requires ok.status == OK
    ensures ExecuteRun(t, client, request, [ok] + later).result == Deserialized(ok.content)
    ensures ExecuteRun(t, client, request, [ok] + later).events == [Exchange(client, request)]
  {
  }

  /** A 429 whose reset header says 2 seconds, then a 200: `Execute` sleeps
      2000 ms between two exchanges of the same request and returns the
      second response's body. */
  lemma ScenarioThrottledThenOk(t: Tracker, client: RestClient, request: Request,
                                limit: int32, description: string, content: string, ok: Response)
    requires limit != 0 && ok.status == OK
    ensures var throttled := Response(TooManyRequests, description, TrioHeaders(limit, 0, 2), content, None);
            var run := ExecuteRun(t, client, request, [throttled, ok]);
            run.result == Deserialized(ok.content) &&
            run.events == [Exchange(client, request), Slept(2000), Exchange(client, request)] &&
            run.tracker == Tracker(limit, 0, 2)
  {
    ObserveTrio(t, limit, 0, 2);
  }

  /** A 422: `Execute` returns `default(T)`, `Call` returns the response with
      its content verbatim. */
  lemma ScenarioRejected(t: Tracker, client: RestClient, request: Request, rejected: Response, later: seq<Response>)
    requires rejected.status == UnprocessableEntity && rejected.errorException.None?
    ensures ExecuteRun(t, client, request, [rejected] + later).result == Absent
    ensures CallRun(t, client, request, [rejected] + later).result == Got(rejected)
  {
  }

  // ---------------------------------------------------------------------------
  // The probe
  // ---------------------------------------------------------------------------

  /** The queries probe only when the limit is 0, and then with exactly one
      `Call` of `groups`: one exchange, or two around a sleep. */
  lemma ProbeAtMostOnce(t: Tracker, client: RestClient, script: seq<Response>)
    ensures t.limit != 0 ==> ProbeIfUnobserved(t, client, script) == Probed(t, None, [], script)
    ensures t.limit == 0 ==>
              var p := ProbeIfUnobserved(t, client, script);
              var call := CallRun(t, client, ProbeRequest, script);
              p.tracker == call.tracker && p.events == call.events && p.rest == call.rest &&
              (p.fault.Some? <==> call.result.Threw?) &&
              p.events[0] == Exchange(client, ProbeRequest) &&
              (|p.events| == 1 || (|p.events| == 3 && p.events[2] == Exchange(client, ProbeRequest)))
  {
    CallExchanges(t, client, ProbeRequest, script);
  }

  /** A probe answered without a usable limit header leaves the state
      unobserved, and both guarded queries then answer false after that one
      exchange instead of probing again. */
  lemma ProbeWithoutLimitHeader(client: RestClient, first: Response, later: seq<Response>, argument: int32)
    requires first.errorException.None? && first.status != TooManyRequests
    requires GetIntHeaderValue(Some(first.headers), LimitHeader) == 0
    ensures var p := ProbeIfUnobserved(Unobserved, client, [first] + later);
            p.tracker == Unobserved && p.fault.None? && |p.events| == 1 &&
            QueryResult(p, Exceeding(p.tracker)) == Success(false) &&
            QueryResult(p, Nearing(p.tracker, argument)) == Success(false)
  {
  }
}
