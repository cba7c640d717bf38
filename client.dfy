/** The client object: the authentication scheme and credentials fixed at
    construction, the three rate-limit fields it updates from every first
    response, and the operations that drive the network. Each method is
    proved to do what the corresponding function of `Pipeline` describes. */
module DeskClient {
  import opened Wrappers
  import opened Int32
  import opened Headers
  import opened RateLimit
  import opened Transport
  import opened Pipeline

  /** The private `AuthenticationType` tag. */
  datatype AuthenticationType = Basic | OAuth

  /** The initial value of `ApiUrlBase`. */
  const DefaultApiUrlBase: string := "https://<YOUR_DESK_INSTANCE>.desk.com/api/v2"

  class DeskApiClient {
    const authType: AuthenticationType
    const apiUrlBase: string
    const userName: Option<string>
    const password: Option<string>
    const apiKey: Option<string>
    const apiSecret: Option<string>
    const apiToken: Option<string>
    const apiTokenSecret: Option<string>
    /** The network every `RestClient` of this object talks to. */
    const network: Network

    var rateLimit: int32
    var rateLimitRemaining: int32
    var secsUntilRateLimitReset: int32

    /** The three rate-limit fields as one value. */
    function State(): Tracker
      reads this
    {
      Tracker(rateLimit, rateLimitRemaining, secsUntilRateLimitReset)
    }

    /** `DeskApiClient()`: OAuth with the default base URL and no credentials. */
    constructor Default(network: Network)
      ensures authType == OAuth && apiUrlBase == DefaultApiUrlBase
      ensures userName.None? && password.None?
      ensures apiKey.None? && apiSecret.None? && apiToken.None? && apiTokenSecret.None?
      ensures State() == Unobserved && this.network == network
    {
      authType := OAuth;
      apiUrlBase := DefaultApiUrlBase;
      userName, password := None, None;
      apiKey, apiSecret, apiToken, apiTokenSecret := None, None, None, None;
      this.network := network;
      rateLimit, rateLimitRemaining, secsUntilRateLimitReset := 0, 0, 0;
    }

    /** `DeskApiClient(apiUrlBase, username, password)`: Basic. */
    constructor WithPassword(network: Network, apiUrlBase: string, username: string, password: string)
      ensures authType == Basic && this.apiUrlBase == apiUrlBase
      ensures userName == Some(username) && this.password == Some(password)
      ensures apiKey.None? && apiSecret.None? && apiToken.None? && apiTokenSecret.None?
      ensures State() == Unobserved && this.network == network
    {
      authType := Basic;
      this.apiUrlBase := apiUrlBase;
      userName, this.password := Some(username), Some(password);
      apiKey, apiSecret, apiToken, apiTokenSecret := None, None, None, None;
      this.network := network;
      rateLimit, rateLimitRemaining, secsUntilRateLimitReset := 0, 0, 0;
    }

    /** `DeskApiClient(apiUrlBase, apiKey, apiSecret, apiToken, apiTokenSecret)`: OAuth. */
    constructor WithOAuth(network: Network, apiUrlBase: string, apiKey: string, apiSecret: string,
                          apiToken: string, apiTokenSecret: string)
      ensures authType == OAuth && this.apiUrlBase == apiUrlBase
      ensures userName.None? && password.None?
      ensures this.apiKey == Some(apiKey) && this.apiSecret == Some(apiSecret)
      ensures this.apiToken == Some(apiToken) && this.apiTokenSecret == Some(apiTokenSecret)
      ensures State() == Unobserved && this.network == network
    {
      authType := OAuth;
      this.apiUrlBase := apiUrlBase;
      userName, password := None, None;
      this.apiKey, this.apiSecret, this.apiToken, this.apiTokenSecret := Some(apiKey), Some(apiSecret), Some(apiToken), Some(apiTokenSecret);
      this.network := network;
      rateLimit, rateLimitRemaining, secsUntilRateLimitReset := 0, 0, 0;
    }

    /** `GetClient()`: the authenticator is chosen by the tag alone — HTTP
        Basic with the user name and password for `Basic`, OAuth1 with the
        four API values otherwise — and the base URL is `apiUrlBase`. */
    function GetClient(): (c: RestClient)
      ensures c.baseUrl == apiUrlBase
      ensures c.authenticator.HttpBasic? <==> authType == Basic
      ensures c.authenticator.HttpBasic? ==> c.authenticator == HttpBasic(userName, password)
      ensures c.authenticator.OAuth1ProtectedResource? ==>
                c.authenticator == OAuth1ProtectedResource(apiKey, apiSecret, apiToken, apiTokenSecret)
    {
      match authType
      case Basic => RestClient(HttpBasic(userName, password), apiUrlBase)
      case OAuth => RestClient(OAuth1ProtectedResource(apiKey, apiSecret, apiToken, apiTokenSecret), apiUrlBase)
    }

    /** `CheckBurstLimits(headers)`: stores the header values when the limit
        reads as non-zero and then reports which threshold the new state has
        crossed. It sends nothing: the network is not in its frame. */
    method CheckBurstLimits(headers: Option<seq<Header>>) returns (advisory: Advisory)
      modifies this
      ensures State() == Observe(old(State()), headers)
      ensures advisory == if GetIntHeaderValue(headers, LimitHeader) == 0 then NoReport else AdvisoryFor(State())
    {
      var limit := GetIntHeaderValue(headers, LimitHeader);
      if limit == 0 {
        return NoReport;
      }
      rateLimit := limit;
      rateLimitRemaining := GetIntHeaderValue(headers, RemainingHeader);
      secsUntilRateLimitReset := GetIntHeaderValue(headers, ResetHeader);
      // rateLimit is not 0 here, so the two queries would not probe: their
      // answers are the state predicates.
      if Exceeding(State()) {
        advisory := ExceededReport;
      } else if Nearing(State(), OmittedThreshold) {
        advisory := NearingReport;
      } else {
        advisory := NoReport;
      }
    }

    /** `Call(request)`. */
    method Call(request: Request) returns (outcome: Raw)
      modifies this, network
      ensures var run := CallRun(old(State()), GetClient(), request, old(network.script));
              State() == run.tracker && outcome == run.result &&
              network.log == old(network.log) + run.events && network.script == run.rest
    {
      ghost var before := State();
      var client := GetClient();
      var response := network.Send(client, request);
      if response.errorException.Some? {
        return Threw(ResponseError(response.errorException.value));
      }
      ghost var retry := ObserveThenRetry(before, client, request, response, network.script);
      ghost var sent := network.log;
      var _ := CheckBurstLimits(Some(response.headers));
      if response.status == TooManyRequests {
        var milliseconds := Mul(secsUntilRateLimitReset, 1000);
        if milliseconds < 0 {
          return Threw(SleepOutOfRange(milliseconds));
        }
        network.Sleep(milliseconds);
        response := network.Send(client, request);
      }
      assert network.log == sent + retry.events;
      return Got(response);
    }

    /** `Call(resource, method)`. */
    method CallResource(resource: string, verb: HttpMethod) returns (outcome: Raw)
      modifies this, network
      ensures var run := CallRun(old(State()), GetClient(), GetRequest(verb, resource), old(network.script));
              State() == run.tracker && outcome == run.result &&
              network.log == old(network.log) + run.events && network.script == run.rest
    {
      outcome := Call(GetRequest(verb, resource));
    }

    /** `Execute<T>(request, jsonBody)`. */
    method Execute(request: Request, jsonBody: string) returns (outcome: Typed)
      modifies this, network
      ensures var run := ExecuteRun(old(State()), GetClient(), WithJsonBody(request, jsonBody), old(network.script));
              State() == run.tracker && outcome == run.result &&
              network.log == old(network.log) + run.events && network.script == run.rest
    {
      var client := GetClient();
      var prepared := WithJsonBody(request, jsonBody);
      var response := network.Send(client, prepared);
      var _ := CheckBurstLimits(Some(response.headers));
      if response.status == TooManyRequests {
        var milliseconds := Mul(secsUntilRateLimitReset, 1000);
        if milliseconds < 0 {
          return Failed(SleepOutOfRange(milliseconds));
        }
        network.Sleep(milliseconds);
        response := network.Send(client, prepared);
      }
      if response.status == UnprocessableEntity {
        return Absent;
      }
      if !(response.status == Created || response.status == OK) {
        return Failed(StatusFailure(response.status, response.description, response.content, response.errorException));
      }
      return Deserialized(response.content);
    }

    /** `IsExceedingApiLimits()`. */
    method IsExceedingApiLimits() returns (r: Result<bool, Fault>)
      modifies this, network
      ensures var p := ProbeIfUnobserved(old(State()), GetClient(), old(network.script));
              State() == p.tracker && r == QueryResult(p, Exceeding(p.tracker)) &&
              network.log == old(network.log) + p.events && network.script == p.rest
    {
      if rateLimit == 0 {
        var probe := CallResource("groups", Get);
        if probe.Threw? {
          return Failure(probe.fault);
        }
      }
      return Success(rateLimit > 0 && rateLimitRemaining <= 0);
    }

    /** `IsNearingApiLimits(remainingPercentageThreshold)`, with the
        `rateLimit > 0` test made before the division. */
    method IsNearingApiLimits(remainingPercentageThreshold: int32) returns (r: Result<bool, Fault>)
      modifies this, network
      ensures var p := ProbeIfUnobserved(old(State()), GetClient(), old(network.script));
              State() == p.tracker && r == QueryResult(p, Nearing(p.tracker, remainingPercentageThreshold)) &&
              network.log == old(network.log) + p.events && network.script == p.rest
    {
      if rateLimit == 0 {
        var probe := CallResource("groups", Get);
        if probe.Threw? {
          return Failure(probe.fault);
        }
      }
      var remainingThreshold := if remainingPercentageThreshold > 0 then remainingPercentageThreshold else DefaultThreshold;
      if rateLimit > 0 {
        var burstRatePercent := Div(Mul(rateLimitRemaining, 100), rateLimit);
        return Success(burstRatePercent.value <= remainingThreshold);
      }
      return Success(false);
    }
  }
}
