/** What the client hands to RestSharp and gets back: requests, responses,
    the authenticator a `RestClient` carries, and a scripted network that
    answers each exchange with the next response of its script. */
module Transport {
  import opened Wrappers
  import opened Headers

  /** RestSharp's `Method`. */
  datatype HttpMethod = Get | Post | Put | Delete | Head | Options | Patch | Merge | Copy

  /** An `IRestRequest`: its method (`verb`), resource path, the headers and the request
      body added to it. The same value is resent on a retry. */
  datatype Request = Request(verb: HttpMethod, resource: string, headers: seq<Header>, body: Option<string>)

  /** An `IRestResponse`: the numeric status, its description, the response
      headers, the raw content and the `ErrorException` RestSharp attaches
      when the exchange itself failed. */
  datatype Response = Response(
    status: int,
    description: string,
    headers: seq<Header>,
    content: string,
    errorException: Option<string>)

  /** The authenticator `GetClient` installs. Credentials a constructor did
      not set are null (`None`). */
  datatype Authenticator =
    | HttpBasic(userName: Option<string>, password: Option<string>)
    | OAuth1ProtectedResource(consumerKey: Option<string>, consumerSecret: Option<string>,
                              accessToken: Option<string>, accessTokenSecret: Option<string>)

  /** The `RestClient` that `GetClient` builds for one call. */
  datatype RestClient = RestClient(authenticator: Authenticator, baseUrl: string)

  /** What the outside world sees of a call: an exchange on the network, or
      the calling thread sleeping for a number of milliseconds. */
  datatype Event = Exchange(client: RestClient, request: Request) | Slept(milliseconds: nat)

  /** The answer of a network that has nothing more to say: RestSharp reports
      a failed exchange as status 0 with an error attached. */
  const NoResponse: Response := Response(0, "", [], "", Some("no response"))

  /** The response the next exchange gets, and the script after it. */
  function Answer(script: seq<Response>): (r: (Response, seq<Response>))
    ensures script != [] ==> [r.0] + r.1 == script
    ensures script == [] ==> r.0.errorException.Some? && r.1 == []
  {
    if script == [] then (NoResponse, []) else (script[0], script[1..])
  }

  /** The network: what the server will answer, in order, and a record of
      every exchange and sleep. */
  class Network {
    var script: seq<Response>
    ghost var log: seq<Event>

    constructor (script: seq<Response>)
      ensures this.script == script && log == []
    {
      this.script := script;
      log := [];
    }

    /** One exchange: `client.Execute(request)`. */
    method Send(client: RestClient, request: Request) returns (response: Response)
      modifies this
      ensures (response, script) == Answer(old(script))
      ensures log == old(log) + [Exchange(client, request)]
    {
      if script == [] {
        response := NoResponse;
      } else {
        response := script[0];
        script := script[1..];
      }
      log := log + [Exchange(client, request)];
    }

    /** `Thread.Sleep(milliseconds)`; only the duration is recorded. */
    method Sleep(milliseconds: nat)
      modifies this
      ensures script == old(script)
      ensures log == old(log) + [Slept(milliseconds)]
    {
      log := log + [Slept(milliseconds)];
    }
  }
}
