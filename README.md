# Desk.com API client: the request pipeline

A Dafny model of the request pipeline of the Desk.com C# API client
(`DeskApiClient/DeskApiClient.cs`). The client keeps three integer fields
— `rateLimit`, `rateLimitRemaining` and `secsUntilRateLimitReset` — that it
overwrites from the `X-Rate-Limit-*` headers of a first response whose limit
header reads non-zero (`Call` reads no headers from a first response that
carries an error, and neither method reads those of the retry). It
answers two threshold queries from them, probing the `groups` endpoint once
when nothing has been observed yet. `Call` (the raw response) and
`Execute<T>` (the typed result) send a request and, after a 429, sleep for the
reset window and resend it once. `Execute` then reads the final status:
422 gives `default(T)`, 200/201 gives the deserialized body, and any other
status raises. The constructors fix HTTP Basic or OAuth1 authentication, and
`GetClient` installs the matching authenticator.

Layout, one module per file:

- `wrappers.dfy` (`Wrappers`): `Option` for C# `null`, `Result` for a value or an exception.
- `int32.dfy` (`Int32`): C# `int`. Unchecked multiplication wraps to 32 bits. `/` truncates toward zero and raises on a zero divisor or on `int.MinValue / -1`.
- `headers.dfy` (`Headers`): response headers; `int.TryParse` (`ParseInt32`) with its inverse `FormatInt32`; the `FirstOrDefault` lookup and `GetIntHeaderValue`.
- `ratelimit.dfy` (`RateLimit`): the tracker state as a value (`Tracker`); what `CheckBurstLimits` stores (`Observe`); the two threshold predicates.
- `transport.dfy` (`Transport`): requests, responses, authenticators; a `Network` class that answers each exchange with the next response of a script and records every exchange and every sleep in a ghost log.
- `pipeline.dfy` (`Pipeline`): `Call`, `Execute` and the query probe as functions of the tracker state and the script (`CallRun`, `ExecuteRun`, `ProbeIfUnobserved`), with the lemmas about them.
- `client.dfy` (`DeskClient`): the `DeskApiClient` class. Its fields are the source's. Each method's postcondition ties the new fields, its result and the network log to the matching `Pipeline` function.

Modelling choices:

- The network is a parameter of the constructors (a `Network` object). When its script runs out it answers as RestSharp does for a failed exchange: status 0 with an error attached.
- `Thread.Sleep` only appends its duration to the ghost log. Its argument is `secsUntilRateLimitReset * 1000` wrapped to 32 bits, and a negative value raises `ArgumentOutOfRangeException`, as `Thread.Sleep` does.
- `JsonConvert.DeserializeObject<T>` is left as the content it would read (`Deserialized(content)`); `default(T)` is `Absent`.
- The class and the `Pipeline` functions are built on the corrected halves of the two findings below: the documented lookup `GetIntHeaderValue` (through `Observe`) and the guarded threshold test `Nearing`. So `CheckBurstLimits`, `Call`, `Execute` and the two queries never raise the NullReferenceException, DivideByZeroException or OverflowException that the source as written raises there. The as-written behaviour is modelled separately: `GetIntHeaderValueAsWritten` for the lookup, `NearingAsWritten` for the threshold test, and `CheckAsWritten` for `CheckBurstLimits` as a whole, with its exceptions and its partial updates.
- `CheckBurstLimits` calls the two query methods only after storing a non-zero `rateLimit`, so neither of them probes there. The model therefore evaluates `Exceeding` and `Nearing` on the stored state, and it returns which log branch was taken.
- Header names are compared ordinally and case-sensitively, as C# `==` does. `int.TryParse` follows `NumberStyles.Integer` in the invariant culture, except for trailing NUL characters (see "Left out").

## Model

| member | source | states |
|---|---|---|
| `Int32.Mul` | DeskApiClient/DeskApiClient.cs:310 | the 32-bit product is congruent to the exact one modulo 2^32 and equals it when it fits |
| `Int32.Wrap` | DeskApiClient/DeskApiClient.cs:310 | the int32 value congruent to the argument modulo 2^32, the argument itself when it fits |
| `Int32.TruncDiv` | DeskApiClient/DeskApiClient.cs:310 | the quotient rounds toward zero: remainder smaller than the divisor in magnitude, never of the opposite sign to the dividend |
| `Int32.Div` | DeskApiClient/DeskApiClient.cs:310 | C# `/` raises DivideByZero exactly for a zero divisor and Overflow exactly for `int.MinValue / -1`, otherwise truncates |
| `Headers.ParseInt32` | DeskApiClient/DeskApiClient.cs:245 | `int.TryParse`: a string that parses contains a digit (what a parse means is stated by `ParseSound`) |
| `Headers.ParseSound` | DeskApiClient/DeskApiClient.cs:245 | a successful parse is exactly white space, an optional `+` or `-`, one or more digits and white space, and its value is the signed value of those digits |
| `Headers.ParseWellFormed` | DeskApiClient/DeskApiClient.cs:245 | conversely, every string of that shape parses as the signed value of its digits when it fits in an int, and fails when it does not |
| `Headers.ParseFormat` | DeskApiClient/DeskApiClient.cs:245 | `int.TryParse` reads back every int printed by `ToString`, with any white space before and after it |
| `Headers.ParseOutOfRange` | DeskApiClient/DeskApiClient.cs:245 | a digit string whose signed value lies outside the int range does not parse |
| `Headers.NoDigitNoNumber` | DeskApiClient/DeskApiClient.cs:245 | the scan of a value containing no digit fails |
| `Headers.FirstIndex` | DeskApiClient/DeskApiClient.cs:244 | finds the first header with the name, and finds nothing exactly when no header has it |
| `Headers.GetIntHeaderValue` | DeskApiClient/DeskApiClient.cs:233-249 | 0 for a null collection or a missing name; otherwise the parsed value of the first header with the name, 0 if it does not parse |
| `Headers.GetIntHeaderValueAsWritten` | DeskApiClient/DeskApiClient.cs:242-245 | the lookup as written raises NullReference exactly when a non-null collection lacks the name, and otherwise agrees with `GetIntHeaderValue` |
| `Headers.AbsentHeaderDereferencesNull` | DeskApiClient/DeskApiClient.cs:234-245 | a collection without the name makes the as-written lookup raise where the documented one returns 0 |
| `RateLimit.Observe` | DeskApiClient/DeskApiClient.cs:257-264 | the stored state with the documented lookup: a null collection leaves it alone, and the result is either the old state or has a non-zero limit, so an observed client never reads as unobserved again |
| `RateLimit.Exceeding` | DeskApiClient/DeskApiClient.cs:289-293 | `IsExceedingApiLimits` on the state it reads: a positive limit and nothing remaining (its properties are in `ExceedingAfterTrio`, `ExceedingImpliesNearing`) |
| `RateLimit.Percent` | DeskApiClient/DeskApiClient.cs:310 | the wrapped `remaining * 100` divided by a positive limit, rounded toward zero: remainder smaller than the limit and of the dividend's sign |
| `RateLimit.Nearing` | DeskApiClient/DeskApiClient.cs:309-316 | `IsNearingApiLimits` with the guard before the division (its meaning is stated by `NearingMeaning`) |
| `RateLimit.AdvisoryFor` | DeskApiClient/DeskApiClient.cs:267-274 | "exceeded" is reported exactly when the state is exceeding, "nearing" exactly when it is not exceeding and the guarded test holds, and nothing otherwise (so a non-positive limit reports nothing) |
| `RateLimit.CheckAsWritten` | DeskApiClient/DeskApiClient.cs:242-275 | `CheckBurstLimits` as written: a null collection changes nothing; NullReference exactly when the limit header is missing, or the limit is non-zero and the Remaining or Reset header is missing; Overflow exactly when all three are present, the limit reads -1 and the wrapped product is int.MinValue; never DivideByZero; without an exception the state is `Observe`'s and the logged branch `AdvisoryFor`'s |
| `RateLimit.MissingLimitRaises` | DeskApiClient/DeskApiClient.cs:244-245 | a response without a limit header raises as written before anything is stored, where the documented lookup leaves the state alone |
| `RateLimit.MissingRemainingStoresLimitOnly` | DeskApiClient/DeskApiClient.cs:262-263 | a non-zero limit without a Remaining header is stored before the lookup raises, leaving the old remaining count and window beside it; the documented lookup stores 0 |
| `RateLimit.MissingResetStoresLimitAndRemaining` | DeskApiClient/DeskApiClient.cs:262-264 | with the Reset header missing, the limit and remaining count are stored before the lookup raises, leaving the old window; the documented lookup stores 0 |
| `RateLimit.CheckOverflowsOnNegativeLimit` | DeskApiClient/DeskApiClient.cs:262-312 | the trio limit -1, remaining 536870912 is stored in full and then `CheckBurstLimits` raises OverflowException from the nearing test |
| `RateLimit.EffectiveThreshold` | DeskApiClient/DeskApiClient.cs:309 | the threshold is the argument when positive and 85 otherwise |
| `RateLimit.NearingAsWritten` | DeskApiClient/DeskApiClient.cs:309-316 | dividing before the guard raises DivideByZero exactly when the limit is 0 and Overflow exactly when the limit is -1 and the wrapped product is int.MinValue; otherwise it agrees with the guarded test |
| `RateLimit.ObserveKeepsStateWithoutLimit` | DeskApiClient/DeskApiClient.cs:259-260 | with the documented lookup, a null collection, or a limit header that is missing, unparsable or 0, leaves all three fields unchanged (as written a missing one raises: `MissingLimitRaises`) |
| `RateLimit.ObserveReplacesState` | DeskApiClient/DeskApiClient.cs:262-264 | with the documented lookup, a non-zero limit replaces all three fields by the header values, missing ones becoming 0, whatever the old state was (as written a missing one raises: `MissingRemainingStoresLimitOnly`, `MissingResetStoresLimitAndRemaining`) |
| `RateLimit.ObserveIdempotent` | DeskApiClient/DeskApiClient.cs:257-264 | reading the same headers twice leaves the same state as reading them once |
| `RateLimit.ObserveTrio` | DeskApiClient/DeskApiClient.cs:259-264 | a well-formed header trio with a non-zero limit is stored exactly |
| `RateLimit.ExceedingAfterTrio` | DeskApiClient/DeskApiClient.cs:289-293 | after a trio, exceeding holds iff the limit is positive and the remaining count is at most 0 |
| `RateLimit.NearingMeaning` | DeskApiClient/DeskApiClient.cs:309-316 | for a positive limit and a product that does not wrap (remaining of either sign), nearing holds iff remaining*100 < (threshold+1)*limit, that is, the whole remaining percentage is at most the threshold |
| `RateLimit.ExceedingImpliesNearing` | DeskApiClient/DeskApiClient.cs:289-316 | without overflow, an exceeding state is also nearing |
| `RateLimit.NegativeLimitIsQuiet` | DeskApiClient/DeskApiClient.cs:267-274 | a negative limit is neither exceeding nor nearing, and nothing is logged |
| `RateLimit.NearingWrapsForLargeRemaining` | DeskApiClient/DeskApiClient.cs:310 | the 32-bit product makes 25,000,000 of 25,000,000 read as nearing |
| `RateLimit.TenOfHundredRemaining` | DeskApiClient/DeskApiClient.cs:282-317 | with limit 100 and 10 remaining the client is nearing at the default threshold and not exceeding |
| `RateLimit.UnobservedDividesByZero` | DeskApiClient/DeskApiClient.cs:304-312 | with limit 0 the as-written test raises DivideByZero while the guarded one answers false |
| `RateLimit.NegativeLimitOverflows` | DeskApiClient/DeskApiClient.cs:262-271 | headers with limit -1 and remaining 536870912 lead to a state where the as-written test raises Overflow while the guarded one answers false |
| `Transport.Answer` | DeskApiClient/DeskApiClient.cs:155 | an exchange takes the head of the script and leaves its tail, so nothing is lost or reordered; an empty script answers with an error and stays empty |
| `Transport.Network.Send` | DeskApiClient/DeskApiClient.cs:155 | one exchange consumes one response and logs the client and request sent |
| `Transport.Network.Sleep` | DeskApiClient/DeskApiClient.cs:170 | a sleep logs its duration and consumes nothing |
| `Pipeline.GetRequest` | DeskApiClient/DeskApiClient.cs:197-205 | definition: a fresh request with the given method and resource and no headers or body |
| `Pipeline.WithJsonBody` | DeskApiClient/DeskApiClient.cs:105-108 | definition: the typed path adds the JSON content type and the JSON body and keeps method and resource |
| `Pipeline.SleepArgument` | DeskApiClient/DeskApiClient.cs:117 | the sleep lasts the wrapped secs*1000 and raises exactly when that is negative |
| `Pipeline.SleepWholeWindow` | DeskApiClient/DeskApiClient.cs:170 | a window up to 2147483 s is slept in full |
| `Pipeline.SleepNeverInfinite` | DeskApiClient/DeskApiClient.cs:170 | the wrapped product is never -1, so the sleep is never infinite |
| `Pipeline.ObserveThenRetry` | DeskApiClient/DeskApiClient.cs:110-120 | after the first response the state is its headers read into the old one; a non-429 is kept as it came with no further event; a 429 sleeps for the stored reset window after its headers were read, and resends, exactly when that window can be slept; the result is then the retry's response and the script moves past it, and a window that cannot be slept gives the sleep's exception |
| `Pipeline.Retries` | DeskApiClient/DeskApiClient.cs:113-119 | definition of the resend condition: a 429 for which the stored reset window, after its headers were read, gives a non-negative wrapped sleep |
| `Pipeline.CallRun` | DeskApiClient/DeskApiClient.cs:152-176 | `Call` as a function of the state and the script: it begins with the exchange of the request, makes one or three events, and leaves either the old state or the first response's headers read into it |
| `Pipeline.Classify` | DeskApiClient/DeskApiClient.cs:122-143 | a failure carries the response's own status, which is none of 200, 201, 422; a deserialized result is the content of a 200 or 201 |
| `Pipeline.ExecuteRun` | DeskApiClient/DeskApiClient.cs:99-144 | `Execute` as a function of the state and the script: it begins with the exchange of the request, makes one or three events, and always leaves the first response's headers read into the old state |
| `Pipeline.ProbeIfUnobserved` | DeskApiClient/DeskApiClient.cs:284-287 | no probe and no change when the limit is non-zero; otherwise one `Call` of one or three events, whose only possible exceptions are a response error or the sleep's, never a status failure |
| `Pipeline.QueryResult` | DeskApiClient/DeskApiClient.cs:284-293 | definition: a query raises the probe's exception when the probe raised, and otherwise answers |
| `Pipeline.CallExchanges` | DeskApiClient/DeskApiClient.cs:152-176 | `Call` sends once, or sends, sleeps for the stored reset window after the first response's headers were read and resends the same request exactly when the first response has no error and is a sleepable 429 |
| `Pipeline.ExecuteExchanges` | DeskApiClient/DeskApiClient.cs:109-120 | `Execute` resends exactly when the first response is a sleepable 429, after sleeping for the stored reset window after its headers were read |
| `Pipeline.StaleWindowSlept` | DeskApiClient/DeskApiClient.cs:117 | a 429 whose limit header reads 0 makes both methods sleep for the previously stored window, whatever its own Reset header says |
| `Pipeline.RunsConsumeOnePerExchange` | DeskApiClient/DeskApiClient.cs:155-172 | each exchange consumes exactly one scripted response |
| `Pipeline.RetryHeadersIgnored` | DeskApiClient/DeskApiClient.cs:163-172 | the state after a call depends on the first response only; the retry's headers are never read |
| `Pipeline.CallResult` | DeskApiClient/DeskApiClient.cs:156-175 | `Call` raises with no state change on a first-response error, raises the sleep's exception for an unsleepable window, and otherwise returns the final response unchanged |
| `Pipeline.ClassifyOutcomes` | DeskApiClient/DeskApiClient.cs:122-143 | 422 gives `default(T)`, 200/201 the content, any other status a failure carrying status, description, content and the error as cause |
| `Pipeline.ExecuteResult` | DeskApiClient/DeskApiClient.cs:109-144 | for every script, `Execute` classifies the retry's response after a sleepable 429, raises the sleep's exception after an unsleepable one, and otherwise classifies the first response, whether or not it carries an error |
| `Pipeline.ExecuteKeepsErrorAsCause` | DeskApiClient/DeskApiClient.cs:130-139 | a first response with an error and a status other than 200, 201, 422, 429 makes `Execute` raise with its status, description, content and the error as cause |
| `Pipeline.ExecuteIsClassifiedCall` | DeskApiClient/DeskApiClient.cs:99-144 | without a first-response error, `Execute` does what `Call` does and classifies the response `Call` returns |
| `Pipeline.SecondThrottleSurfaced` | DeskApiClient/DeskApiClient.cs:165-175 | a second 429 is not retried: `Call` returns it and `Execute` raises with status 429 |
| `Pipeline.ScenarioSuccess` | DeskApiClient/DeskApiClient.cs:130-143 | a 200 is deserialized after one exchange |
| `Pipeline.ScenarioThrottledThenOk` | DeskApiClient/DeskApiClient.cs:109-143 | a 429 with reset 2 then a 200 sleeps 2000 ms between two identical sends and returns the second body |
| `Pipeline.ScenarioRejected` | DeskApiClient/DeskApiClient.cs:122-127 | a 422 is `default(T)` for `Execute` and the verbatim response for `Call` |
| `Pipeline.ProbeAtMostOnce` | DeskApiClient/DeskApiClient.cs:284-287 | the queries probe only when the limit is 0, with one `Call` of `groups` of at most two exchanges |
| `Pipeline.ProbeWithoutLimitHeader` | DeskApiClient/DeskApiClient.cs:282-294 | a probe answered without a usable limit header leaves the state unobserved and both guarded queries answer false after one exchange |
| `DeskClient.DeskApiClient.Default` | DeskApiClient/DeskApiClient.cs:25-29 | the default constructor is OAuth, with the default base URL, no credentials and nothing observed |
| `DeskClient.DeskApiClient.WithPassword` | DeskApiClient/DeskApiClient.cs:37-46 | the three-argument constructor is Basic with the user name and password |
| `DeskClient.DeskApiClient.WithOAuth` | DeskApiClient/DeskApiClient.cs:57-70 | the five-argument constructor is OAuth with the four API values |
| `DeskClient.DeskApiClient.GetClient` | DeskApiClient/DeskApiClient.cs:178-195 | the authenticator is chosen by the tag alone, Basic credentials for Basic and OAuth1 otherwise, with the base URL |
| `DeskClient.DeskApiClient.CheckBurstLimits` | DeskApiClient/DeskApiClient.cs:257-275 | the fields become `Observe` of the old ones and the headers, the log branch follows the new state, and the network is not touched |
| `DeskClient.DeskApiClient.Call` | DeskApiClient/DeskApiClient.cs:152-176 | fields, result, network log and remaining script are those of `CallRun` on the old state |
| `DeskClient.DeskApiClient.CallResource` | DeskApiClient/DeskApiClient.cs:146-150 | `Call` of a fresh request for the resource and method |
| `DeskClient.DeskApiClient.Execute` | DeskApiClient/DeskApiClient.cs:99-144 | fields, result, network log and remaining script are those of `ExecuteRun` on the JSON-decorated request |
| `DeskClient.DeskApiClient.IsExceedingApiLimits` | DeskApiClient/DeskApiClient.cs:282-294 | after the probe (if the limit was 0), the answer is limit > 0 and remaining <= 0, or the probe's exception |
| `DeskClient.DeskApiClient.IsNearingApiLimits` | DeskApiClient/DeskApiClient.cs:302-317 | after the probe (if the limit was 0), the answer is the guarded threshold test, or the probe's exception |

## Left out

- TLS protocol configuration (`ServicePointManager.SecurityProtocol`): process-wide network settings.
- HTTP Basic header encoding and OAuth1 signing: library code. Only the choice of authenticator is modelled.
- `System.Uri` parsing of the base URL in `GetClient`: library code. The URL is passed through unchecked. One consequence: `System.Uri` rejects the placeholder default URL `https://<YOUR_DESK_INSTANCE>.desk.com/api/v2`, so as written a client made by the default constructor raises UriFormatException from `GetClient` on every call and every probe, while the model's `Default` client exchanges normally.
- `RestClient`/`RestRequest` internals. `AddParameter` and `AddBody` are modelled by one function, `WithJsonBody`. The in-place update of the caller's request object is not modelled: the decorated request is a value.
- `JsonConvert.DeserializeObject<T>` and its `DeserializationError`: library code. The result is the content it would read.
- log4net logging: a side channel. `CheckBurstLimits` returns the branch it would log.
- `Thread.Sleep` timing: only the requested duration is recorded.
- `FormatDateForApi` and `ParseIso8601Date`: thin wrappers over .NET date formatting, outside the pipeline.
- The data-transfer records under `models/` and the test project: they have no behaviour.
- Culture-specific sign symbols in `int.TryParse`: the invariant culture is assumed.
- Trailing `'\0'` characters, which the .NET number parser behind `int.TryParse` accepts after the number, make `ParseInt32` fail: HTTP header values cannot carry NUL, so no response of the pipeline is affected.
- `Call`, `Execute` and the query probes as written, with the exceptions `CheckAsWritten` raises: the pipeline and the class use the corrected `Observe` and `Nearing`, so they do not capture those raises or the partial updates they leave behind.
- A null header name or value, and a null credential or URL passed to a constructor: parameters are non-null strings.
- Thread safety: the model is sequential, as the client assumes.

## Findings

| source | as written | input that shows it | evidently intended | confidence | as-written member | corrected member |
|---|---|---|---|---|---|---|
| DeskApiClient/DeskApiClient.cs:244-245 | `FirstOrDefault` returns null for a missing name, and `httpHeader.Value` is read without a check | any response without an `X-Rate-Limit-Limit` header: `CheckBurstLimits` raises NullReferenceException, so `Call`, `Execute` and the query probes raise. A non-zero limit with the `X-Rate-Limit-Remaining` or `X-Rate-Limit-Reset` header missing raises at line 263 or 264, after the fields before it have already been overwritten | return 0 when the value is not found, as the doc comment at line 234 says, so a missing limit makes `CheckBurstLimits` a no-op and a missing Remaining or Reset value is stored as 0 | not executed; high | `Headers.GetIntHeaderValueAsWritten`, `Headers.AbsentHeaderDereferencesNull`, `RateLimit.CheckAsWritten`, `RateLimit.MissingLimitRaises`, `RateLimit.MissingRemainingStoresLimitOnly`, `RateLimit.MissingResetStoresLimitAndRemaining` | `Headers.GetIntHeaderValue`, `RateLimit.Observe`, `DeskClient.DeskApiClient.CheckBurstLimits`, `DeskClient.DeskApiClient.Call`, `DeskClient.DeskApiClient.Execute`, `DeskClient.DeskApiClient.IsExceedingApiLimits` |
| DeskApiClient/DeskApiClient.cs:310-312 | the division is evaluated before the `rateLimit > 0` test | limit 0 after a probe whose response has a limit header that reads 0 or does not parse: DivideByZeroException (as written, a probe response with no limit header at all raises NullReferenceException first, see the row above). Limit -1 with remaining 536870912: OverflowException, raised from `CheckBurstLimits` on such a response | answer false unless the limit is positive, dividing only then | not executed; high for limit 0, medium for -1 (the C# standard leaves `int.MinValue / -1` in unchecked code implementation-defined; .NET raises) | `RateLimit.NearingAsWritten`, `RateLimit.UnobservedDividesByZero`, `RateLimit.NegativeLimitOverflows`, `RateLimit.CheckOverflowsOnNegativeLimit` | `RateLimit.Nearing`, `DeskClient.DeskApiClient.CheckBurstLimits`, `DeskClient.DeskApiClient.IsNearingApiLimits` |
