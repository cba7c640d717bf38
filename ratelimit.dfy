/** The rate-limit tracker's state and the two threshold queries, as values:
    what `CheckBurstLimits` stores, and what `IsExceedingApiLimits` and
    `IsNearingApiLimits` answer once they have data. */
module RateLimit {
  import opened Wrappers
  import opened Int32
  import opened Headers

  const LimitHeader: string := "X-Rate-Limit-Limit"
  const RemainingHeader: string := "X-Rate-Limit-Remaining"
  const ResetHeader: string := "X-Rate-Limit-Reset"

  /** The value of `IsNearingApiLimits`' parameter when the caller omits it. */
  const OmittedThreshold: int32 := -1
  /** The percentage used when the parameter is not positive. */
  const DefaultThreshold: int32 := 85

  /** The three tracked fields: `rateLimit`, `rateLimitRemaining` and
      `secsUntilRateLimitReset`. */
  datatype Tracker = Tracker(limit: int32, remaining: int32, reset: int32)

  /** The state of a new client: nothing observed yet. */
  const Unobserved: Tracker := Tracker(0, 0, 0)

  /** What the log branch of `CheckBurstLimits` reports. */
  datatype Advisory = NoReport | ExceededReport | NearingReport

  /** The state `CheckBurstLimits` leaves with the documented lookup:
      unchanged when the limit header reads as 0, otherwise the three header
      values, whatever came before. */
  function Observe(t: Tracker, headers: Option<seq<Header>>): (r: Tracker)
    ensures headers.None? ==> r == t
    ensures r == t || r.limit != 0
    ensures t.limit != 0 ==> r.limit != 0
  {
    var limit := GetIntHeaderValue(headers, LimitHeader);
    if limit == 0 then t
    else Tracker(limit, GetIntHeaderValue(headers, RemainingHeader), GetIntHeaderValue(headers, ResetHeader))
  }

  /** The answer of `IsExceedingApiLimits` on the state it ends up reading. */
  predicate Exceeding(t: Tracker) {
    t.limit > 0 && t.remaining <= 0
  }

  /** `remainingPercentageThreshold > 0 ? remainingPercentageThreshold : 85` */
  function EffectiveThreshold(argument: int32): (r: int32)
    ensures r > 0
    ensures argument > 0 ==> r == argument
    ensures argument <= 0 ==> r == DefaultThreshold
  {
    if argument > 0 then argument else DefaultThreshold
  }

  /** `(rateLimitRemaining * 100) / rateLimit` in C# arithmetic, for a
      positive limit (where the division cannot raise). */
  function Percent(t: Tracker): (r: int32)
    requires t.limit > 0
    ensures var x := Mul(t.remaining, 100);
            Abs(x - r * t.limit) < t.limit && (x >= 0 ==> x - r * t.limit >= 0) && (x <= 0 ==> x - r * t.limit <= 0)
  {
    Div(Mul(t.remaining, 100), t.limit).value
  }

  /** The answer of `IsNearingApiLimits`, with the `rateLimit > 0` test made
      before the division rather than after it. */
  predicate Nearing(t: Tracker, argument: int32) {
    t.limit > 0 && Percent(t) <= EffectiveThreshold(argument)
  }

  /** The threshold test in the order it is written: the division comes
      first, so a zero limit raises DivideByZeroException and a limit of -1
      raises OverflowException when the wrapped product is int.MinValue.
      Where it does not raise it agrees with `Nearing`. */
  function NearingAsWritten(t: Tracker, argument: int32): (r: Result<bool, ArithFault>)
    ensures r == Failure(DivideByZero) <==> t.limit == 0
    ensures r == Failure(Overflow) <==> t.limit == -1 && Mul(t.remaining, 100) == MinValue
    ensures r.Success? ==> r.value == Nearing(t, argument)
  {
    var threshold := EffectiveThreshold(argument);
    match Div(Mul(t.remaining, 100), t.limit)
    case Failure(f) => Failure(f)
    case Success(percent) => Success(t.limit > 0 && percent <= threshold)
  }

  /** The branch `CheckBurstLimits` logs after storing a new state. */
  function AdvisoryFor(t: Tracker): (r: Advisory)
    ensures r == ExceededReport <==> Exceeding(t)
    ensures r == NearingReport <==> !Exceeding(t) && Nearing(t, OmittedThreshold)
    ensures t.limit <= 0 ==> r == NoReport
  {
    if Exceeding(t) then ExceededReport
    else if Nearing(t, OmittedThreshold) then NearingReport
    else NoReport
  }

  // ---------------------------------------------------------------------------
  // CheckBurstLimits as written
  // ---------------------------------------------------------------------------

  /** An exception `CheckBurstLimits` raises as written: from the lookup, or
      from the division in the nearing test. */
  datatype CheckFault = LookupFailed(lookup: LookupFault) | ArithmeticFailed(arith: ArithFault)

  /** The fields `CheckBurstLimits` leaves, the branch it logs, and the
      exception it raises, if any. */
  datatype Checked = Checked(tracker: Tracker, advisory: Advisory, fault: Option<CheckFault>)

  /** `CheckBurstLimits` step by step as written: each field is stored as
      soon as its header is read, so a missing Remaining or Reset header
      raises after the fields before it have been overwritten. The two
      queries then run on the stored state (which has a non-zero limit, so
      neither probes), and the nearing test divides before its guard.
      Where nothing is raised, the state is the one `Observe` describes. */
  function CheckAsWritten(t: Tracker, headers: Option<seq<Header>>): (r: Checked)
    ensures headers.None? ==> r == Checked(t, NoReport, None)
    ensures r.fault.None? ==> r.tracker == Observe(t, headers)
    ensures r.fault.None? ==> r.advisory == if GetIntHeaderValue(headers, LimitHeader) == 0 then NoReport else AdvisoryFor(r.tracker)
    ensures r.fault.Some? ==> r.advisory == NoReport
    ensures r.fault == Some(LookupFailed(NullReference)) <==>
              headers.Some? &&
              (!HasNamed(headers.value, LimitHeader) ||
               (GetIntHeaderValue(headers, LimitHeader) != 0 &&
                (!HasNamed(headers.value, RemainingHeader) || !HasNamed(headers.value, ResetHeader))))
    ensures r.fault == Some(ArithmeticFailed(Overflow)) <==>
              headers.Some? && HasNamed(headers.value, RemainingHeader) && HasNamed(headers.value, ResetHeader) &&
              GetIntHeaderValue(headers, LimitHeader) == -1 &&
              Mul(GetIntHeaderValue(headers, RemainingHeader), 100) == MinValue
    ensures r.fault != Some(ArithmeticFailed(DivideByZero))
  {
    match GetIntHeaderValueAsWritten(headers, LimitHeader)
    case Failure(e) => Checked(t, NoReport, Some(LookupFailed(e)))
    case Success(limit) =>
      if limit == 0 then Checked(t, NoReport, None)
      else
        var stored := t.(limit := limit);
        match GetIntHeaderValueAsWritten(headers, RemainingHeader)
        case Failure(e) => Checked(stored, NoReport, Some(LookupFailed(e)))
        case Success(remaining) =>
          var stored := stored.(remaining := remaining);
          match GetIntHeaderValueAsWritten(headers, ResetHeader)
          case Failure(e) => Checked(stored, NoReport, Some(LookupFailed(e)))
          case Success(reset) =>
            var stored := stored.(reset := reset);
            if Exceeding(stored) then Checked(stored, ExceededReport, None)
            else
              match NearingAsWritten(stored, OmittedThreshold)
              case Failure(f) => Checked(stored, NoReport, Some(ArithmeticFailed(f)))
              case Success(nearing) => Checked(stored, if nearing then NearingReport else NoReport, None)
  }

  /** A response without a limit header: as written, the lookup raises
      before anything is stored; the documented lookup leaves the state as
      it was without raising. */
  lemma MissingLimitRaises(t: Tracker, headers: seq<Header>)
    requires !HasNamed(headers, LimitHeader)
    ensures CheckAsWritten(t, Some(headers)) == Checked(t, NoReport, Some(LookupFailed(NullReference)))
    ensures Observe(t, Some(headers)) == t
  {
  }

  /** A non-zero limit without a Remaining header: as written, the limit is
      stored and the next lookup raises, leaving the old remaining count and
      reset window beside the new limit; the documented lookup stores 0. */
  lemma MissingRemainingStoresLimitOnly(t: Tracker, headers: seq<Header>, limit: int32)
    requires limit != 0 && GetIntHeaderValue(Some(headers), LimitHeader) == limit
    requires !HasNamed(headers, RemainingHeader)
    ensures CheckAsWritten(t, Some(headers)) ==
              Checked(Tracker(limit, t.remaining, t.reset), NoReport, Some(LookupFailed(NullReference)))
    ensures Observe(t, Some(headers)).limit == limit && Observe(t, Some(headers)).remaining == 0
  {
  }

  /** A non-zero limit and a Remaining header without a Reset header: as
      written, the limit and the remaining count are stored and the third
      lookup raises, leaving the old reset window; the documented lookup
      stores 0. */
  lemma MissingResetStoresLimitAndRemaining(t: Tracker, headers: seq<Header>, limit: int32)
    requires limit != 0 && GetIntHeaderValue(Some(headers), LimitHeader) == limit
    requires HasNamed(headers, RemainingHeader) && !HasNamed(headers, ResetHeader)
    ensures CheckAsWritten(t, Some(headers)) ==
              Checked(Tracker(limit, GetIntHeaderValue(Some(headers), RemainingHeader), t.reset),
                      NoReport, Some(LookupFailed(NullReference)))
    ensures Observe(t, Some(headers)).reset == 0
  {
  }

  // ---------------------------------------------------------------------------
  // Properties of Observe
  // ---------------------------------------------------------------------------

  /** A limit header that is missing, does not parse or reads 0, or a null
      header collection, leaves the state exactly as it was. */
  lemma ObserveKeepsStateWithoutLimit(t: Tracker, headers: Option<seq<Header>>)
    requires headers.None? || !HasNamed(headers.value, LimitHeader) ||
             (exists i :: IsFirstNamed(headers.value, LimitHeader, i) &&
                ParseInt32(headers.value[i].value) in {None, Some(0)})
    ensures Observe(t, headers) == t
  {
  }

  /** A limit header that reads as a non-zero number replaces all three
      fields by the header values; a Remaining or Reset header that is
      missing or does not parse becomes 0. The old state plays no part. */
  lemma ObserveReplacesState(t: Tracker, headers: seq<Header>, i: int, limit: int32)
    requires IsFirstNamed(headers, LimitHeader, i)
    requires ParseInt32(headers[i].value) == Some(limit) && limit != 0
    ensures Observe(t, Some(headers)).limit == limit
    ensures Observe(t, Some(headers)).remaining == GetIntHeaderValue(Some(headers), RemainingHeader)
    ensures Observe(t, Some(headers)).reset == GetIntHeaderValue(Some(headers), ResetHeader)
    ensures !HasNamed(headers, RemainingHeader) ==> Observe(t, Some(headers)).remaining == 0
    ensures !HasNamed(headers, ResetHeader) ==> Observe(t, Some(headers)).reset == 0
    ensures forall u :: Observe(u, Some(headers)) == Observe(t, Some(headers))
  {
  }

  /** Observing the same headers twice is the same as observing them once. */
  lemma ObserveIdempotent(t: Tracker, headers: Option<seq<Header>>)
    ensures Observe(Observe(t, headers), headers) == Observe(t, headers)
  {
  }

  /** The header trio a server sends, as the lines it writes them. */
  function TrioHeaders(limit: int32, remaining: int32, reset: int32): seq<Header> {
    [Header(LimitHeader, FormatInt32(limit)),
     Header(RemainingHeader, FormatInt32(remaining)),
     Header(ResetHeader, FormatInt32(reset))]
  }

  lemma HeaderNamesDistinct()
    ensures LimitHeader != RemainingHeader && LimitHeader != ResetHeader && RemainingHeader != ResetHeader
  {
    assert LimitHeader[13] == 'L' && RemainingHeader[13] == 'R' && ResetHeader[13] == 'R';
    assert RemainingHeader[15] == 'm' && ResetHeader[15] == 's';
  }

  lemma FirstHeaderValue(hs: seq<Header>, name: string, i: int, v: int32)
    requires IsFirstNamed(hs, name, i) && ParseInt32(hs[i].value) == Some(v)
    ensures GetIntHeaderValue(Some(hs), name) == v
  {
  }

  lemma ObserveValues(t: Tracker, hs: seq<Header>, limit: int32, remaining: int32, reset: int32)
    requires limit != 0 && GetIntHeaderValue(Some(hs), LimitHeader) == limit
    requires GetIntHeaderValue(Some(hs), RemainingHeader) == remaining
    requires GetIntHeaderValue(Some(hs), ResetHeader) == reset
    ensures Observe(t, Some(hs)) == Tracker(limit, remaining, reset)
  {
  }

  /** A well-formed trio with a non-zero limit is read back exactly. */
  lemma ObserveTrio(t: Tracker, limit: int32, remaining: int32, reset: int32)
    requires limit != 0
    ensures Observe(t, Some(TrioHeaders(limit, remaining, reset))) == Tracker(limit, remaining, reset)
  {
    var hs := TrioHeaders(limit, remaining, reset);
    HeaderNamesDistinct();
    TrioValue(hs, LimitHeader, 0, limit);
    TrioValue(hs, RemainingHeader, 1, remaining);
    TrioValue(hs, ResetHeader, 2, reset);
    ObserveValues(t, hs, limit, remaining, reset);
  }

  lemma TrioValue(hs: seq<Header>, name: string, i: int, v: int32)
    requires IsFirstNamed(hs, name, i) && hs[i].value == FormatInt32(v)
    ensures GetIntHeaderValue(Some(hs), name) == v
  {
    ParseFormat(v, "", "");
    assert "" + FormatInt32(v) + "" == FormatInt32(v);
    FirstHeaderValue(hs, name, i, v);
  }

  // ---------------------------------------------------------------------------
  // Properties of the queries
  // ---------------------------------------------------------------------------

  /** After a well-formed trio, `IsExceedingApiLimits` is true exactly when
      the limit is positive and nothing remains. */
  lemma ExceedingAfterTrio(t: Tracker, limit: int32, remaining: int32, reset: int32)
    requires limit != 0
    ensures Exceeding(Observe(t, Some(TrioHeaders(limit, remaining, reset)))) <==> limit > 0 && remaining <= 0
  {
    ObserveTrio(t, limit, remaining, reset);
  }

  /** Without overflow, `IsNearingApiLimits` is true exactly when the
      remaining share, in whole percent rounded down, is at most the
      threshold: remaining * 100 < (threshold + 1) * limit. */
  lemma NearingMeaning(t: Tracker, argument: int32)
    requires t.limit > 0 && MinValue <= t.remaining * 100 <= MaxValue
    ensures Nearing(t, argument) <==> t.remaining * 100 < (EffectiveThreshold(argument) + 1) * t.limit
  {
    if t.remaining < 0 {
      ExceedingImpliesNearing(t, argument);
      MulLeq(1, EffectiveThreshold(argument) as int + 1, t.limit as int);
    } else {
      NearingShare(t, argument);
    }
  }

  lemma NearingShare(t: Tracker, argument: int32)
    requires t.limit > 0 && 0 <= t.remaining && t.remaining * 100 <= MaxValue
    ensures Nearing(t, argument) <==> t.remaining * 100 < (EffectiveThreshold(argument) + 1) * t.limit
  {
    var x, l, h := t.remaining * 100, t.limit as int, EffectiveThreshold(argument) as int;
    var q := Percent(t);
    assert q * l <= x < q * l + l;
    if q <= h {
      assert (q + 1) * l <= (h + 1) * l by { MulLeq(q + 1, h + 1, l); }
    } else {
      assert (h + 1) * l <= q * l by { MulLeq(h + 1, q, l); }
    }
  }

  lemma MulLeq(a: int, b: int, l: nat)
    requires a <= b
    ensures a * l <= b * l
  {
    assert b * l - a * l == (b - a) * l;
  }

  /** Without overflow, a state that is exceeding is also nearing. */
  lemma ExceedingImpliesNearing(t: Tracker, argument: int32)
    requires Exceeding(t) && t.remaining * 100 >= MinValue
    ensures Nearing(t, argument)
  {
    var l := t.limit as int;
    assert Mul(t.remaining, 100) == t.remaining * 100 <= 0;
    var q := Percent(t);
    if q >= 1 {
      MulLeq(1, q, l);
    }
  }

  /** A negative limit is never exceeding nor nearing. */
  lemma NegativeLimitIsQuiet(t: Tracker, argument: int32)
    requires t.limit < 0
    ensures !Exceeding(t) && !Nearing(t, argument) && AdvisoryFor(t) == NoReport
  {
  }

  /** The product `rateLimitRemaining * 100` wraps around: with 25,000,000
      calls left out of 25,000,000 the test reports "nearing". */
  lemma NearingWrapsForLargeRemaining()
    ensures Nearing(Tracker(25_000_000, 25_000_000, 0), OmittedThreshold)
  {
    assert Mul(25_000_000, 100) == 2_500_000_000 - Modulus;
  }

  /** Headers `X-Rate-Limit-Limit: 100` and `X-Rate-Limit-Remaining: 10`:
      the client is nearing its limit at the default threshold and is not
      exceeding it. */
  lemma TenOfHundredRemaining(t: Tracker, reset: int32)
    ensures Nearing(Observe(t, Some(TrioHeaders(100, 10, reset))), OmittedThreshold)
    ensures !Exceeding(Observe(t, Some(TrioHeaders(100, 10, reset))))
  {
    ObserveTrio(t, 100, 10, reset);
    assert Percent(Tracker(100, 10, reset)) == 10;
  }

  // ---------------------------------------------------------------------------
  // The as-written threshold test
  // ---------------------------------------------------------------------------

  /** With nothing observed, the as-written test divides by zero, where the
      guarded test answers false. */
  lemma UnobservedDividesByZero(argument: int32)
    ensures NearingAsWritten(Unobserved, argument) == Failure(DivideByZero)
    ensures !Nearing(Unobserved, argument)
  {
  }

  lemma ProductWrapsToMinValue()
    ensures Mul(0x2000_0000, 100) == MinValue
  {
    assert (0x2000_0000 * 100 - MinValue) % Modulus == 0;
  }

  /** Headers `X-Rate-Limit-Limit: -1` and `X-Rate-Limit-Remaining: 536870912`
      produce a state on which the as-written test raises OverflowException
      (536870912 * 100 wraps to int.MinValue), where the guarded test answers
      false. `CheckBurstLimits` evaluates this test on every such response. */
  lemma NegativeLimitOverflows(t: Tracker, reset: int32)
    ensures NearingAsWritten(Observe(t, Some(TrioHeaders(-1, 0x2000_0000, reset))), OmittedThreshold) == Failure(Overflow)
    ensures !Nearing(Observe(t, Some(TrioHeaders(-1, 0x2000_0000, reset))), OmittedThreshold)
  {
    ObserveTrio(t, -1, 0x2000_0000, reset);
    ProductWrapsToMinValue();
  }

  /** The same trio through `CheckBurstLimits` as written: all three fields
      are stored, and the nearing test it runs raises OverflowException. */
  lemma CheckOverflowsOnNegativeLimit(t: Tracker, reset: int32)
    ensures CheckAsWritten(t, Some(TrioHeaders(-1, 0x2000_0000, reset))) ==
              Checked(Tracker(-1, 0x2000_0000, reset), NoReport, Some(ArithmeticFailed(Overflow)))
  {
    var hs := TrioHeaders(-1, 0x2000_0000, reset);
    HeaderNamesDistinct();
    TrioValue(hs, LimitHeader, 0, -1);
    TrioValue(hs, RemainingHeader, 1, 0x2000_0000);
    TrioValue(hs, ResetHeader, 2, reset);
    assert HasNamed(hs, RemainingHeader) && HasNamed(hs, ResetHeader);
    ProductWrapsToMinValue();
  }
}
