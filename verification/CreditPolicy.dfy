/** The credit policy (src/policies/credit.c): a finite budget with optional bounded overcommit. */
module CreditPolicy {
  import opened CheckedMath
  import opened Metadata
  import opened Records
  import opened PolicyCommon

  const PPM_SCALE: u64 := 1000000

  datatype CreditState = CreditState(
    reservationTtlNs: u64,
    overcommitCredits: u64,
    overcommitPpm: u64,
    allowOvercommit: bool)

  const INITIAL_STATE := CreditState(0, 0, 0, false)

  function OptionBool(v: Value): Result<bool> {
    match v.payload
    case Bool(b) => Success(b != 0)
    case U64(n) => Success(n != 0)
    case _ => Failure(Inval)
  }

  function OptionU64(v: Value): Result<u64> {
    if v.payload.U64? then Success(v.payload.u64) else Failure(Inval)
  }

  function ApplyOption(state: CreditState, option: KeyValue): Result<CreditState> {
    if option.key == OPT_CREDIT_RESERVATION_TTL_NS then
      var v :- OptionU64(option.value);
      Success(state.(reservationTtlNs := v))
    else if option.key == OPT_CREDIT_ALLOW_OVERCOMMIT then
      var v :- OptionBool(option.value);
      Success(state.(allowOvercommit := v))
    else if option.key == OPT_CREDIT_OVERCOMMIT_CREDITS then
      var v :- OptionU64(option.value);
      Success(state.(overcommitCredits := v))
    else if option.key == OPT_CREDIT_OVERCOMMIT_PPM then
      var v :- OptionU64(option.value);
      if v > PPM_SCALE then Failure(Inval) else Success(state.(overcommitPpm := v))
    else
      Success(state)
  }

  /** Every option list that is accepted leaves a proportional overcommit of at most one million. */
  function Configure(options: seq<KeyValue>): (r: Result<CreditState>)
    ensures r.Success? ==> r.value.overcommitPpm <= PPM_SCALE
  {
    if |options| == 0 then Success(INITIAL_STATE)
    else
      var state :- Configure(options[..|options| - 1]);
      ApplyOption(state, options[|options| - 1])
  }

  method ConfigureState(options: seq<KeyValue>) returns (r: Result<CreditState>)
    ensures r == Configure(options)
  {
    var state := INITIAL_STATE;
    for i := 0 to |options|
      invariant Configure(options[..i]) == Success(state)
    {
      assert options[..i + 1][..i] == options[..i];
      var next := ApplyOption(state, options[i]);
      if next.Failure? {
        ConfigureFailureStays(options, i + 1);
        return next;
      }
      state := next.value;
    }
    assert options[..|options|] == options;
    return Success(state);
  }

  lemma {:induction false} ConfigureFailureStays(options: seq<KeyValue>, n: nat)
    requires n <= |options| && Configure(options[..n]).Failure?
    ensures Configure(options) == Configure(options[..n])
  {
    if n == |options| {
      assert options[..n] == options;
    } else {
      var front := options[..|options| - 1];
      assert front[..n] == options[..n];
      ConfigureFailureStays(front, n);
    }
  }

  /** Parts per million of a credit total, computed in 64 bits without the wide product. */
  function PpmValue(total: u64, ppm: u64): Result<u64> {
    var quotient, remainder := total / PPM_SCALE, total % PPM_SCALE;
    var high :- Mul(quotient, ppm);
    var product :- Mul(remainder, ppm);
    Add(high, product / PPM_SCALE)
  }

  /** The share of a total that an overcommit in parts per million stands for. */
  function Share(total: u64, ppm: u64): nat {
    total * ppm / PPM_SCALE
  }

  /** For every option the policy accepts the split computation never fails and is the exact floor. */
  lemma PpmValueExact(total: u64, ppm: u64)
    requires ppm <= PPM_SCALE
    ensures Share(total, ppm) <= total
    ensures PpmValue(total, ppm) == Success(Share(total, ppm))
  {
    var q, r := total / PPM_SCALE, total % PPM_SCALE;
    MulMonotone(q, ppm, PPM_SCALE);
    MulMonotone(r, ppm, PPM_SCALE);
    assert total * ppm == (q * ppm) * PPM_SCALE + r * ppm by {
      assert total == q * PPM_SCALE + r;
      ProductOfSplit(q, r, ppm);
    }
    FloorOfSplit(q * ppm, r * ppm);
    FloorMonotone(r * ppm, r);
  }

  lemma ProductOfSplit(q: nat, r: nat, ppm: nat)
    ensures (q * PPM_SCALE + r) * ppm == (q * ppm) * PPM_SCALE + r * ppm
  {
  }

  lemma FloorOfSplit(a: nat, b: nat)
    ensures (a * PPM_SCALE + b) / PPM_SCALE == a + b / PPM_SCALE
  {
  }

  lemma FloorMonotone(a: nat, b: nat)
    requires a <= b * PPM_SCALE
    ensures a / PPM_SCALE <= b
  {
  }

  function MinNonzero(a: u64, b: u64): u64 {
    if a == 0 then b else if b == 0 then a else Min(a, b)
  }

  /** The most credits the policy lets out on a device with the given total. */
  function OvercommitLimit(state: CreditState, total: u64): (r: Result<u64>)
    ensures r.Success? ==> total != 0 && total <= r.value
    ensures r.Success? && !state.allowOvercommit ==> r.value == total
  {
    if total == 0 then Failure(Inval)
    else if !state.allowOvercommit then Success(total)
    else
      var ppmLimit :- if state.overcommitPpm != 0 then PpmValue(total, state.overcommitPpm) else Success(0);
      Add(total, MinNonzero(state.overcommitCredits, ppmLimit))
  }

  /** The overcommit is the smaller of the configured amount and share, a zero meaning not configured. */
  lemma OvercommitLimitExact(state: CreditState, total: u64)
    requires total != 0 && state.allowOvercommit && state.overcommitPpm <= PPM_SCALE
    ensures Share(total, state.overcommitPpm) <= total
    ensures var extra := MinNonzero(state.overcommitCredits, Share(total, state.overcommitPpm));
            && (OvercommitLimit(state, total).Success? <==> total + extra <= U64_MAX)
            && (OvercommitLimit(state, total).Success? ==> OvercommitLimit(state, total).value == total + extra)
            && (Share(total, state.overcommitPpm) != 0 ==> extra <= total)
  {
    PpmValueExact(total, state.overcommitPpm);
    NoShare(total);
    var share := Share(total, state.overcommitPpm);
    assert (if state.overcommitPpm != 0 then PpmValue(total, state.overcommitPpm) else Success(0)) == Success(share);
  }

  lemma NoShare(total: u64)
    ensures Share(total, 0) == 0
  {
  }

  function Init(profile: Profile, options: seq<KeyValue>): (r: Result<CreditState>)
    ensures r.Success? ==> r.value.overcommitPpm <= PPM_SCALE
  {
    if profile.totalCredits == 0 && profile.timeSpanNs == 0 then Failure(Inval)
    else
      var state :- Configure(options);
      if profile.totalCredits != 0 && OvercommitLimit(state, profile.totalCredits).Failure? then
        Failure(OvercommitLimit(state, profile.totalCredits).error)
      else
        Success(state)
  }

  /**
   Refuses a device that can never have credits, options of a wrong type or beyond a million parts, and an
   overcommit that takes explicit credits past 64 bits; nothing else.
   */
  method InitState(profile: Profile, options: seq<KeyValue>) returns (r: Result<CreditState>)
    ensures r == Init(profile, options)
    ensures r.Success? <==>
              && (profile.totalCredits != 0 || profile.timeSpanNs != 0)
              && Configure(options).Success?
              && (profile.totalCredits != 0 ==>
                    OvercommitLimit(Configure(options).value, profile.totalCredits).Success?)
    ensures r.Success? ==> r.value == Configure(options).value && r.value.overcommitPpm <= PPM_SCALE
  {
    if profile.totalCredits == 0 && profile.timeSpanNs == 0 {
      return Failure(Inval);
    }
    var state :- ConfigureState(options);
    if profile.totalCredits != 0 {
      var limit :- OvercommitLimit(state, profile.totalCredits);
    }
    return Success(state);
  }

  function FillDecision(state: CreditState, request: Request, estimate: Estimate, view: CapacityView): Decision {
    var d := BLANK_DECISION.(
      requestId := request.requestId,
      deviceId := request.deviceId,
      scopeId := request.scopeId,
      creditsRequired := estimate.baselineUnits,
      capacityAvailable := view.effectiveAvailableCredits,
      estimatedTotalNs := estimate.totalNs,
      capacityGranted := estimate.baselineUnits,
      confidencePpm := estimate.confidencePpm);
    if view.totalCredits == 0 then
      WithVerdict(d, Rejected, RequestTooLarge, Reject)
    else
      var limit := OvercommitLimit(state, view.totalCredits);
      if limit.Failure? then
        WithVerdict(d, Rejected, InvalidRequest, Reject)
      else if estimate.baselineUnits > limit.value then
        WithVerdict(d, Rejected, RequestTooLarge, Reject)
      else if estimate.baselineUnits > view.effectiveAvailableCredits then
        WithVerdict(d, Delayed, InsufficientCredits, Delay).(retryAfterNs := RetryAfter(view))
      else
        WithVerdict(d, Accepted, AcceptedReason, Allow)
  }

  function Evaluate(state: CreditState, request: Request, estimate: Estimate, view: CapacityView): Decision {
    if !view.deviceState.Available? then BlockedDecision(request, view)
    else FillDecision(state, request, estimate, view)
  }

  /** The grant that goes with an accepted decision. */
  function GrantFor(state: CreditState, request: Request, estimate: Estimate): Grant {
    Grant(request.deviceId, request.scopeId, estimate.baselineUnits, 0, estimate.baselineUnits, state.reservationTtlNs)
  }

  function Consume(reservation: Reservation, usage: Usage): Decision {
    var requested := if usage.credits != 0 then usage.credits else usage.baselineUnits;
    UsageDecision(
      reservation, reservation.creditsReserved, reservation.creditsConsumed, requested,
      BLANK_DECISION.(creditsRequired := requested))
  }

  /** The view the policy shows callers: availability up to the overcommit limit. */
  function Capacity(state: CreditState, view: CapacityView): Result<CapacityView> {
    if view.totalCredits == 0 then
      Success(view.(coreAvailableCredits := 0, effectiveAvailableCredits := 0))
    else
      var limit :- OvercommitLimit(state, view.totalCredits);
      var core := SatSub(limit, view.creditsReserved);
      Success(view.(
        coreAvailableCredits := core,
        effectiveAvailableCredits := CappedAvailable(core, view.externalCreditLimit, view.scopedReservedCredits)))
  }
}
