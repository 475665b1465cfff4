/** The rate policy (src/policies/rate.c): slices of device throughput per accounting window. */
module RatePolicy {
  import opened CheckedMath
  import opened Metadata
  import opened Records
  import opened PolicyCommon

  const U128_MAX: int := 0xFFFF_FFFF_FFFF_FFFF_FFFF_FFFF_FFFF_FFFF

  datatype RateState = RateState(reservationTtlNs: u64, rateSlice: u64)

  const INITIAL_STATE := RateState(0, 0)

  function OptionU64(v: Value): Result<u64> {
    if v.payload.U64? then Success(v.payload.u64) else Failure(Inval)
  }

  function ApplyOption(state: RateState, option: KeyValue): Result<RateState> {
    if option.key == OPT_RATE_RESERVATION_TTL_NS || option.key == OPT_CREDIT_RESERVATION_TTL_NS then
      var v :- OptionU64(option.value);
      Success(state.(reservationTtlNs := v))
    else if option.key == OPT_RATE_SLICE then
      var v :- OptionU64(option.value);
      Success(state.(rateSlice := v))
    else
      Success(state)
  }

  function Configure(options: seq<KeyValue>): Result<RateState> {
    if |options| == 0 then Success(INITIAL_STATE)
    else
      var state :- Configure(options[..|options| - 1]);
      ApplyOption(state, options[|options| - 1])
  }

  method ConfigureState(options: seq<KeyValue>) returns (r: Result<RateState>)
    ensures r == Configure(options)
  {
    var state := INITIAL_STATE;
    for i := 0 to |options|
      invariant Configure(options[..i]) == Success(state)
    {
      assert options[..i + 1][..i] == options[..i];
      var next := ApplyOption(state, options[i]);
      if next.Failure? {
        ConfigureFailureStays(options, i + 1);
        return next;
      }
      state := next.value;
    }
    assert options[..|options|] == options;
    return Success(state);
  }

  lemma {:induction false} ConfigureFailureStays(options: seq<KeyValue>, n: nat)
    requires n <= |options| && Configure(options[..n]).Failure?
    ensures Configure(options) == Configure(options[..n])
  {
    if n == |options| {
      assert options[..n] == options;
    } else {
      var front := options[..|options| - 1];
      assert front[..n] == options[..n];
      ConfigureFailureStays(front, n);
    }
  }

  function Init(profile: Profile, options: seq<KeyValue>): (r: Result<RateState>)
    ensures r.Success? ==> profile.timeSpanNs != 0
  {
    var state :- Configure(options);
    if profile.timeSpanNs == 0 then Failure(Inval)
    else if state.rateSlice != 0 && profile.deviceRate != 0 && state.rateSlice > profile.deviceRate then
      Failure(Inval)
    else Success(state)
  }

  /** Refuses options of a wrong type, a device without a time span and a slice beyond an explicit rate, no others. */
  method InitState(profile: Profile, options: seq<KeyValue>) returns (r: Result<RateState>)
    ensures r == Init(profile, options)
    ensures r.Success? <==>
              && Configure(options).Success?
              && profile.timeSpanNs != 0
              && (profile.deviceRate != 0 ==> Configure(options).value.rateSlice <= profile.deviceRate)
    ensures r.Success? ==> r.value == Configure(options).value
  {
    var state :- ConfigureState(options);
    if profile.timeSpanNs == 0
       || (state.rateSlice != 0 && profile.deviceRate != 0 && state.rateSlice > profile.deviceRate) {
      return Failure(Inval);
    }
    return Success(state);
  }

  /**
   Ceiling of a * b / divisor through a 128-bit product. It fails only on a zero divisor or when the
   result does not fit in 64 bits, and otherwise yields the least value whose product covers a * b.
   */
  function CeilMulDiv(a: u64, b: u64, divisor: u64): (r: Result<u64>)
    ensures r.Success? ==> divisor != 0 && a * b <= r.value * divisor
    ensures r.Success? ==> forall v: nat :: a * b <= v * divisor ==> r.value <= v
    ensures r.Failure? && divisor != 0 ==> forall v: nat :: a * b <= v * divisor ==> v > U64_MAX
    ensures r.Failure? ==> r.error == Inval
  {
    if divisor == 0 then Failure(Inval)
    else
      var value := (a * b + divisor - 1) / divisor;
      CeilingLeast(a * b, divisor);
      if value > U64_MAX then Failure(Inval) else Success(value)
  }

  lemma CeilingOfZero(a: u64, b: u64, divisor: u64)
    requires divisor != 0
    ensures a * b == 0 ==> CeilMulDiv(a, b, divisor) == Success(0)
  {
    if a * b == 0 {
      DivisionFacts(divisor - 1, divisor);
      SmallQuotient(divisor);
    }
  }

  lemma SmallQuotient(divisor: nat)
    requires divisor != 0
    ensures (divisor - 1) / divisor == 0
  {
  }

  /** The 128-bit intermediate of CeilMulDiv does not overflow for any arguments. */
  lemma WideProductFits(a: u64, b: u64, divisor: u64)
    requires divisor != 0
    ensures 0 <= a * b + divisor - 1 <= U128_MAX
  {
    ProductBound(a, b, U64_MAX);
  }

  lemma ProductBound(a: nat, b: nat, m: nat)
    requires a <= m && b <= m
    ensures 0 <= a * b <= m * m
  {
    MulMonotone(a, b, m);
    MulMonotone(m, a, m);
  }

  lemma CeilingLeast(product: nat, divisor: nat)
    requires divisor != 0
    ensures var value := (product + divisor - 1) / divisor;
            && 0 <= value
            && product <= value * divisor
            && forall v: nat :: product <= v * divisor ==> value <= v
  {
    DivisionFacts(product + divisor - 1, divisor);
    var value := (product + divisor - 1) / divisor;
    forall v: nat | product <= v * divisor
      ensures value <= v
    {
      if v < value {
        MulMonotone(divisor, v + 1, value);
        Successor(v, divisor);
      }
    }
  }

  lemma Successor(v: nat, d: nat)
    ensures (v + 1) * d == v * d + d
  {
  }

  /**
   Rounds up to a multiple of the slice. It fails only on a zero slice or when the least covering
   multiple does not fit in 64 bits.
   */
  function RoundUp(value: u64, slice: u64): (r: Result<u64>)
    ensures r.Success? ==> slice != 0 && value <= r.value
    ensures r.Success? ==> exists k: nat :: r.value == k * slice
    ensures r.Success? ==> forall k: nat :: value <= k * slice ==> r.value <= k * slice
    ensures r.Failure? && slice != 0 ==> forall k: nat :: value <= k * slice ==> k * slice > U64_MAX
    ensures r.Failure? ==> r.error == Inval
  {
    var invalid: Result<u64> := Failure(Inval);
    if slice == 0 then invalid
    else if value == 0 then
      assert value == 0 * slice;
      Success(0)
    else
      DivisionFacts(value, slice);
      var partial := value / slice;
      if value % slice != 0 && partial == U64_MAX then invalid
      else
        var multiplier := if value % slice != 0 then partial + 1 else partial;
        MultiplierLeast(value, slice);
        MulGuardExact(slice, multiplier);
        if multiplier > U64_MAX / slice then invalid else Success(multiplier * slice)
  }

  lemma MultiplierLeast(value: nat, slice: nat)
    requires slice != 0
    ensures var m := if value % slice != 0 then value / slice + 1 else value / slice;
            && value <= m * slice
            && forall k: nat :: value <= k * slice ==> m <= k && m * slice <= k * slice
  {
    DivisionFacts(value, slice);
    var m := if value % slice != 0 then value / slice + 1 else value / slice;
    Successor(value / slice, slice);
    forall k: nat | value <= k * slice
      ensures m <= k && m * slice <= k * slice
    {
      if k < m {
        MulMonotone(slice, k + 1, m);
        Successor(k, slice);
      }
      MulMonotone(slice, m, k);
    }
  }

  function DefaultSlice(state: RateState, profile: Profile, view: CapacityView): (slice: u64)
    ensures slice != 0
  {
    if state.rateSlice != 0 then state.rateSlice
    else if profile.concurrentJobs == 0 || view.totalRate == 0 then 1
    else
      DivisionFacts(view.totalRate, profile.concurrentJobs);
      var slice := view.totalRate / profile.concurrentJobs;
      if slice == 0 then 1 else slice
  }

  /** The budget and the least rate that does the units in it; a required rate of zero is an error. */
  function Required(profile: Profile, request: Request, estimate: Estimate): Result<(u64, u64)> {
    var budget :- QuantumBudget(request);
    var rate :- CeilMulDiv(estimate.baselineUnits, profile.timeSpanNs, budget);
    if rate == 0 then Failure(Inval) else Success((budget, rate))
  }

  /** The decision together with the rate granted, which is zero unless the request is accepted. */
  function FillDecision(
    state: RateState, profile: Profile, request: Request, estimate: Estimate, view: CapacityView): (Decision, u64)
  {
    var d := BLANK_DECISION.(
      requestId := request.requestId,
      deviceId := request.deviceId,
      scopeId := request.scopeId,
      capacityAvailable := view.effectiveAvailableRate,
      estimatedTotalNs := estimate.totalNs,
      confidencePpm := estimate.confidencePpm);
    var need := Required(profile, request, estimate);
    if need.Failure? then (WithVerdict(d, Rejected, WalltimeInfeasible, Reject), 0)
    else
      var (budget, required) := need.value;
      var sized := d.(quantumBudgetNs := budget, rateRequired := required);
      if view.totalRate == 0 || required > view.totalRate then
        (WithVerdict(sized, Rejected, RequestTooLarge, Reject), 0)
      else
        var slice := DefaultSlice(state, profile, view);
        var granted := RoundUp(required, slice);
        if granted.Failure? || granted.value > view.totalRate then
          (WithVerdict(sized, Rejected, RequestTooLarge, Reject), 0)
        else
          var offered := sized.(capacityGranted := granted.value);
          if view.effectiveAvailableRate < slice || granted.value > view.effectiveAvailableRate then
            (WithVerdict(offered, Delayed, InsufficientRate, Delay).(retryAfterNs := RetryAfter(view)), 0)
          else
            (WithVerdict(offered, Accepted, AcceptedReason, Allow), granted.value)
  }

  function Evaluate(
    state: RateState, profile: Profile, request: Request, estimate: Estimate, view: CapacityView): (Decision, u64)
  {
    if !view.deviceState.Available? then (BlockedDecision(request, view), 0)
    else FillDecision(state, profile, request, estimate, view)
  }

  function GrantFor(state: RateState, request: Request, estimate: Estimate, rate: u64): Grant {
    Grant(request.deviceId, request.scopeId, 0, rate, estimate.baselineUnits, state.reservationTtlNs)
  }

  /** A rate that does the estimated units inside the quantum budget. */
  predicate CoversDemand(profile: Profile, estimate: Estimate, budget: nat, rate: nat) {
    estimate.baselineUnits * profile.timeSpanNs <= rate * budget
  }

  /**
   An accepted grant is the least multiple of the slice that covers the demand: it covers it, no smaller
   multiple does, and it fits both the device and what is available.
   */
  lemma GrantIsLeastCoveringSlice(
    state: RateState, profile: Profile, request: Request, estimate: Estimate, view: CapacityView)
    requires Evaluate(state, profile, request, estimate, view).0.kind == Accepted
    ensures QuantumBudget(request).Success?
    ensures var budget := QuantumBudget(request).value;
            var slice := DefaultSlice(state, profile, view);
            var granted := Evaluate(state, profile, request, estimate, view).1;
            && granted >= 1
            && granted <= view.effectiveAvailableRate
            && granted <= view.totalRate
            && CoversDemand(profile, estimate, budget, granted)
            && (exists k: nat :: granted == k * slice)
            && (forall k: nat :: CoversDemand(profile, estimate, budget, k * slice) ==> granted <= k * slice)
  {
    var budget := QuantumBudget(request).value;
    var slice := DefaultSlice(state, profile, view);
    var required := Required(profile, request, estimate).value.1;
    var granted := RoundUp(required, slice).value;
    MulMonotone(budget, required, granted);
    forall k: nat | CoversDemand(profile, estimate, budget, k * slice)
      ensures granted <= k * slice
    {
      assert required <= k * slice;
    }
  }

  lemma AcceptedHasDemand(
    state: RateState, profile: Profile, request: Request, estimate: Estimate, view: CapacityView)
    requires Evaluate(state, profile, request, estimate, view).0.kind == Accepted
    ensures view.deviceState.Available? && QuantumBudget(request).Success?
    ensures estimate.baselineUnits * profile.timeSpanNs > 0
  {
    hide DefaultSlice, RoundUp;
    CeilingOfZero(estimate.baselineUnits, profile.timeSpanNs, QuantumBudget(request).value);
  }

  /**
   The exact acceptance condition: some multiple of the slice covers a nonzero demand within the
   budget and fits both the device's total rate and the effective availability.
   */
  lemma AcceptsIffSomeSliceFits(
    state: RateState, profile: Profile, request: Request, estimate: Estimate, view: CapacityView)
    requires view.effectiveAvailableRate <= view.totalRate
    ensures Evaluate(state, profile, request, estimate, view).0.kind == Accepted <==>
            && view.deviceState.Available?
            && QuantumBudget(request).Success?
            && estimate.baselineUnits * profile.timeSpanNs > 0
            && exists k: nat ::
                 && CoversDemand(
                      profile, estimate, QuantumBudget(request).value, k * DefaultSlice(state, profile, view))
                 && k * DefaultSlice(state, profile, view) <= view.effectiveAvailableRate
  {
    hide Evaluate, DefaultSlice, QuantumBudget, CoversDemand;
    var slice := DefaultSlice(state, profile, view);
    if Evaluate(state, profile, request, estimate, view).0.kind == Accepted {
      AcceptedHasDemand(state, profile, request, estimate, view);
      GrantIsLeastCoveringSlice(state, profile, request, estimate, view);
    }
    if view.deviceState.Available? && QuantumBudget(request).Success?
       && estimate.baselineUnits * profile.timeSpanNs > 0 {
      var budget := QuantumBudget(request).value;
      if k: nat :| CoversDemand(profile, estimate, budget, k * slice) && k * slice <= view.effectiveAvailableRate {
        SomeSliceIsAccepted(state, profile, request, estimate, view, k);
      }
    }
  }

  lemma SomeSliceIsAccepted(
    state: RateState, profile: Profile, request: Request, estimate: Estimate, view: CapacityView, k: nat)
    requires view.effectiveAvailableRate <= view.totalRate
    requires view.deviceState.Available?
    requires QuantumBudget(request).Success?
    requires estimate.baselineUnits * profile.timeSpanNs > 0
    requires CoversDemand(profile, estimate, QuantumBudget(request).value, k * DefaultSlice(state, profile, view))
    requires k * DefaultSlice(state, profile, view) <= view.effectiveAvailableRate
    ensures Evaluate(state, profile, request, estimate, view).0.kind == Accepted
  {
    var budget := QuantumBudget(request).value;
    var slice := DefaultSlice(state, profile, view);
    var r := CeilMulDiv(estimate.baselineUnits, profile.timeSpanNs, budget);
    assert r.Success? && r.value <= k * slice;
    assert r.value != 0;
    if k == 0 {
      assert false;
    }
    MulGrows(slice, k);
  }

  function Consume(reservation: Reservation, usage: Usage): Decision {
    var requested := if usage.rateUnits != 0 then usage.rateUnits else usage.baselineUnits;
    UsageDecision(
      reservation, reservation.rateReserved, reservation.rateConsumed, requested,
      BLANK_DECISION.(rateRequired := requested))
  }

  function Capacity(view: CapacityView): CapacityView {
    view.(effectiveAvailableRate :=
      CappedAvailable(view.coreAvailableRate, view.externalRateLimit, view.scopedReservedRate))
  }
}
