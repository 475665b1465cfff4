/**
 Properties of the admission decision itself: the core's guard on a policy's grant, external limits, how far
 evaluate predicts reserve, and automatic reservation ids.
 */
module LedgerAdmission {
  import opened CheckedMath
  import opened Metadata
  import opened Records
  import opened PolicyCommon
  import CreditPolicy
  import RatePolicy
  import opened Policies
  import opened BaselineEstimator
  import opened UsageModel
  import opened MapSum
  import opened ActiveCapacity
  import opened LedgerModel
  import opened LedgerInvariants
  import opened LedgerSteps
  import opened LedgerGuarantees

  // ---------------------------------------------------------------------------
  // The guard.

  /**
   Whatever the reserve callback of a plugin policy answers, the core alone keeps the active sums within any
   fixed nonzero total of the device.
   */
  lemma GuardBoundsAnyPolicy(s: Ledger, id: u64)
    requires Reachable(s) && id in s.devices && s.devices[id].policy == Some(Custom(false))
    ensures FixedCredits(s.devices[id]).Some? && FixedCredits(s.devices[id]).value != 0 ==>
              Total(s.reservations, id, None, CreditsReserved) <= FixedCredits(s.devices[id]).value
    ensures FixedRate(s.devices[id]).Some? && FixedRate(s.devices[id]).value != 0 ==>
              Total(s.reservations, id, None, RateReserved) <= FixedRate(s.devices[id]).value
  {
    hide Reachable, Total, FixedCredits, FixedRate;
    CapsAt(s, id);
  }

  /** What the view of an admission offers under an external limit. */
  lemma OfferHonoursExternalLimit(s: Ledger, dev: Device, policy: Policy, scope: u64, inputs: AdmissionInputs)
    requires PolicyAdjustedView(s, dev, policy, scope, inputs).Success? && policy != Custom(true)
    ensures TakeSnapshot(inputs).Success?
    ensures var view := PolicyAdjustedView(s, dev, policy, scope, inputs).value;
            && view.externalCreditLimit == TakeSnapshot(inputs).value.externalCreditLimit
            && view.externalRateLimit == TakeSnapshot(inputs).value.externalRateLimit
    ensures var view := PolicyAdjustedView(s, dev, policy, scope, inputs).value;
            var credits := Total(s.reservations, dev.profile.deviceId, Some(scope), CreditsReserved);
            var rate := Total(s.reservations, dev.profile.deviceId, Some(scope), RateReserved);
            && (view.externalCreditLimit != 0 ==>
                  if credits >= view.externalCreditLimit then view.effectiveAvailableCredits == 0
                  else credits + view.effectiveAvailableCredits <= view.externalCreditLimit)
            && (view.externalRateLimit != 0 ==>
                  if rate >= view.externalRateLimit then view.effectiveAvailableRate == 0
                  else rate + view.effectiveAvailableRate <= view.externalRateLimit)
  {
    hide Total, DeriveTotalCredits, DeriveTotalRate, CreditPolicy.OvercommitLimit;
  }

  lemma ScopedWithinTotal(m: map<u64, Entry>, device: u64, scope: u64, q: Quantity)
    ensures Total(m, device, Some(scope), q) <= Total(m, device, None, q)
  {
    hide Sum, Weigh;
    SumCompare(Contributions(m, device, Some(scope), q), Contributions(m, device, None, q), 1);
  }

  /** What a prepared request will ask of its policy in credits and in rate: known before the policy is called. */
  predicate AsksForCredits(p: Prepared, inputs: AdmissionInputs)
    requires p.Prepared?
  {
    match p.policy
    case Credit(_) => p.estimate.baselineUnits > 0
    case Rate(_) => false
    case Custom(_) => inputs.policy.grant.creditsGranted > 0
  }

  predicate AsksForRate(p: Prepared, inputs: AdmissionInputs)
    requires p.Prepared?
  {
    match p.policy
    case Credit(_) => false
    case Rate(_) => true
    case Custom(_) => inputs.policy.grant.rateGranted > 0
  }

  /** A limit on a sum before and after a grant: it holds afterwards if it did before, or if units were asked for. */
  predicate LimitedGrant(limit: nat, before: nat, asked: bool, after: nat) {
    after <= limit <==> before <= limit || asked
  }

  lemma LimitedByOffer(limit: nat, before: nat, asked: bool, granted: nat, offer: nat)
    requires granted <= offer && (granted > 0 <==> asked)
    requires if before >= limit then offer == 0 else before + offer <= limit
    ensures LimitedGrant(limit, before, asked, before + granted)
  {
  }

  /** A policy grants units of a kind exactly when the request asks for some of them. */
  lemma GrantedIffAsked(s: Ledger, r: Request, inputs: AdmissionInputs, id: u64, a: Admission)
    requires AdmittedBy(s, r, inputs, id, a)
    ensures Prepare(s, r, inputs).Prepared?
    ensures a.grant.creditsGranted > 0 <==> AsksForCredits(Prepare(s, r, inputs), inputs)
    ensures a.grant.rateGranted > 0 <==> AsksForRate(Prepare(s, r, inputs), inputs)
  {
    hide Prepare, CreateEntry, GrantValid, AllocateId, RatePolicy.Evaluate, CreditPolicy.Evaluate;
    if a.policy.Rate? {
      RatePolicy.GrantIsLeastCoveringSlice(a.policy.rate, a.device.profile, r, a.estimate, a.view);
    }
  }

  lemma AdmittedGuard(s: Ledger, r: Request, inputs: AdmissionInputs, id: u64, a: Admission)
    requires AdmittedBy(s, r, inputs, id, a)
    ensures PolicyAdjustedView(s, a.device, a.policy, r.scopeId, inputs) == Success(a.view)
    ensures a.view.externalCreditLimit != 0 || a.view.totalCredits != 0 ==>
              a.grant.creditsGranted <= a.view.effectiveAvailableCredits
    ensures a.view.externalRateLimit != 0 || a.view.totalRate != 0 ==>
              a.grant.rateGranted <= a.view.effectiveAvailableRate
  {
    PreparedFacts(s, r, inputs);
    hide Prepare, PolicyAdjustedView, CreateEntry, ReserveCallback, EstimateRequest, QuantumBudget;
  }

  lemma DeviceIdAt(s: Ledger, id: u64)
    requires DevicesValid(s) && id in s.devices
    ensures s.devices[id].profile.deviceId == id
  {
    assert ValidDevice(id, s.devices[id]);
  }

  /** How a published reservation moves the sums of its device and scope. */
  lemma GrantMovesSums(
    s: Ledger, r: Request, inputs: AdmissionInputs, id: u64, a: Admission, t: map<u64, Entry>, scope: Option<u64>)
    requires DevicesValid(s) && AdmittedBy(s, r, inputs, id, a) && t == s.reservations[id := a.entry]
    requires scope.Some? ==> scope.value == r.scopeId
    ensures Total(t, r.deviceId, scope, CreditsReserved)
         == Total(s.reservations, r.deviceId, scope, CreditsReserved) + a.grant.creditsGranted
    ensures Total(t, r.deviceId, scope, RateReserved)
         == Total(s.reservations, r.deviceId, scope, RateReserved) + a.grant.rateGranted
  {
    AdmissionFacts(s, r, inputs, id, a);
    hide Total, SoundAt, Backed, AdmittedBy, DevicesValid;
    TotalUpdate(s.reservations, id, a.entry, r.deviceId, scope, CreditsReserved);
    TotalUpdate(s.reservations, id, a.entry, r.deviceId, scope, RateReserved);
  }

  lemma GrantWithinLimits(s: Ledger, r: Request, inputs: AdmissionInputs, id: u64, a: Admission, t: map<u64, Entry>)
    requires DevicesValid(s) && AdmittedBy(s, r, inputs, id, a) && t == s.reservations[id := a.entry]
    requires a.policy != Custom(true)
    ensures Prepare(s, r, inputs).Prepared?
    ensures a.view.externalCreditLimit != 0 ==>
              LimitedGrant(
                a.view.externalCreditLimit,
                Total(s.reservations, r.deviceId, Some(r.scopeId), CreditsReserved),
                AsksForCredits(Prepare(s, r, inputs), inputs),
                Total(t, r.deviceId, Some(r.scopeId), CreditsReserved))
    ensures a.view.externalRateLimit != 0 ==>
              LimitedGrant(
                a.view.externalRateLimit,
                Total(s.reservations, r.deviceId, Some(r.scopeId), RateReserved),
                AsksForRate(Prepare(s, r, inputs), inputs),
                Total(t, r.deviceId, Some(r.scopeId), RateReserved))
  {
    GrantedIffAsked(s, r, inputs, id, a);
    AdmittedGuard(s, r, inputs, id, a);
    AdmittedDevice(s, r, inputs, id, a);
    GrantMovesSums(s, r, inputs, id, a, t, Some(r.scopeId));
    hide Total, PolicyAdjustedView, AdmittedBy, DevicesValid, LimitedGrant, Prepare, AsksForCredits, AsksForRate;
    OfferHonoursExternalLimit(s, a.device, a.policy, r.scopeId, inputs);
    if a.view.externalCreditLimit != 0 {
      LimitedByOffer(
        a.view.externalCreditLimit, Total(s.reservations, r.deviceId, Some(r.scopeId), CreditsReserved),
        AsksForCredits(Prepare(s, r, inputs), inputs), a.grant.creditsGranted, a.view.effectiveAvailableCredits);
    }
    if a.view.externalRateLimit != 0 {
      LimitedByOffer(
        a.view.externalRateLimit, Total(s.reservations, r.deviceId, Some(r.scopeId), RateReserved),
        AsksForRate(Prepare(s, r, inputs), inputs), a.grant.rateGranted, a.view.effectiveAvailableRate);
    }
  }

  lemma AdmittedDevice(s: Ledger, r: Request, inputs: AdmissionInputs, id: u64, a: Admission)
    requires DevicesValid(s) && AdmittedBy(s, r, inputs, id, a)
    ensures r.deviceId in s.devices && a.device == s.devices[r.deviceId] && a.device.profile.deviceId == r.deviceId
    ensures a.device.policy == Some(a.policy)
    ensures Prepare(s, r, inputs) == Prepared(a.device, a.policy, a.estimate, a.view, a.budget)
  {
    PreparedFacts(s, r, inputs);
    hide Prepare, PolicyAdjustedView, CreateEntry, ReserveCallback, EstimateRequest, QuantumBudget;
    DeviceIdAt(s, r.deviceId);
  }

  /**
   After a successful reserve the scope is within a nonzero external limit exactly when it was within it before
   or the request asks for units of that kind: a limit lowered below what is reserved stops new grants but takes
   nothing back, and a request for no units passes under it.
   */
  lemma ScopeLimitIff(s: Ledger, r: Request, inputs: AdmissionInputs)
    requires Inv(s) && Reserve(s, r, inputs).published.Some?
    requires Prepare(s, r, inputs).Prepared? ==> Prepare(s, r, inputs).policy != Custom(true)
    ensures Prepare(s, r, inputs).Prepared? && TakeSnapshot(inputs).Success?
    ensures var after := Reserve(s, r, inputs).ledger.reservations;
            var provider := TakeSnapshot(inputs).value;
            && (provider.externalCreditLimit != 0 ==>
                  LimitedGrant(
                    provider.externalCreditLimit,
                    Total(s.reservations, r.deviceId, Some(r.scopeId), CreditsReserved),
                    AsksForCredits(Prepare(s, r, inputs), inputs),
                    Total(after, r.deviceId, Some(r.scopeId), CreditsReserved)))
            && (provider.externalRateLimit != 0 ==>
                  LimitedGrant(
                    provider.externalRateLimit,
                    Total(s.reservations, r.deviceId, Some(r.scopeId), RateReserved),
                    AsksForRate(Prepare(s, r, inputs), inputs),
                    Total(after, r.deviceId, Some(r.scopeId), RateReserved)))
  {
    var a := ReserveAdmits(s, r, inputs);
    var id := Reserve(s, r, inputs).published.value;
    AdmittedGuard(s, r, inputs, id, a);
    AdmittedDevice(s, r, inputs, id, a);
    hide Reserve, Prepare, ReservationsSound, ActiveBacked, CapsHold, DevicesValid, Total, AdmittedBy, LimitedGrant,
         PolicyAdjustedView, TakeSnapshot;
    OfferHonoursExternalLimit(s, a.device, a.policy, r.scopeId, inputs);
    GrantWithinLimits(s, r, inputs, id, a, Reserve(s, r, inputs).ledger.reservations);
  }

  /**
   With the rate policy, and with the credit policy and the built-in estimator, every request asks for units: the
   scope is always within every nonzero external limit after a successful reserve.
   */
  lemma ShippedPoliciesKeepScopeLimit(s: Ledger, r: Request, inputs: AdmissionInputs)
    requires Reachable(s) && Reserve(s, r, inputs).published.Some?
    requires RateDevice(s, r.deviceId) || (CreditDevice(s, r.deviceId) && s.devices[r.deviceId].estimator.BuiltIn?)
    ensures TakeSnapshot(inputs).Success?
    ensures var after := Reserve(s, r, inputs).ledger.reservations;
            var provider := TakeSnapshot(inputs).value;
            && (provider.externalCreditLimit != 0 ==>
                  Total(after, r.deviceId, Some(r.scopeId), CreditsReserved) <= provider.externalCreditLimit)
            && (provider.externalRateLimit != 0 ==>
                  Total(after, r.deviceId, Some(r.scopeId), RateReserved) <= provider.externalRateLimit)
  {
    hide Reachable, Reserve, Total, Prepare, TakeSnapshot;
    ReachableIsGood(s);
    PublishedIsPrepared(s, r, inputs);
    PreparedFacts(s, r, inputs);
    var p := Prepare(s, r, inputs);
    if p.policy.Credit? {
      UnitsAskedFor(p.device, r, inputs, p.estimate);
    }
    hide Inv, EstimateRequest, PolicyAdjustedView, QuantumBudget;
    ScopeLimitIff(s, r, inputs);
    OtherUnitsAbsent(s, r.deviceId);
    ScopedWithinTotal(s.reservations, r.deviceId, r.scopeId, CreditsReserved);
    ScopedWithinTotal(s.reservations, r.deviceId, r.scopeId, RateReserved);
  }

  lemma PublishedIsPrepared(s: Ledger, r: Request, inputs: AdmissionInputs)
    requires Reserve(s, r, inputs).published.Some?
    ensures Prepare(s, r, inputs).Prepared?
  {
    hide Prepare;
  }

  lemma UnitsAskedFor(dev: Device, r: Request, inputs: AdmissionInputs, e: Estimate)
    requires dev.estimator.BuiltIn? && |r.taskClasses| != 0
    requires EstimateRequest(dev, r, inputs.estimator.request) == Success(e)
    ensures e.baselineUnits > 0
  {
    hide EstimateTasks, UnitNs;
    RequestUnitsCoverTime(dev.profile, r.taskClasses);
  }

  /** The guard never stands in the way of a grant that the credit or the rate policy makes. */
  lemma ShippedGrantsPassGuard(
    policy: Policy, p: Profile, r: Request, e: Estimate, view: CapacityView, plugin: PolicyReply)
    requires !policy.Custom?
    requires ReserveCallback(policy, p, r, e, view, plugin).decision.kind == Accepted
    ensures ReserveCallback(policy, p, r, e, view, plugin).status == OK
    ensures GrantValid(r, view, e, ReserveCallback(policy, p, r, e, view, plugin).grant)
    ensures GrantUnits(ReserveCallback(policy, p, r, e, view, plugin).grant)
         == ReserveCallback(policy, p, r, e, view, plugin).decision.capacityGranted
  {
    if policy.Rate? {
      RatePolicy.GrantIsLeastCoveringSlice(policy.rate, p, r, e, view);
    }
  }

  // ---------------------------------------------------------------------------
  // Who is admitted.

  /** Units fit beside what is reserved, within the limit on all and, if there is one, the limit on the scope. */
  predicate Fits(units: nat, reserved: nat, limit: nat, scoped: nat, externalLimit: nat) {
    && units + reserved <= limit
    && (externalLimit != 0 ==> units + scoped <= externalLimit)
  }

  lemma AvailableIffFits(units: nat, limit: u64, reserved: u64, externalLimit: u64, scoped: u64)
    requires units > 0
    ensures units <= CappedAvailable(SatSub(limit, reserved), externalLimit, scoped)
       <==> Fits(units, reserved, limit, scoped, externalLimit)
  {
  }

  /** On a reachable context the sums in the view are exact, for the device and for the scope. */
  lemma ViewSumsExact(s: Ledger, dev: Device, policy: Policy, scope: u64, inputs: AdmissionInputs)
    requires Reachable(s) && dev.profile.deviceId in s.devices && s.devices[dev.profile.deviceId] == dev
    requires dev.policy == Some(policy) && PolicyAdjustedView(s, dev, policy, scope, inputs).Success?
    ensures var view := PolicyAdjustedView(s, dev, policy, scope, inputs).value;
            var d := dev.profile.deviceId;
            && (policy.Credit? ==>
                  view.creditsReserved == Total(s.reservations, d, None, CreditsReserved)
                  && view.scopedReservedCredits == Total(s.reservations, d, Some(scope), CreditsReserved))
            && (policy.Rate? ==>
                  view.rateReserved == Total(s.reservations, d, None, RateReserved)
                  && view.scopedReservedRate == Total(s.reservations, d, Some(scope), RateReserved))
  {
    hide Reachable, Total, DeriveTotalCredits, DeriveTotalRate, CreditPolicy.OvercommitLimit;
    ScanIsExact(s, dev.profile.deviceId);
    ScopedWithinTotal(s.reservations, dev.profile.deviceId, scope, CreditsReserved);
    ScopedWithinTotal(s.reservations, dev.profile.deviceId, scope, RateReserved);
  }

  /** What the policy's view says is available, in terms of its own sums. */
  lemma AvailabilityFormula(s: Ledger, dev: Device, policy: Policy, scope: u64, inputs: AdmissionInputs)
    requires PolicyAdjustedView(s, dev, policy, scope, inputs).Success?
    ensures var view := PolicyAdjustedView(s, dev, policy, scope, inputs).value;
            && (policy.Credit? && view.totalCredits != 0 ==>
                  CreditPolicy.OvercommitLimit(policy.credit, view.totalCredits).Success?
                  && view.effectiveAvailableCredits
                     == CappedAvailable(
                          SatSub(
                            CreditPolicy.OvercommitLimit(policy.credit, view.totalCredits).value, view.creditsReserved),
                          view.externalCreditLimit, view.scopedReservedCredits))
            && (policy.Rate? ==>
                  view.effectiveAvailableRate
                  == CappedAvailable(
                       SatSub(view.totalRate, view.rateReserved), view.externalRateLimit, view.scopedReservedRate))
  {
    hide FiguresOf, DeriveTotalCredits, DeriveTotalRate, CreditPolicy.OvercommitLimit, CappedAvailable;
  }

  lemma RegisteredUnderId(s: Ledger, id: u64)
    requires Reachable(s) && id in s.devices
    ensures s.devices[id].profile.deviceId == id
  {
    hide Reachable, WithinCaps;
    CapsAt(s, id);
  }

  /** The credits of a prepared request fit within what the policy lets out and within the scope's limit. */
  ghost predicate RoomForCredits(s: Ledger, r: Request, p: Prepared)
    requires p.Prepared? && p.policy.Credit?
  {
    var limit := CreditPolicy.OvercommitLimit(p.policy.credit, p.view.totalCredits);
    && limit.Success?
    && Fits(
         p.estimate.baselineUnits,
         Total(s.reservations, r.deviceId, None, CreditsReserved),
         limit.value,
         Total(s.reservations, r.deviceId, Some(r.scopeId), CreditsReserved),
         p.view.externalCreditLimit)
  }

  /**
   On an available credit device a request for at least one unit is accepted exactly when its units fit beside
   all active reservations within the total plus overcommit, and beside the scope's within the external limit.
   */
  lemma CreditAdmissionIff(s: Ledger, r: Request, inputs: AdmissionInputs, p: Prepared)
    requires p == Prepare(s, r, inputs) && p.Prepared? && p.policy.Credit?
    requires p.view.deviceState.Available? && p.estimate.baselineUnits > 0
    requires Reachable(s)
    ensures LedgerModel.Evaluate(s, r, inputs).1.kind == Accepted <==> RoomForCredits(s, r, p)
  {
    hide Reachable, Total, CreditPolicy.OvercommitLimit, CappedAvailable, PolicyAdjustedView, Fits, ValidDevice,
         WithinCaps, EstimateRequest;
    PreparedFacts(s, r, inputs);
    RegisteredUnderId(s, r.deviceId);
    hide Prepare;
    AvailabilityFormula(s, p.device, p.policy, r.scopeId, inputs);
    ViewSumsExact(s, p.device, p.policy, r.scopeId, inputs);
    if p.view.totalCredits != 0 {
      var limit := CreditPolicy.OvercommitLimit(p.policy.credit, p.view.totalCredits).value;
      CappedNeverMore(SatSub(limit, p.view.creditsReserved), p.view.externalCreditLimit, p.view.scopedReservedCredits);
      AvailableIffFits(
        p.estimate.baselineUnits, limit, p.view.creditsReserved, p.view.externalCreditLimit,
        p.view.scopedReservedCredits);
    } else {
      NoCreditsNoLimit(p.policy.credit);
    }
  }

  lemma NoCreditsNoLimit(state: CreditPolicy.CreditState)
    ensures CreditPolicy.OvercommitLimit(state, 0).Failure?
  {
  }

  /** Some multiple of the slice does the work in time and fits within the total rate and the scope's limit. */
  ghost predicate RoomForRate(s: Ledger, r: Request, p: Prepared)
    requires p.Prepared? && p.policy.Rate?
  {
    var slice := RatePolicy.DefaultSlice(p.policy.rate, p.device.profile, p.view);
    exists k: nat ::
      && RatePolicy.CoversDemand(p.device.profile, p.estimate, p.budget, k * slice)
      && Fits(
           k * slice,
           Total(s.reservations, r.deviceId, None, RateReserved),
           p.view.totalRate,
           Total(s.reservations, r.deviceId, Some(r.scopeId), RateReserved),
           p.view.externalRateLimit)
  }

  /**
   On an available rate device a request with a nonzero demand is accepted exactly when some multiple of the
   slice both does the work in time and fits beside all active reservations within the device's total rate, and
   beside the scope's within the external limit.
   */
  lemma RateAdmissionIff(s: Ledger, r: Request, inputs: AdmissionInputs, p: Prepared)
    requires p == Prepare(s, r, inputs) && p.Prepared? && p.policy.Rate?
    requires p.view.deviceState.Available? && p.estimate.baselineUnits * p.device.profile.timeSpanNs > 0
    requires Reachable(s)
    ensures LedgerModel.Evaluate(s, r, inputs).1.kind == Accepted <==> RoomForRate(s, r, p)
  {
    hide Reachable, Total, CappedAvailable, PolicyAdjustedView, Fits, ValidDevice, WithinCaps, EstimateRequest,
         QuantumBudget, RatePolicy.Evaluate, RatePolicy.DefaultSlice;
    PreparedFacts(s, r, inputs);
    RegisteredUnderId(s, r.deviceId);
    hide Prepare;
    AvailabilityFormula(s, p.device, p.policy, r.scopeId, inputs);
    ViewSumsExact(s, p.device, p.policy, r.scopeId, inputs);
    var slice := RatePolicy.DefaultSlice(p.policy.rate, p.device.profile, p.view);
    CappedNeverMore(
      SatSub(p.view.totalRate, p.view.rateReserved), p.view.externalRateLimit, p.view.scopedReservedRate);
    RatePolicy.AcceptsIffSomeSliceFits(p.policy.rate, p.device.profile, r, p.estimate, p.view);
    hide RatePolicy.CoversDemand;
    forall k: nat | RatePolicy.CoversDemand(p.device.profile, p.estimate, p.budget, k * slice)
      ensures k * slice <= p.view.effectiveAvailableRate
         <==> Fits(
                k * slice, p.view.rateReserved, p.view.totalRate, p.view.scopedReservedRate, p.view.externalRateLimit)
    {
      CoveringSliceFitsIff(p.device.profile, p.estimate, p.budget, k * slice, p.view);
    }
  }

  lemma CoveringSliceFitsIff(profile: Profile, e: Estimate, budget: nat, rate: nat, view: CapacityView)
    requires e.baselineUnits * profile.timeSpanNs > 0 && RatePolicy.CoversDemand(profile, e, budget, rate)
    ensures rate <= CappedAvailable(
                      SatSub(view.totalRate, view.rateReserved), view.externalRateLimit, view.scopedReservedRate)
       <==> Fits(rate, view.rateReserved, view.totalRate, view.scopedReservedRate, view.externalRateLimit)
  {
    if rate == 0 {
      NoRateCoversNothing(profile, e, budget);
      assert false;
    }
    AvailableIffFits(rate, view.totalRate, view.rateReserved, view.externalRateLimit, view.scopedReservedRate);
  }

  lemma NoRateCoversNothing(p: Profile, e: Estimate, budget: nat)
    requires e.baselineUnits * p.timeSpanNs > 0
    ensures !RatePolicy.CoversDemand(p, e, budget, 0)
  {
  }

  // ---------------------------------------------------------------------------
  // Evaluate predicts reserve.

  /** The expiry time of the reservation to be made fits in 64 bits. */
  predicate ExpiryFits(r: Request, p: Profile, view: CapacityView, g: Grant) {
    SelectTtl(r, p, g) == 0 || view.nowNs + SelectTtl(r, p, g) <= U64_MAX
  }

  lemma CreateEntryIff(
    dev: Device, policy: Policy, r: Request, e: Estimate, view: CapacityView, g: Grant, id: u64, budget: u64)
    ensures CreateEntry(dev, policy, r, e, view, g, id, budget).Success? <==> ExpiryFits(r, dev.profile, view, g)
  {
  }

  ghost predicate IdAvailable(s: Ledger, requested: u64) {
    if requested != 0 then requested !in s.reservations
    else s.nextId != 0 && exists id: u64 :: s.nextId <= id && id !in s.reservations
  }

  lemma AllocatesIff(s: Ledger, requested: u64)
    ensures AllocateId(s, requested).Success? <==> IdAvailable(s, requested)
  {
  }

  /** The reservation would be published but for an expiry time beyond 64 bits. */
  ghost predicate ExpiryOverflows(s: Ledger, r: Request, inputs: AdmissionInputs) {
    Prepare(s, r, inputs).Prepared?
    && var p := Prepare(s, r, inputs);
       var reply := ReserveCallback(p.policy, p.device.profile, r, p.estimate, p.view, inputs.policy);
       reply.decision.kind == Accepted && !ExpiryFits(r, p.device.profile, p.view, reply.grant)
  }

  /**
   From the same state and inputs reserve returns what evaluate returned, the reservation id aside, exactly
   when an id is available and the expiry time does not overflow; a request that fails before the policy is
   asked fails alike in both. A reservation is then published if and only if evaluate accepted.
   */
  lemma EvaluatePredictsReserve(s: Ledger, r: Request, inputs: AdmissionInputs)
    requires Prepare(s, r, inputs).Prepared? ==> !Prepare(s, r, inputs).policy.Custom?
    ensures var (status, decision) := LedgerModel.Evaluate(s, r, inputs);
            var reply := Reserve(s, r, inputs);
            var predicted := reply.status == status
                             && reply.decision == decision.(reservationId := reply.decision.reservationId);
            && (predicted <==>
                  Prepare(s, r, inputs).Unprepared?
                  || (IdAvailable(s, r.reservationId) && !ExpiryOverflows(s, r, inputs)))
            && (predicted ==> (reply.published.Some? <==> status == OK && decision.kind == Accepted))
            && (reply.published.Some? ==>
                  reply.decision.capacityGranted == decision.capacityGranted
                  && reply.decision.reservationId == reply.published.value)
  {
    AllocatesIff(s, r.reservationId);
    hide FirstFree, Prepare, IdAvailable, RatePolicy.Evaluate, CreditPolicy.Evaluate, GrantValid, CreateEntry,
         AllocateId, GrantUnits, ExpiryFits;
    var p := Prepare(s, r, inputs);
    if p.Prepared? && AllocateId(s, r.reservationId).Success? {
      var reply := ReserveCallback(p.policy, p.device.profile, r, p.estimate, p.view, inputs.policy);
      if reply.decision.kind == Accepted {
        ShippedGrantsPassGuard(p.policy, p.device.profile, r, p.estimate, p.view, inputs.policy);
        CreateEntryIff(
          p.device, p.policy, r, p.estimate, p.view, reply.grant, AllocateId(s, r.reservationId).value.0, p.budget);
      }
    }
  }

  // ---------------------------------------------------------------------------
  // Automatic ids.

  /** The position of the next automatic candidate; a candidate of zero comes after every id. */
  function Ordinal(nextId: u64): nat {
    if nextId == 0 then U64_MAX + 1 else nextId
  }

  /** A successful automatic allocation moves the candidate past the id it hands out. */
  lemma AllocationAdvances(s: Ledger)
    requires AllocateId(s, 0).Success?
    ensures var (id, next) := AllocateId(s, 0).value;
            id != 0 && id !in s.reservations && Ordinal(s.nextId) <= id < Ordinal(next)
  {
  }

  lemma ReserveOrdinal(s: Ledger, r: Request, inputs: AdmissionInputs)
    ensures Ordinal(s.nextId) <= Ordinal(Reserve(s, r, inputs).ledger.nextId)
    ensures Prepare(s, r, inputs).Prepared? && r.reservationId == 0 && AllocateId(s, 0).Success? ==>
              Reserve(s, r, inputs).ledger.nextId == AllocateId(s, 0).value.1
  {
    hide Prepare, CreateEntry, GrantValid, ReserveCallback, Decorate, FirstFree;
    if r.reservationId == 0 && AllocateId(s, 0).Success? {
      AllocationAdvances(s);
    }
  }

  /** No step ever moves the candidate back. */
  lemma StepNeverMovesBack(s: Ledger, step: Step)
    requires Inv(s)
    ensures Ordinal(s.nextId) <= Ordinal(DoStep(s, step).nextId)
  {
    hide Inv, Reserve, Consume, ReturnUsage, RecordActual, Renew, Transition, DoStep;
    if IsDeviceStep(step) {
      DeviceStepIsIdle(s, step);
    } else {
      OtherStepsCandidate(s, step);
    }
  }

  lemma OtherStepsCandidate(s: Ledger, step: Step)
    requires Inv(s) && !IsDeviceStep(step)
    ensures Ordinal(s.nextId) <= Ordinal(DoStep(s, step).nextId)
  {
    hide Inv, Reserve, Consume, ReturnUsage, RecordActual, Renew, Transition, Indexed;
    match step
    case ReserveStep(r, inputs) => ReserveOrdinal(s, r, inputs);
    case ExpireStep(order, now, releases) => ExpiryKeepsDevices(s, order, now, releases);
    case _ =>
  }

  lemma {:induction false} RunNeverMovesBack(s: Ledger, steps: seq<Step>)
    requires Inv(s)
    ensures Ordinal(s.nextId) <= Ordinal(RunSteps(s, steps).nextId)
  {
    hide Inv, DoStep;
    if |steps| != 0 {
      RunNeverMovesBack(s, steps[..|steps| - 1]);
      StepNeverMovesBack(RunSteps(s, steps[..|steps| - 1]), steps[|steps| - 1]);
    }
  }

  /**
   Automatic ids are nonzero, unused and strictly increasing over a whole run, whatever happens in between and
   even when the policy declined the request that took the first one.
   */
  lemma AutomaticIdsIncrease(s: Ledger, r: Request, inputs: AdmissionInputs, steps: seq<Step>)
    requires Inv(s) && Prepare(s, r, inputs).Prepared? && r.reservationId == 0 && AllocateId(s, 0).Success?
    ensures Inv(Reserve(s, r, inputs).ledger)
    ensures var later := RunSteps(Reserve(s, r, inputs).ledger, steps);
            AllocateId(later, 0).Success? ==>
              && AllocateId(later, 0).value.0 > AllocateId(s, 0).value.0 > 0
              && AllocateId(later, 0).value.0 !in later.reservations
  {
    ReserveKeepsInv(s, r, inputs);
    hide Inv, Reserve, Prepare, FirstFree, RunSteps;
    AllocationAdvances(s);
    ReserveOrdinal(s, r, inputs);
    var later := RunSteps(Reserve(s, r, inputs).ledger, steps);
    RunNeverMovesBack(Reserve(s, r, inputs).ledger, steps);
    if AllocateId(later, 0).Success? {
      AllocationAdvances(later);
    }
  }
}
