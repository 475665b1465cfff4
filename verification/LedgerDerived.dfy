/**
 Which derived totals bind: a plugin estimator may put the baseline's time anew at every call, and a total derived
 from it can fall beneath what is reserved. The exact condition on profile and estimator under which it cannot.
 */
module LedgerDerived {
  import opened CheckedMath
  import opened Records
  import opened PolicyCommon
  import CreditPolicy
  import RatePolicy
  import opened Policies
  import opened BaselineEstimator
  import opened UsageModel
  import opened PluginRegistry
  import opened ActiveCapacity
  import opened LedgerModel
  import opened LedgerInvariants
  import opened LedgerSteps
  import opened LedgerGuarantees
  import opened LedgerAdmission
  import opened LedgerExample

  /** What the credit policy lets out on the total derived from an answer; nothing where it has no limit. */
  function DerivedLimit(dev: Device, answer: Result<Estimate>): nat
    requires dev.policy.Some? && dev.policy.value.Credit? && DeriveTotalCredits(dev, answer).Success?
  {
    var limit := CreditPolicy.OvercommitLimit(dev.policy.value.credit, DeriveTotalCredits(dev, answer).value);
    if limit.Success? then limit.value else 0
  }

  /** A context has a device of this profile and estimator. */
  ghost predicate Has(s: Ledger, p: Profile, estimator: EstimatorKind) {
    p.deviceId in s.devices && s.devices[p.deviceId].profile == p && s.devices[p.deviceId].estimator == estimator
  }

  /** Whenever the device is a credit device, its active credits are within the limit on whatever is derived next. */
  ghost predicate CreditsStayWithinDerived(p: Profile, estimator: EstimatorKind) {
    forall s: Ledger, answer: Result<Estimate> ::
      && Reachable(s) && Has(s, p, estimator) && CreditDevice(s, p.deviceId)
      && DeriveTotalCredits(s.devices[p.deviceId], answer).Success? ==>
        Total(s.reservations, p.deviceId, None, CreditsReserved) <= DerivedLimit(s.devices[p.deviceId], answer)
  }

  ghost predicate RateStaysWithinDerived(p: Profile, estimator: EstimatorKind) {
    forall s: Ledger, answer: Result<Estimate> ::
      && Reachable(s) && Has(s, p, estimator) && RateDevice(s, p.deviceId)
      && DeriveTotalRate(s.devices[p.deviceId], answer).Success? ==>
        Total(s.reservations, p.deviceId, None, RateReserved) <= DeriveTotalRate(s.devices[p.deviceId], answer).value
  }

  // ---------------------------------------------------------------------------
  // The witness: a first answer of one nanosecond, then the longest time.

  function PluginEstimate(units: u64, ns: u64): Estimate {
    NO_ESTIMATE.(baselineUnits := units, totalNs := ns)
  }

  const LONGEST: Result<Estimate> := Success(PluginEstimate(1, U64_MAX))

  /** A setting whose total of the policy's unit hangs on what the plugin estimator answers. */
  predicate Hangs(g: Setting) {
    && g.estimator.PluginEstimator? && ValidProfile(g.profile) && g.profile.timeSpanNs != 0
    && match g.policy
       case CreditKind => g.profile.totalCredits == 0
       case RateKind => g.profile.deviceRate == 0 && g.profile.timeSpanNs >= 2
       case CustomKind(_) => false
  }

  /** Under the credit policy all the span's units, under the rate policy two. */
  function Demand(g: Setting): u64 {
    if g.policy.CreditKind? then g.profile.timeSpanNs else 2
  }

  lemma SomeRateIsGranted(state: RatePolicy.RateState, p: Profile, r: Request, e: Estimate, view: CapacityView)
    requires state == RatePolicy.INITIAL_STATE && p.timeSpanNs >= 2 && QuantumBudget(r) == Success(p.timeSpanNs)
    requires e.baselineUnits == 2 && view.deviceState == Available
    requires view.totalRate == p.timeSpanNs && view.effectiveAvailableRate == p.timeSpanNs
    ensures var (d, rate) := RatePolicy.Evaluate(state, p, r, e, view);
            d.kind == Accepted && rate >= 2
  {
    var span, slice := p.timeSpanNs, RatePolicy.DefaultSlice(state, p, view);
    SliceWithinTotal(state, p, view);
    hide RatePolicy.Evaluate, RatePolicy.DefaultSlice, QuantumBudget;
    var k := if slice >= 2 then 1 else 2;
    assert k * slice >= 2 && k * slice <= span;
    MulMonotone(span, 2, k * slice);
    RatePolicy.SomeSliceIsAccepted(state, p, r, e, view, k);
    RatePolicy.GrantIsLeastCoveringSlice(state, p, r, e, view);
    var rate := RatePolicy.Evaluate(state, p, r, e, view).1;
    if rate < 2 {
      MulMonotone(span, rate, 1);
    }
  }

  lemma SliceWithinTotal(state: RatePolicy.RateState, p: Profile, view: CapacityView)
    requires state.rateSlice == 0 && view.totalRate >= 2
    ensures RatePolicy.DefaultSlice(state, p, view) <= view.totalRate
  {
    if p.concurrentJobs != 0 {
      DivisionFacts(view.totalRate, p.concurrentJobs);
    }
  }

  lemma HangingReservationIsReached(g: Setting) returns (t: Ledger, e: Entry)
    requires Hangs(g)
    ensures Reachable(t) && t.devices == map[g.profile.deviceId := SmallDevice(g)] && t.reservations == map[1 := e]
    ensures Fresh(e) && e.res.deviceId == g.profile.deviceId
    ensures g.policy.CreditKind? ==> e.res.creditsReserved == g.profile.timeSpanNs
    ensures g.policy.RateKind? ==> e.res.rateReserved >= 2
  {
    hide Reachable, Fresh, Reserve, Prepare, PolicyAdjustedView, SmallLedger, RatePolicy.Evaluate;
    SmallLedgerIsReached(g);
    var span, answer := g.profile.timeSpanNs, Success(PluginEstimate(Demand(g), 1));
    var s, r, inputs := SmallLedger(g), OneRun(g.profile.deviceId, 1, span), Inputs(0, answer, NO_REPLY, NO_VIEW);
    var dev := SmallDevice(g);
    DerivedOfOneNs(dev, answer);
    IdleView(
      s, dev, g.policy, answer, DeriveTotalCredits(dev, answer).value, DeriveTotalRate(dev, answer).value);
    OneRunIsPrepared(s, g, r, inputs);
    var p := Prepare(s, r, inputs);
    if g.policy.RateKind? {
      SomeRateIsGranted(RatePolicy.INITIAL_STATE, p.device.profile, r, p.estimate, p.view);
    }
    var reply := ReserveCallback(p.policy, p.device.profile, r, p.estimate, p.view, inputs.policy);
    ShippedGrantsPassGuard(p.policy, p.device.profile, r, p.estimate, p.view, inputs.policy);
    t, e := AcceptedIsPublished(s, r, inputs, p, reply);
  }

  lemma DerivedOfOneNs(dev: Device, answer: Result<Estimate>)
    requires dev.estimator.PluginEstimator? && dev.profile.timeSpanNs != 0
    requires answer.Success? && answer.value.totalNs == 1
    ensures DeriveTotalCredits(dev, answer)
         == Success(if dev.profile.totalCredits != 0 then dev.profile.totalCredits else dev.profile.timeSpanNs)
    ensures DeriveTotalRate(dev, answer)
         == Success(if dev.profile.deviceRate != 0 then dev.profile.deviceRate else dev.profile.timeSpanNs)
  {
  }

  /** The longest time leaves no total but one credit on the longest span, and a rate of one. */
  lemma DerivedOfLongest(dev: Device)
    requires dev.estimator.PluginEstimator? && dev.profile.timeSpanNs != 0
    ensures dev.profile.totalCredits == 0 ==>
              DeriveTotalCredits(dev, LONGEST) == Success(if dev.profile.timeSpanNs == U64_MAX then 1 else 0)
    ensures dev.profile.deviceRate == 0 ==> DeriveTotalRate(dev, LONGEST) == Success(1)
  {
  }

  lemma CreditsFallBelow(p: Profile, estimator: EstimatorKind) returns (s: Ledger)
    requires Hangs(Setting(CreditKind, estimator, p))
    ensures Reachable(s) && Has(s, p, estimator) && CreditDevice(s, p.deviceId)
    ensures DeriveTotalCredits(s.devices[p.deviceId], LONGEST).Success?
    ensures Total(s.reservations, p.deviceId, None, CreditsReserved) == p.timeSpanNs
    ensures DerivedLimit(s.devices[p.deviceId], LONGEST) < p.timeSpanNs
  {
    hide Reachable, Total, Fresh;
    var e;
    s, e := HangingReservationIsReached(Setting(CreditKind, estimator, p));
    OneReservation(1, e, None);
    DerivedOfLongest(s.devices[p.deviceId]);
    hide DeriveTotalCredits, ValidProfile;
  }

  lemma RateFallsBelow(p: Profile, estimator: EstimatorKind) returns (s: Ledger)
    requires Hangs(Setting(RateKind, estimator, p))
    ensures Reachable(s) && Has(s, p, estimator) && RateDevice(s, p.deviceId)
    ensures DeriveTotalRate(s.devices[p.deviceId], LONGEST) == Success(1)
    ensures Total(s.reservations, p.deviceId, None, RateReserved) >= 2
  {
    hide Reachable, Total, Fresh;
    var e;
    s, e := HangingReservationIsReached(Setting(RateKind, estimator, p));
    OneRateReservation(1, e);
    DerivedOfLongest(s.devices[p.deviceId]);
    hide DeriveTotalRate, ValidProfile;
  }

  // ---------------------------------------------------------------------------
  // The exact conditions.

  /**
   Active credits always stay within the limit on the total derived next exactly when no plugin derives it: the
   estimator is built in, or the profile names its credits, or it has no time span to derive them from.
   */
  lemma DerivedCreditsBindIff(p: Profile, estimator: EstimatorKind)
    requires ValidProfile(p)
    ensures CreditsStayWithinDerived(p, estimator) <==>
            estimator.BuiltIn? || p.totalCredits != 0 || p.timeSpanNs == 0
  {
    hide Reachable, Total, ValidProfile, DeriveTotalCredits, DerivedLimit;
    if estimator.BuiltIn? || p.totalCredits != 0 || p.timeSpanNs == 0 {
      forall s: Ledger, answer: Result<Estimate> |
        && Reachable(s) && Has(s, p, estimator) && CreditDevice(s, p.deviceId)
        && DeriveTotalCredits(s.devices[p.deviceId], answer).Success?
        ensures Total(s.reservations, p.deviceId, None, CreditsReserved)
             <= DerivedLimit(s.devices[p.deviceId], answer)
      {
        WithinFixedLimit(s, p.deviceId, answer);
      }
    } else {
      var s := CreditsFallBelow(p, estimator);
      assert DeriveTotalCredits(s.devices[p.deviceId], LONGEST).Success?;
    }
  }

  lemma WithinFixedLimit(s: Ledger, id: u64, answer: Result<Estimate>)
    requires Reachable(s) && CreditDevice(s, id)
    requires var dev := s.devices[id];
             && (dev.estimator.BuiltIn? || dev.profile.totalCredits != 0 || dev.profile.timeSpanNs == 0)
             && DeriveTotalCredits(dev, answer).Success?
    ensures Total(s.reservations, id, None, CreditsReserved) <= DerivedLimit(s.devices[id], answer)
  {
    hide Reachable, Total, BaselineAnswer, CreditPolicy.OvercommitLimit;
    BaselineOfBuiltIn(s.devices[id], answer);
    assert FixedCredits(s.devices[id]).Some?;
    FixedCreditsFixed(s.devices[id], answer);
    ActiveCreditsWithinLimit(s, id);
  }

  lemma BaselineOfBuiltIn(dev: Device, answer: Result<Estimate>)
    ensures dev.estimator.BuiltIn? ==> BaselineAnswer(dev, answer) == BaselineAnswer(dev, NO_ANSWER)
  {
    hide EstimateBaseline;
  }

  /** The same in rate, where a derived total over one nanosecond is always one. */
  lemma DerivedRateBindsIff(p: Profile, estimator: EstimatorKind)
    requires ValidProfile(p)
    ensures RateStaysWithinDerived(p, estimator) <==>
            estimator.BuiltIn? || p.deviceRate != 0 || p.timeSpanNs <= 1
  {
    hide Reachable, Total, ValidProfile, DeriveTotalRate;
    if estimator.BuiltIn? || p.deviceRate != 0 || p.timeSpanNs <= 1 {
      forall s: Ledger, answer: Result<Estimate> |
        && Reachable(s) && Has(s, p, estimator) && RateDevice(s, p.deviceId)
        && DeriveTotalRate(s.devices[p.deviceId], answer).Success?
        ensures Total(s.reservations, p.deviceId, None, RateReserved)
             <= DeriveTotalRate(s.devices[p.deviceId], answer).value
      {
        WithinFixedRate(s, p.deviceId, answer);
      }
    } else {
      var s := RateFallsBelow(p, estimator);
      assert DeriveTotalRate(s.devices[p.deviceId], LONGEST).Success?;
    }
  }

  lemma WithinFixedRate(s: Ledger, id: u64, answer: Result<Estimate>)
    requires Reachable(s) && RateDevice(s, id)
    requires var dev := s.devices[id];
             && (dev.estimator.BuiltIn? || dev.profile.deviceRate != 0 || dev.profile.timeSpanNs <= 1)
             && DeriveTotalRate(dev, answer).Success?
    ensures Total(s.reservations, id, None, RateReserved) <= DeriveTotalRate(s.devices[id], answer).value
  {
    hide Reachable, Total, BaselineAnswer;
    BaselineOfBuiltIn(s.devices[id], answer);
    assert FixedRate(s.devices[id]).Some?;
    FixedRateFixed(s.devices[id], answer);
    ActiveRateWithinTotal(s, id);
  }
}
