/**
 The invariant of the whole admission context, and its preservation by the three ways a step changes it:
 devices without active reservations, a single reservation, a newly published reservation.
 */
module LedgerInvariants {
  import opened CheckedMath
  import opened Metadata
  import opened Records
  import opened PolicyCommon
  import CreditPolicy
  import RatePolicy
  import opened Policies
  import opened BaselineEstimator
  import opened UsageLog
  import opened UsageModel
  import opened UsageInvariants
  import opened UsageTheorems
  import opened MapSum
  import opened ActiveCapacity
  import opened LedgerModel

  const NO_ANSWER: Result<Estimate> := Failure(Error.Estimator)

  /** The device's credit total when it does not hang on what a plugin estimator happens to answer. */
  function FixedCredits(dev: Device): Option<u64> {
    if dev.estimator.BuiltIn? || dev.profile.totalCredits != 0 || dev.profile.timeSpanNs == 0 then
      var total := DeriveTotalCredits(dev, NO_ANSWER);
      if total.Success? then Some(total.value) else None
    else None
  }

  /** The same in rate, which is rounded up: over one nanosecond every baseline derives a rate of one. */
  function FixedRate(dev: Device): Option<u64> {
    if dev.estimator.BuiltIn? || dev.profile.deviceRate != 0 || dev.profile.timeSpanNs == 0 then
      var total := DeriveTotalRate(dev, NO_ANSWER);
      if total.Success? then Some(total.value) else None
    else if dev.profile.timeSpanNs == 1 then Some(1)
    else None
  }

  /**
   The most credits that may be reserved on the device at once. Under the credit policy: the total plus the
   configured overcommit, nothing on a device without usable credits, and what 64 bits hold when a plugin
   estimator may answer a new total each time. Under another policy: any fixed nonzero total, unless a plugin's
   own capacity callback decides what the core sees.
   */
  function CreditCap(dev: Device): Option<u64> {
    var total := FixedCredits(dev);
    if dev.policy.Some? && dev.policy.value.Credit? then
      if total.None? then Some(U64_MAX)
      else
        var limit := CreditPolicy.OvercommitLimit(dev.policy.value.credit, total.value);
        Some(if limit.Success? then limit.value else 0)
    else if dev.policy != Some(Custom(true)) && total.Some? && total.value != 0 then total
    else None
  }

  /** The most rate that may be reserved on the device at once. */
  function RateCap(dev: Device): Option<u64> {
    var total := FixedRate(dev);
    if dev.policy.Some? && dev.policy.value.Rate? then Some(if total.Some? then total.value else U64_MAX)
    else if dev.policy != Some(Custom(true)) && total.Some? && total.value != 0 then total
    else None
  }

  /** A reservation was made under exactly the device configuration that stands now. */
  predicate Agrees(e: Entry, dev: Device) {
    && e.res.profileVersion == dev.profileVersion
    && e.res.policyVersion == dev.policyVersion
    && e.res.estimatorVersion == dev.estimatorVersion
    && dev.policy == Some(e.policy)
    && e.rateWindowNs == dev.profile.timeSpanNs
  }

  /** The reserved rate does the estimated time within the quantum budget. */
  predicate RateSuffices(e: Entry, span: nat, unit: nat) {
    e.res.estimatedTotalNs * span <= e.res.rateReserved * e.res.quantumBudgetNs * unit
  }

  /** What the policy granted, in its own kind of unit only, covers what was estimated. */
  predicate Terms(e: Entry, dev: Device) {
    && (e.policy.Credit? ==> e.res.rateReserved == 0)
    && (e.policy.Rate? ==>
          e.res.creditsReserved == 0 && e.res.rateReserved >= 1
          && dev.profile.timeSpanNs != 0 && e.res.quantumBudgetNs != 0)
    && (dev.estimator.BuiltIn? ==>
          && UnitNs(dev.profile).Some?
          && (e.policy.Credit? ==>
                e.res.creditsReserved >= 1
                && e.res.estimatedTotalNs <= e.res.creditsReserved * UnitNs(dev.profile).value)
          && (e.policy.Rate? ==> RateSuffices(e, dev.profile.timeSpanNs, UnitNs(dev.profile).value)))
  }

  predicate ValidDevice(id: u64, dev: Device) {
    && dev.profile.deviceId == id
    && ValidProfile(dev.profile)
    && (dev.policy.Some? && dev.policy.value.Rate? ==> dev.profile.timeSpanNs != 0)
    && (dev.policy.Some? && dev.policy.value.Credit? ==>
          dev.policy.value.credit.overcommitPpm <= CreditPolicy.PPM_SCALE)
  }

  ghost predicate WithinCaps(reservations: map<u64, Entry>, id: u64, dev: Device) {
    && (CreditCap(dev).Some? ==> Total(reservations, id, None, CreditsReserved) <= CreditCap(dev).value)
    && (RateCap(dev).Some? ==> Total(reservations, id, None, RateReserved) <= RateCap(dev).value)
  }

  ghost predicate SoundAt(id: u64, e: Entry) {
    id != 0 && e.res.reservationId == id && Sound(e)
  }

  /** An active reservation's device is registered, unchanged since the reservation was made. */
  predicate Backed(e: Entry, devices: map<u64, Device>) {
    e.res.state == Active ==>
      && e.res.deviceId in devices
      && Agrees(e, devices[e.res.deviceId])
      && Terms(e, devices[e.res.deviceId])
  }

  ghost predicate ReservationsSound(s: Ledger) {
    forall id :: id in s.reservations ==> SoundAt(id, s.reservations[id])
  }

  ghost predicate ActiveBacked(s: Ledger) {
    forall id :: id in s.reservations ==> Backed(s.reservations[id], s.devices)
  }

  ghost predicate DevicesValid(s: Ledger) {
    forall id :: id in s.devices ==> ValidDevice(id, s.devices[id])
  }

  ghost predicate CapsHold(s: Ledger) {
    forall id :: id in s.devices ==> WithinCaps(s.reservations, id, s.devices[id])
  }

  ghost predicate Inv(s: Ledger) {
    ReservationsSound(s) && ActiveBacked(s) && DevicesValid(s) && CapsHold(s)
  }

  lemma EmptyLedgerInv()
    ensures Inv(EMPTY_LEDGER)
  {
  }

  // ---------------------------------------------------------------------------
  // Devices change only where nothing is active.

  ghost predicate FrozenWhereActive(s: Ledger, devices: map<u64, Device>) {
    forall id :: HasActive(s.reservations, id) && id in s.devices ==> id in devices && devices[id] == s.devices[id]
  }

  lemma DeviceChangeKeepsInv(s: Ledger, t: Ledger)
    requires Inv(s)
    requires t.reservations == s.reservations
    requires FrozenWhereActive(s, t.devices)
    requires DevicesValid(t)
    ensures Inv(t)
  {
    hide SoundAt, Terms, Agrees, Total, ValidDevice, CreditCap, RateCap;
    forall id | id in t.reservations
      ensures Backed(t.reservations[id], t.devices)
    {
      var e := s.reservations[id];
      assert Backed(e, s.devices);
      if e.res.state == Active {
        assert ActiveOn(e, e.res.deviceId);
        assert HasActive(s.reservations, e.res.deviceId);
      }
    }
    forall id | id in t.devices
      ensures WithinCaps(t.reservations, id, t.devices[id])
    {
      if !HasActive(s.reservations, id) {
        NothingActiveNothingSummed(s.reservations, id, None, CreditsReserved);
        NothingActiveNothingSummed(s.reservations, id, None, RateReserved);
      } else {
        ActiveDeviceRegistered(s, id);
      }
    }
  }

  lemma ActiveDeviceRegistered(s: Ledger, device: u64)
    requires ActiveBacked(s) && HasActive(s.reservations, device)
    ensures device in s.devices
  {
    var id :| id in s.reservations && ActiveOn(s.reservations[id], device);
    assert Backed(s.reservations[id], s.devices);
  }

  // ---------------------------------------------------------------------------
  // One reservation changes.

  /** An entry that weighs no more than the one it replaces, if any, keeps the sums within their caps. */
  lemma LighterEntryKeepsCaps(m: map<u64, Entry>, id: u64, f: Entry, device: u64, dev: Device)
    requires WithinCaps(m, device, dev)
    requires ActiveOn(f, device) ==>
      id in m && ActiveOn(m[id], device)
      && f.res.creditsReserved <= m[id].res.creditsReserved && f.res.rateReserved <= m[id].res.rateReserved
    ensures WithinCaps(m[id := f], device, dev)
  {
    hide Total, CreditCap, RateCap;
    TotalUpdate(m, id, f, device, None, CreditsReserved);
    TotalUpdate(m, id, f, device, None, RateReserved);
  }

  lemma SameAgreementFacts(e: Entry, f: Entry)
    requires SameAgreement(e, f)
    ensures e.res.deviceId == f.res.deviceId && e.res.reservationId == f.res.reservationId
    ensures e.res.creditsReserved == f.res.creditsReserved && e.res.rateReserved == f.res.rateReserved
    ensures f.res.state == Active && e.res.state == Active ==>
              forall devices :: Backed(e, devices) ==> Backed(f, devices)
  {
  }

  lemma EntryChangeKeepsCaps(s: Ledger, id: u64, f: Entry)
    requires CapsHold(s) && id in s.reservations && SameAgreement(s.reservations[id], f)
    requires f.res.state == Active ==> s.reservations[id].res.state == Active
    ensures CapsHold(Stored(s, id, f))
  {
    SameAgreementFacts(s.reservations[id], f);
    hide WithinCaps, SameAgreement, Backed;
    forall i | i in s.devices
      ensures WithinCaps(s.reservations[id := f], i, s.devices[i])
    {
      LighterEntryKeepsCaps(s.reservations, id, f, i, s.devices[i]);
    }
  }

  lemma EntryChangeKeepsInv(s: Ledger, id: u64, f: Entry)
    requires Inv(s) && id in s.reservations
    requires Sound(f) && SameAgreement(s.reservations[id], f)
    requires f.res.state == Active ==> s.reservations[id].res.state == Active
    ensures Inv(Stored(s, id, f))
  {
    EntryChangeKeepsCaps(s, id, f);
    SameAgreementFacts(s.reservations[id], f);
    hide Sound, CapsHold, ValidDevice, Agrees, Terms, SameAgreement;
    assert SoundAt(id, s.reservations[id]) && Backed(s.reservations[id], s.devices);
    assert SoundAt(id, f) && Backed(f, s.devices);
    hide SoundAt, Backed;
  }

  // ---------------------------------------------------------------------------
  // A new reservation.

  lemma FixedCreditsFixed(dev: Device, plugin: Result<Estimate>)
    requires FixedCredits(dev).Some?
    ensures DeriveTotalCredits(dev, plugin) == Success(FixedCredits(dev).value)
  {
    hide EstimateBaseline;
  }

  lemma FixedRateFixed(dev: Device, plugin: Result<Estimate>)
    requires FixedRate(dev).Some? && DeriveTotalRate(dev, plugin).Success?
    ensures DeriveTotalRate(dev, plugin) == Success(FixedRate(dev).value)
  {
    hide EstimateBaseline;
  }

  lemma CappedNeverMore(core: u64, externalLimit: u64, scoped: u64)
    ensures CappedAvailable(core, externalLimit, scoped) <= core
  {
  }

  /** What the policy's view offers in credits never leads past the cap. */
  lemma OfferedCreditsFit(s: Ledger, dev: Device, policy: Policy, scope: u64, inputs: AdmissionInputs)
    requires dev.policy == Some(policy) && WithinCaps(s.reservations, dev.profile.deviceId, dev)
    requires PolicyAdjustedView(s, dev, policy, scope, inputs).Success?
    requires CreditCap(dev).Some?
    ensures var view := PolicyAdjustedView(s, dev, policy, scope, inputs).value;
            && (FixedCredits(dev).Some? ==> view.totalCredits == FixedCredits(dev).value)
            && (view.totalCredits != 0 ==>
                  Total(s.reservations, dev.profile.deviceId, None, CreditsReserved) + view.effectiveAvailableCredits
                  <= CreditCap(dev).value)
  {
    hide Total, DeriveTotalCredits, DeriveTotalRate, FixedCredits, CreditPolicy.OvercommitLimit, CappedAvailable;
    if FixedCredits(dev).Some? {
      FixedCreditsFixed(dev, inputs.estimator.baselineForCredits);
    }
    var core := BuildView(s, dev, scope, inputs).value;
    var total := core.totalCredits;
    CappedNeverMore(SatSub(total, core.creditsReserved), core.externalCreditLimit, core.scopedReservedCredits);
    if policy.Credit? && total != 0 {
      var limit := CreditPolicy.OvercommitLimit(policy.credit, total).value;
      CappedNeverMore(SatSub(limit, core.creditsReserved), core.externalCreditLimit, core.scopedReservedCredits);
    }
  }

  lemma OfferedRateFits(s: Ledger, dev: Device, policy: Policy, scope: u64, inputs: AdmissionInputs)
    requires dev.policy == Some(policy) && WithinCaps(s.reservations, dev.profile.deviceId, dev)
    requires PolicyAdjustedView(s, dev, policy, scope, inputs).Success?
    requires RateCap(dev).Some?
    ensures var view := PolicyAdjustedView(s, dev, policy, scope, inputs).value;
            && (FixedRate(dev).Some? ==> view.totalRate == FixedRate(dev).value)
            && Total(s.reservations, dev.profile.deviceId, None, RateReserved) + view.effectiveAvailableRate
               <= RateCap(dev).value
  {
    hide Total, DeriveTotalCredits, DeriveTotalRate, FixedRate, CreditPolicy.OvercommitLimit, CappedAvailable;
    if FixedRate(dev).Some? {
      FixedRateFixed(dev, inputs.estimator.baselineForRate);
    }
    var core := BuildView(s, dev, scope, inputs).value;
    CappedNeverMore(SatSub(core.totalRate, core.rateReserved), core.externalRateLimit, core.scopedReservedRate);
  }

  /** The pieces a successful reserve is made of. */
  datatype Admission = Admission(
    device: Device,
    policy: Policy,
    estimate: Estimate,
    view: CapacityView,
    budget: u64,
    grant: Grant,
    entry: Entry)

  ghost predicate AdmittedBy(s: Ledger, r: Request, inputs: AdmissionInputs, id: u64, a: Admission) {
    && Prepare(s, r, inputs) == Prepared(a.device, a.policy, a.estimate, a.view, a.budget)
    && AllocateId(s, r.reservationId).Success?
    && AllocateId(s, r.reservationId).value.0 == id
    && var reply := ReserveCallback(a.policy, a.device.profile, r, a.estimate, a.view, inputs.policy);
       && reply.status == OK
       && reply.decision.kind == Accepted
       && reply.grant == a.grant
       && GrantValid(r, a.view, a.estimate, a.grant)
       && CreateEntry(a.device, a.policy, r, a.estimate, a.view, a.grant, id, a.budget) == Success(a.entry)
  }

  lemma ReserveAdmits(s: Ledger, r: Request, inputs: AdmissionInputs) returns (a: Admission)
    requires Reserve(s, r, inputs).published.Some?
    ensures AdmittedBy(s, r, inputs, Reserve(s, r, inputs).published.value, a)
    ensures Reserve(s, r, inputs).status == OK
    ensures Reserve(s, r, inputs).ledger
         == s.(nextId := AllocateId(s, r.reservationId).value.1,
               reservations := s.reservations[Reserve(s, r, inputs).published.value := a.entry])
  {
    hide Prepare, AllocateId, ReserveCallback, GrantValid, CreateEntry, Decorate;
    var p := Prepare(s, r, inputs);
    var id := AllocateId(s, r.reservationId).value.0;
    var grant := ReserveCallback(p.policy, p.device.profile, r, p.estimate, p.view, inputs.policy).grant;
    var entry := CreateEntry(p.device, p.policy, r, p.estimate, p.view, grant, id, p.budget).value;
    a := Admission(p.device, p.policy, p.estimate, p.view, p.budget, grant, entry);
  }

  /** Without a publication, reserve changes at most the next automatic id. */
  lemma ReserveDeclines(s: Ledger, r: Request, inputs: AdmissionInputs)
    requires Reserve(s, r, inputs).published.None?
    ensures Reserve(s, r, inputs).ledger == s.(nextId := Reserve(s, r, inputs).ledger.nextId)
  {
    hide Prepare, AllocateId, ReserveCallback, GrantValid, CreateEntry, Decorate;
  }

  lemma PreparedFacts(s: Ledger, r: Request, inputs: AdmissionInputs)
    requires Prepare(s, r, inputs).Prepared?
    ensures var p := Prepare(s, r, inputs);
            && r.deviceId in s.devices && p.device == s.devices[r.deviceId]
            && p.device.policy == Some(p.policy)
            && |r.taskClasses| != 0
            && QuantumBudget(r) == Success(p.budget)
            && EstimateRequest(p.device, r, inputs.estimator.request) == Success(p.estimate)
            && PolicyAdjustedView(s, p.device, p.policy, r.scopeId, inputs) == Success(p.view)
  {
    hide QuantumBudget, EstimateRequest, PolicyAdjustedView;
  }

  lemma CreatedEntryFacts(
    dev: Device, policy: Policy, r: Request, e: Estimate, view: CapacityView, g: Grant, id: u64, budget: u64)
    requires CreateEntry(dev, policy, r, e, view, g, id, budget).Success?
    ensures var entry := CreateEntry(dev, policy, r, e, view, g, id, budget).value;
            && Fresh(entry)
            && entry.policy == policy
            && entry.rateWindowNs == dev.profile.timeSpanNs
            && entry.res.reservationId == id
            && entry.res.deviceId == r.deviceId
            && entry.res.scopeId == r.scopeId
            && entry.res.creditsReserved == g.creditsGranted
            && entry.res.rateReserved == g.rateGranted
            && entry.res.quantumBudgetNs == budget
            && entry.res.estimatedTotalNs == e.totalNs
            && entry.res.profileVersion == dev.profileVersion
            && entry.res.policyVersion == dev.policyVersion
            && entry.res.estimatorVersion == dev.estimatorVersion
  {
    hide SelectTtl;
  }

  lemma SufficientRate(total: nat, units: nat, unit: nat, span: nat, rate: nat, budget: nat)
    requires total <= units * unit && units * span <= rate * budget
    ensures total * span <= rate * budget * unit
  {
    MulMonotone(span, total, units * unit);
    MulMonotone(unit, units * span, rate * budget);
    Reorder(units, unit, span);
  }

  lemma Reorder(a: nat, b: nat, c: nat)
    ensures a * b * c == a * c * b
  {
  }

  /** The grants of the two shipped policies carry their own unit only and cover the estimate. */
  lemma GrantMeetsTerms(s: Ledger, r: Request, inputs: AdmissionInputs, id: u64, a: Admission)
    requires AdmittedBy(s, r, inputs, id, a)
    requires ValidDevice(r.deviceId, a.device)
    ensures Terms(a.entry, a.device)
  {
    PreparedFacts(s, r, inputs);
    CreatedEntryFacts(a.device, a.policy, r, a.estimate, a.view, a.grant, id, a.budget);
    hide Prepare, CreateEntry, AllocateId, PolicyAdjustedView, EstimateTasks, ValidProfile, GrantValid, UnitNs,
         RatePolicy.FillDecision, CreditPolicy.FillDecision, BlockedDecision, QuantumBudget, Fresh;
    if a.device.estimator.BuiltIn? {
      RequestUnitsCoverTime(a.device.profile, r.taskClasses);
    }
    if a.policy.Rate? {
      RatePolicy.GrantIsLeastCoveringSlice(a.policy.rate, a.device.profile, r, a.estimate, a.view);
      if a.device.estimator.BuiltIn? {
        SufficientRate(
          a.estimate.totalNs, a.estimate.baselineUnits, UnitNs(a.device.profile).value, a.device.profile.timeSpanNs,
          a.grant.rateGranted, a.budget);
      }
    }
  }

  /** A shipped policy that accepts has found a nonzero total of its kind. */
  lemma AcceptedHasCredits(
    state: CreditPolicy.CreditState, r: Request, e: Estimate, view: CapacityView)
    requires CreditPolicy.Evaluate(state, r, e, view).kind == Accepted
    ensures view.totalCredits != 0
  {
  }

  lemma AcceptedHasRate(
    state: RatePolicy.RateState, p: Profile, r: Request, e: Estimate, view: CapacityView)
    requires RatePolicy.Evaluate(state, p, r, e, view).0.kind == Accepted
    ensures view.totalRate != 0
  {
    RatePolicy.GrantIsLeastCoveringSlice(state, p, r, e, view);
  }

  lemma GrantWithinCaps(s: Ledger, r: Request, inputs: AdmissionInputs, id: u64, a: Admission)
    requires AdmittedBy(s, r, inputs, id, a)
    requires ValidDevice(r.deviceId, a.device) && WithinCaps(s.reservations, r.deviceId, a.device)
    ensures CreditCap(a.device).Some? ==>
              Total(s.reservations, r.deviceId, None, CreditsReserved) + a.grant.creditsGranted
              <= CreditCap(a.device).value
    ensures RateCap(a.device).Some? ==>
              Total(s.reservations, r.deviceId, None, RateReserved) + a.grant.rateGranted <= RateCap(a.device).value
  {
    PreparedFacts(s, r, inputs);
    hide Prepare, CreateEntry, AllocateId, PolicyAdjustedView, EstimateRequest, ValidProfile, Total,
         RatePolicy.Evaluate, CreditPolicy.Evaluate, QuantumBudget, CreditPolicy.OvercommitLimit,
         DeriveTotalCredits, DeriveTotalRate;
    if CreditCap(a.device).Some? {
      OfferedCreditsFit(s, a.device, a.policy, r.scopeId, inputs);
      if a.policy.Credit? {
        AcceptedHasCredits(a.policy.credit, r, a.estimate, a.view);
      }
    }
    if RateCap(a.device).Some? {
      OfferedRateFits(s, a.device, a.policy, r.scopeId, inputs);
      if a.policy.Rate? {
        AcceptedHasRate(a.policy.rate, a.device.profile, r, a.estimate, a.view);
      }
    }
  }

  lemma AllocatedIdIsNew(s: Ledger, requested: u64)
    requires AllocateId(s, requested).Success?
    ensures AllocateId(s, requested).value.0 != 0
    ensures AllocateId(s, requested).value.0 !in s.reservations
  {
  }

  lemma ReserveKeepsInv(s: Ledger, r: Request, inputs: AdmissionInputs)
    requires Inv(s)
    ensures Inv(Reserve(s, r, inputs).ledger)
  {
    var reply := Reserve(s, r, inputs);
    if reply.published.None? {
      ReserveDeclines(s, r, inputs);
      hide Reserve;
      DeviceChangeKeepsInv(s, reply.ledger);
    } else {
      var id := reply.published.value;
      var a := ReserveAdmits(s, r, inputs);
      hide Reserve;
      AdmissionKeepsInv(s, r, inputs, id, a, reply.ledger);
    }
  }

  /** What every admission brings: a new id and a sound entry backed by the device as it stands. */
  lemma AdmissionFacts(s: Ledger, r: Request, inputs: AdmissionInputs, id: u64, a: Admission)
    requires DevicesValid(s) && AdmittedBy(s, r, inputs, id, a)
    ensures r.deviceId in s.devices && a.device == s.devices[r.deviceId]
    ensures id !in s.reservations && SoundAt(id, a.entry) && Backed(a.entry, s.devices) && Fresh(a.entry)
    ensures a.entry.res.deviceId == r.deviceId && a.entry.res.scopeId == r.scopeId
    ensures a.entry.res.creditsReserved == a.grant.creditsGranted && a.entry.res.rateReserved == a.grant.rateGranted
  {
    AllocatedIdIsNew(s, r.reservationId);
    PreparedFacts(s, r, inputs);
    CreatedEntryFacts(a.device, a.policy, r, a.estimate, a.view, a.grant, id, a.budget);
    hide Prepare, CreateEntry, AllocateId, PolicyAdjustedView, EstimateRequest, ReserveCallback, GrantValid,
         QuantumBudget, ValidDevice, Terms, Sound;
    FreshIsSound(a.entry);
    assert ValidDevice(r.deviceId, a.device);
    GrantMeetsTerms(s, r, inputs, id, a);
    hide AdmittedBy;
  }

  lemma HeavierEntryKeepsCaps(m: map<u64, Entry>, id: u64, f: Entry, device: u64, dev: Device)
    requires id !in m
    requires CreditCap(dev).Some? ==>
      Total(m, device, None, CreditsReserved) + f.res.creditsReserved <= CreditCap(dev).value
    requires RateCap(dev).Some? ==> Total(m, device, None, RateReserved) + f.res.rateReserved <= RateCap(dev).value
    ensures WithinCaps(m[id := f], device, dev)
  {
    hide Total, CreditCap, RateCap;
    TotalUpdate(m, id, f, device, None, CreditsReserved);
    TotalUpdate(m, id, f, device, None, RateReserved);
  }

  lemma AdmissionKeepsInv(s: Ledger, r: Request, inputs: AdmissionInputs, id: u64, a: Admission, t: Ledger)
    requires Inv(s) && AdmittedBy(s, r, inputs, id, a)
    requires t.devices == s.devices && t.reservations == s.reservations[id := a.entry]
    ensures Inv(t)
  {
    hide AdmittedBy, SoundAt, Backed, ValidDevice, WithinCaps, Fresh, Total, CreditCap, RateCap;
    AdmissionFacts(s, r, inputs, id, a);
    GrantWithinCaps(s, r, inputs, id, a);
    forall i | i in t.devices
      ensures WithinCaps(t.reservations, i, t.devices[i])
    {
      if i == r.deviceId {
        HeavierEntryKeepsCaps(s.reservations, id, a.entry, i, s.devices[i]);
      } else {
        LighterEntryKeepsCaps(s.reservations, id, a.entry, i, s.devices[i]);
      }
    }
  }
}
