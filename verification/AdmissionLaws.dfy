/**
 Admission from request to reservation, over the fields of request, device, view and grant: what is turned away
 before the policy is asked, who is admitted beside the reservations there are, and what is then published.
 */
module AdmissionLaws {
  import opened CheckedMath
  import opened Records
  import opened PolicyCommon
  import CreditPolicy
  import RatePolicy
  import opened Policies
  import opened BaselineEstimator
  import opened UsageModel
  import opened ActiveCapacity
  import opened LedgerModel
  import opened LedgerInvariants
  import opened LedgerSteps
  import opened LedgerGuarantees
  import opened LedgerAdmission
  import opened PolicyLaws
  import opened CapacityLaws

  // ---------------------------------------------------------------------------
  // Before the policy is asked.

  /** What a request must name and hold. */
  ghost predicate WellFormed(r: Request) {
    && r.deviceId > 0 && r.walltimeNs > 0 && r.taskClasses != [] && r.workloadKind in {QuantumJob, HybridJob}
    && forall t :: t in r.taskClasses ==> t.count > 0 && t.qubitCount > 0 && t.shots > 0
  }

  /** A request that is turned away before any policy: nothing decided but the reason. */
  predicate TurnedAway(p: Prepared, r: Request, error: Error, reason: Reason) {
    p == Unprepared(
           error,
           BLANK_DECISION.(kind := Rejected, reason := reason, requestId := r.requestId, deviceId := r.deviceId,
                           scopeId := r.scopeId))
  }

  /** The estimate of a request: the built-in one of its tasks, or what a plugin answers. */
  function Estimated(dev: Device, r: Request, inputs: AdmissionInputs): Result<Estimate> {
    match dev.estimator
    case BuiltIn => EstimateTasks(dev.profile, r.taskClasses)
    case PluginEstimator(_) => inputs.estimator.request
  }

  /** What the policy then sees: the core's view as its capacity callback leaves it. */
  ghost function SeenBy(s: Ledger, dev: Device, policy: Policy, scope: u64, inputs: AdmissionInputs)
    : Result<CapacityView>
  {
    match BuildView(s, dev, scope, inputs)
    case Failure(error) => Failure(error)
    case Success(core) =>
      match CapacityCallback(policy, core, inputs.capacity)
      case Failure(_) => Failure(Error.Policy)
      case Success(view) => Success(view)
  }

  /** The checks in their order, each with its own error and reason; a request that passes all is prepared. */
  lemma PreparationExact(s: Ledger, r: Request, inputs: AdmissionInputs)
    ensures var p := Prepare(s, r, inputs);
            if !WellFormed(r) then TurnedAway(p, r, Inval, InvalidRequest)
            else if r.deviceId !in s.devices then TurnedAway(p, r, NotFound, DeviceNotFound)
            else
              var dev := s.devices[r.deviceId];
              if dev.policy == None then TurnedAway(p, r, NotFound, PolicyFailed)
              else if r.walltimeNs <= r.classicalRuntimeNs + r.overheadNs then
                TurnedAway(p, r, Inval, WalltimeInfeasible)
              else
                match Estimated(dev, r, inputs)
                case Failure(error) => TurnedAway(p, r, error, EstimatorFailed)
                case Success(e) =>
                  match SeenBy(s, dev, dev.policy.value, r.scopeId, inputs)
                  case Failure(error) => TurnedAway(p, r, error, PolicyFailed)
                  case Success(view) =>
                    && p.Prepared?
                    && p.device == dev && Some(p.policy) == dev.policy && p.estimate == e && p.view == view
                    && p.budget + r.classicalRuntimeNs + r.overheadNs == r.walltimeNs
  {
    WellFormedIff(r);
    hide ValidRequest, WellFormed, EstimateTasks, BuildView, CapacityCallback;
  }

  lemma WellFormedIff(r: Request)
    ensures ValidRequest(r) <==> WellFormed(r)
  {
  }

  // ---------------------------------------------------------------------------
  // Who is admitted.

  /** Units fit beside what is reserved of a limit and, if there is one, of the scope's external limit. */
  predicate Room(units: nat, reserved: nat, limit: nat, scoped: nat, external: nat) {
    units + reserved <= limit && (external == 0 || units + scoped <= external)
  }

  /**
   On an available credit device a request for at least one unit is accepted exactly when its units fit beside all
   active reservations of the device within what the policy lets out, and beside those of the scope.
   */
  lemma CreditRequestAcceptedIff(s: Ledger, r: Request, inputs: AdmissionInputs, p: Prepared)
    requires Reachable(s) && p == Prepare(s, r, inputs) && p.Prepared? && p.policy.Credit?
    requires p.view.deviceState == Available && p.estimate.baselineUnits > 0
    ensures var m, total := s.reservations, p.view.totalCredits;
            var limit := LetOut(p.policy.credit, total);
            LedgerModel.Evaluate(s, r, inputs).1.kind == Accepted <==>
            && 0 < total && limit <= U64_MAX
            && Room(
                 p.estimate.baselineUnits, SumOf(m, r.deviceId, None, CreditsHeld), limit,
                 SumOf(m, r.deviceId, Some(r.scopeId), CreditsHeld), p.view.externalCreditLimit)
  {
    CreditAdmissionIff(s, r, inputs, p);
    TotalIsSumOf(s.reservations, r.deviceId, None, CreditsReserved, CreditsHeld);
    TotalIsSumOf(s.reservations, r.deviceId, Some(r.scopeId), CreditsReserved, CreditsHeld);
    PreparedCreditsValid(s, r, inputs);
    hide Reachable, Prepare, Total, SumOf, LedgerModel.Evaluate, LetOut, CreditPolicy.OvercommitLimit;
    LimitIsLetOut(p.policy.credit, p.view.totalCredits);
  }

  lemma PreparedCreditsValid(s: Ledger, r: Request, inputs: AdmissionInputs)
    requires Reachable(s) && Prepare(s, r, inputs).Prepared?
    ensures var policy := Prepare(s, r, inputs).policy;
            policy.Credit? ==> policy.credit.overcommitPpm <= 1_000_000
  {
    hide Reachable, WithinCaps, PolicyAdjustedView, EstimateRequest, QuantumBudget, ValidRequest;
    PreparedFacts(s, r, inputs);
    CapsAt(s, r.deviceId);
  }

  /** A multiple of the slice does the work within the budget, and there is room for it. */
  predicate Serves(
    k: nat, slice: nat, units: nat, span: nat, budget: nat, reserved: nat, total: nat, scoped: nat, external: nat)
  {
    units * span <= (k * slice) * budget && Room(k * slice, reserved, total, scoped, external)
  }

  /**
   On an available rate device a request with work to do, its units over the device's time span, is accepted exactly
   when some multiple of the slice does it within the budget and fits beside all active reservations of the device
   within its total rate, and beside those of the scope.
   */
  lemma RateRequestAcceptedIff(s: Ledger, r: Request, inputs: AdmissionInputs, p: Prepared, slice: nat)
    requires Reachable(s) && p == Prepare(s, r, inputs) && p.Prepared? && p.policy.Rate?
    requires p.view.deviceState == Available && p.estimate.baselineUnits > 0 && p.device.profile.timeSpanNs > 0
    requires IsSlice(slice, p.policy.rate, p.device.profile, p.view)
    ensures LedgerModel.Evaluate(s, r, inputs).1.kind == Accepted <==>
            exists k: nat ::
              Serves(
                k, slice, p.estimate.baselineUnits, p.device.profile.timeSpanNs, p.budget,
                SumOf(s.reservations, r.deviceId, None, RateHeld), p.view.totalRate,
                SumOf(s.reservations, r.deviceId, Some(r.scopeId), RateHeld), p.view.externalRateLimit)
  {
    MulGrows(p.device.profile.timeSpanNs, p.estimate.baselineUnits);
    RateAdmissionIff(s, r, inputs, p);
    DefaultSliceIs(slice, p.policy.rate, p.device.profile, p.view);
    TotalIsSumOf(s.reservations, r.deviceId, None, RateReserved, RateHeld);
    TotalIsSumOf(s.reservations, r.deviceId, Some(r.scopeId), RateReserved, RateHeld);
    hide Reachable, Prepare, Total, SumOf, LedgerModel.Evaluate, IsSlice, RatePolicy.DefaultSlice;
    RoomIffServed(s, r, p, slice);
  }

  lemma RoomIffServed(s: Ledger, r: Request, p: Prepared, slice: nat)
    requires p.Prepared? && p.policy.Rate? && slice == RatePolicy.DefaultSlice(p.policy.rate, p.device.profile, p.view)
    ensures RoomForRate(s, r, p) <==>
            exists k: nat ::
              Serves(
                k, slice, p.estimate.baselineUnits, p.device.profile.timeSpanNs, p.budget,
                Total(s.reservations, r.deviceId, None, RateReserved), p.view.totalRate,
                Total(s.reservations, r.deviceId, Some(r.scopeId), RateReserved), p.view.externalRateLimit)
  {
    hide Total, RatePolicy.DefaultSlice;
    forall k: nat
      ensures RatePolicy.CoversDemand(p.device.profile, p.estimate, p.budget, k * slice)
              && Fits(
                   k * slice, Total(s.reservations, r.deviceId, None, RateReserved), p.view.totalRate,
                   Total(s.reservations, r.deviceId, Some(r.scopeId), RateReserved), p.view.externalRateLimit)
         <==> Serves(
                k, slice, p.estimate.baselineUnits, p.device.profile.timeSpanNs, p.budget,
                Total(s.reservations, r.deviceId, None, RateReserved), p.view.totalRate,
                Total(s.reservations, r.deviceId, Some(r.scopeId), RateReserved), p.view.externalRateLimit)
    {
    }
    hide RatePolicy.CoversDemand, Fits, Serves;
  }

  // ---------------------------------------------------------------------------
  // What is answered and published.

  /** The decision of a policy with what the core adds to it. */
  predicate Completed(d: Decision, from: Decision, r: Request, e: Estimate, view: CapacityView, budget: u64) {
    d == from.(
           requestId := r.requestId, deviceId := r.deviceId, scopeId := r.scopeId,
           reservationId := d.reservationId, capacityGranted := d.capacityGranted,
           estimatedTotalNs := e.totalNs,
           estimatedStartNs := view.nextAvailableNs,
           estimatedFinishNs := Min(view.nextAvailableNs + e.totalNs, U64_MAX),
           quantumBudgetNs := budget,
           confidencePpm := e.confidencePpm)
  }

  /** Evaluate answers what the policy says, completed; a policy that fails is answered as it is. */
  lemma EvaluateExact(s: Ledger, r: Request, inputs: AdmissionInputs)
    ensures var (status, d) := LedgerModel.Evaluate(s, r, inputs);
            match Prepare(s, r, inputs)
            case Unprepared(error, decision) => status == Err(error) && d == decision
            case Prepared(dev, policy, e, view, budget) =>
              var reply := EvaluateCallback(policy, dev.profile, r, e, view, inputs.policy);
              && status == reply.status
              && (status != OK ==> d == reply.decision)
              && (status == OK ==>
                    && Completed(d, reply.decision, r, e, view, budget)
                    && d.reservationId == reply.decision.reservationId
                    && d.capacityGranted == reply.decision.capacityGranted)
  {
    hide Prepare, EvaluateCallback;
  }

  /** The core's check of a grant: made for this request and estimate, and within what the view offers of each
      kind of unit that has a total or an external limit. */
  predicate Granted(r: Request, e: Estimate, view: CapacityView, g: Grant) {
    && g.deviceId == r.deviceId && g.scopeId == r.scopeId && g.baselineUnitsGranted == e.baselineUnits
    && (g.creditsGranted <= view.effectiveAvailableCredits || view.totalCredits == view.externalCreditLimit == 0)
    && (g.rateGranted <= view.effectiveAvailableRate || view.totalRate == view.externalRateLimit == 0)
  }

  /** How long a reservation lives: as granted, or asked, or the walltime, or the device's default; zero is no end. */
  predicate Lives(ttl: u64, r: Request, p: Profile, g: Grant) {
    && (g.ttlNs > 0 ==> ttl == g.ttlNs)
    && (g.ttlNs == 0 && r.ttlNs > 0 ==> ttl == r.ttlNs)
    && (g.ttlNs == r.ttlNs == 0 && r.walltimeNs > 0 ==> ttl == r.walltimeNs)
    && (g.ttlNs == r.ttlNs == r.walltimeNs == 0 ==> ttl == p.defaultTtlNs)
  }

  /** The reservation of a request, as it is first published. */
  predicate Published(
    entry: Entry, id: u64, r: Request, dev: Device, policy: Policy, e: Estimate, view: CapacityView, budget: u64,
    g: Grant, ttl: u64)
  {
    && entry == Entry(entry.res, policy, dev.profile.timeSpanNs, [], map[], map[])
    && var n := entry.res;
       && n.reservationId == id && n.requestId == r.requestId && n.deviceId == r.deviceId && n.scopeId == r.scopeId
       && n.userId == r.userId && n.jobId == r.jobId && n.workloadKind == r.workloadKind
       && n.state == Active
       && n.creditsReserved == g.creditsGranted && n.rateReserved == g.rateGranted
       && n.creditsConsumed == n.rateConsumed == n.actualTotalNs == 0
       && n.unusedCapacity == n.overuseCount == n.underuseScore == 0
       && n.quantumBudgetNs == budget && n.estimatedTotalNs == e.totalNs
       && n.profileVersion == dev.profileVersion && n.policyVersion == dev.policyVersion
       && n.estimatorVersion == dev.estimatorVersion
       && n.createdAtNs == view.nowNs
       && n.expiresAtNs == (if ttl > 0 then view.nowNs + ttl else 0)
  }

  /** The units a grant counts as: credits, or rate, or else the estimate's. */
  predicate Amounts(units: u64, g: Grant) {
    if g.creditsGranted > 0 then units == g.creditsGranted
    else if g.rateGranted > 0 then units == g.rateGranted
    else units == g.baselineUnitsGranted
  }

  /** The id of a new reservation and the next automatic candidate, or why there is none. */
  ghost predicate Taken(s: Ledger, requested: u64, taken: Result<(u64, u64)>) {
    if requested > 0 then
      taken == if requested in s.reservations then Failure(Exists) else Success((requested, s.nextId))
    else if s.nextId == 0 || (forall id: u64 :: s.nextId <= id ==> id in s.reservations) then
      taken == Failure(State)
    else
      && taken.Success?
      && var (id, next) := taken.value;
         && s.nextId <= id && id !in s.reservations
         && (forall lower: u64 :: s.nextId <= lower < id ==> lower in s.reservations)
         && next == (if id < U64_MAX then id + 1 else 0)
  }

  lemma AllocationExact(s: Ledger, requested: u64)
    ensures Taken(s, requested, AllocateId(s, requested))
  {
  }

  /** Every way a prepared reserve can end, and all that it changes. */
  lemma ReserveExact(s: Ledger, r: Request, inputs: AdmissionInputs, ttl: u64)
    requires Prepare(s, r, inputs).Prepared?
    ensures var p, taken, out := Prepare(s, r, inputs), AllocateId(s, r.reservationId), Reserve(s, r, inputs);
            var reply := ReserveCallback(p.policy, p.device.profile, r, p.estimate, p.view, inputs.policy);
            Lives(ttl, r, p.device.profile, reply.grant) ==>
              match taken
              case Failure(error) =>
                && out.status == Err(error) && out.published == None && out.ledger == s
                && out.decision.kind == Rejected && out.decision.reason == ObjectExists
              case Success((id, next)) =>
                var spent := s.(nextId := next);
                if reply.status != OK || reply.decision.kind != Accepted then
                  && out.status == reply.status && out.published == None && out.ledger == spent
                  && Completed(out.decision, reply.decision, r, p.estimate, p.view, p.budget)
                else if !Granted(r, p.estimate, p.view, reply.grant) then
                  && out.status == Err(Error.Policy) && out.published == None && out.ledger == spent
                  && out.decision.kind == Rejected && out.decision.reason == PolicyFailed
                else if ttl > 0 && p.view.nowNs + ttl > U64_MAX then
                  out.status == Err(Inval) && out.published == None && out.ledger == spent
                else
                  && out.status == OK && out.published == Some(id)
                  && id in out.ledger.reservations
                  && out.ledger == spent.(reservations := s.reservations[id := out.ledger.reservations[id]])
                  && Published(
                       out.ledger.reservations[id], id, r, p.device, p.policy, p.estimate, p.view, p.budget,
                       reply.grant, ttl)
                  && Completed(out.decision, reply.decision, r, p.estimate, p.view, p.budget)
                  && out.decision.reservationId == id && Amounts(out.decision.capacityGranted, reply.grant)
  {
    hide Prepare, ReserveCallback, AllocateId;
  }

  /** A request that is not prepared reserves nothing, not even an id. */
  lemma UnpreparedReservesNothing(s: Ledger, r: Request, inputs: AdmissionInputs)
    requires Prepare(s, r, inputs).Unprepared?
    ensures var p, out := Prepare(s, r, inputs), Reserve(s, r, inputs);
            out.status == Err(p.error) && out.decision == p.decision && out.ledger == s && out.published == None
  {
    hide Prepare;
  }
}
