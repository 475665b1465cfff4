/**
 What the two finite policies answer, over the fields of request, estimate and view: every verdict with the exact
 condition under which it is given, the slice a rate grant is made of, and what the options configure.
 */
module PolicyLaws {
  import opened CheckedMath
  import opened Metadata
  import opened Records
  import opened PolicyCommon
  import CreditPolicy
  import RatePolicy
  import opened Policies

  predicate Says(d: Decision, kind: DecisionKind, reason: Reason, action: ComplianceAction) {
    d.kind == kind && d.reason == reason && d.action == action
  }

  predicate For(d: Decision, r: Request) {
    d.requestId == r.requestId && d.deviceId == r.deviceId && d.scopeId == r.scopeId && d.reservationId == 0
  }

  /** How long until the device is next available. */
  predicate Waits(wait: nat, view: CapacityView) {
    if view.nextAvailableNs > view.nowNs then view.nowNs + wait == view.nextAvailableNs else wait == 0
  }

  /** Both policies turn requests away alike while the device is not available. */
  lemma BlockedVerdict(
    credit: CreditPolicy.CreditState, rate: RatePolicy.RateState, p: Profile, r: Request, e: Estimate,
    view: CapacityView)
    requires view.deviceState != Available
    ensures var d := CreditPolicy.Evaluate(credit, r, e, view);
            && RatePolicy.Evaluate(rate, p, r, e, view) == (d, 0)
            && For(d, r)
            && (view.deviceState == Draining ==>
                  Says(d, Delayed, DeviceUnavailable, Delay) && Waits(d.retryAfterNs, view))
            && (view.deviceState == Maintenance || view.deviceState == Unavailable ==>
                  Says(d, Rejected, DeviceUnavailable, Reject) && d.retryAfterNs == 0)
            && (view.deviceState == InvalidState ==>
                  Says(d, Rejected, InvalidRequest, Reject) && d.retryAfterNs == 0)
            && d.creditsRequired == d.rateRequired == d.capacityAvailable == d.capacityGranted == 0
  {
  }

  // ---------------------------------------------------------------------------
  // Credits.

  /** The credits a policy with these settings lets out on a total, without regard to 64 bits. */
  function LetOut(state: CreditPolicy.CreditState, total: nat): nat {
    if !state.allowOvercommit then total
    else
      var share := total * state.overcommitPpm / 1_000_000;
      total + (if state.overcommitCredits == 0 || (0 < share < state.overcommitCredits) then share
               else state.overcommitCredits)
  }

  lemma LimitIsLetOut(state: CreditPolicy.CreditState, total: u64)
    requires state.overcommitPpm <= 1_000_000
    ensures CreditPolicy.OvercommitLimit(state, total)
         == if total == 0 || LetOut(state, total) > U64_MAX then Failure(Inval) else Success(LetOut(state, total))
  {
    if total != 0 && state.allowOvercommit {
      CreditPolicy.OvercommitLimitExact(state, total);
      FailsInvalid(state, total);
    }
  }

  lemma FailsInvalid(state: CreditPolicy.CreditState, total: u64)
    ensures var r := CreditPolicy.OvercommitLimit(state, total);
            r.Failure? ==> r.error == Inval
  {
  }

  /** The verdict of the credit policy on an available device: one unit costs one credit. */
  lemma CreditVerdict(state: CreditPolicy.CreditState, r: Request, e: Estimate, view: CapacityView)
    requires view.deviceState == Available && state.overcommitPpm <= 1_000_000
    ensures var d, units := CreditPolicy.Evaluate(state, r, e, view), e.baselineUnits;
            var limit := LetOut(state, view.totalCredits);
            && For(d, r)
            && (d.kind == Accepted <==>
                  && 0 < view.totalCredits && limit <= U64_MAX
                  && units <= limit && units <= view.effectiveAvailableCredits)
            && (d.kind == Accepted ==> Says(d, Accepted, AcceptedReason, Allow))
            && (Says(d, Delayed, InsufficientCredits, Delay) <==>
                  0 < view.totalCredits && view.effectiveAvailableCredits < units <= limit <= U64_MAX)
            && (Says(d, Rejected, RequestTooLarge, Reject) <==>
                  view.totalCredits == 0 || limit < units)
            && (Says(d, Rejected, InvalidRequest, Reject) <==> 0 < view.totalCredits && U64_MAX < limit)
            && (if d.kind == Delayed then Waits(d.retryAfterNs, view) else d.retryAfterNs == 0)
            && d.creditsRequired == units && d.capacityGranted == units && d.rateRequired == 0
            && d.capacityAvailable == view.effectiveAvailableCredits
            && d.estimatedTotalNs == e.totalNs && d.confidencePpm == e.confidencePpm
  {
    LimitIsLetOut(state, view.totalCredits);
    hide LetOut, CreditPolicy.OvercommitLimit;
  }

  // ---------------------------------------------------------------------------
  // Rate.

  /** Some multiple of the slice, at most the cap, does the work within the budget. */
  ghost predicate Sufficient(slice: nat, cap: nat, work: nat, budget: nat) {
    exists k: nat :: k * slice <= cap && work <= (k * slice) * budget
  }

  /** A rate is the least multiple of the slice that does the work within the budget. */
  ghost predicate LeastMultiple(rate: nat, slice: nat, work: nat, budget: nat) {
    && (exists k: nat :: rate == k * slice)
    && work <= rate * budget
    && (forall k: nat :: work <= (k * slice) * budget ==> rate <= k * slice)
  }

  /**
   The slice a rate grant is made of: the configured one, or else an equal share of the total rate for each job that
   may run at once, at least one.
   */
  predicate IsSlice(slice: nat, state: RatePolicy.RateState, p: Profile, view: CapacityView) {
    if state.rateSlice > 0 then slice == state.rateSlice
    else if p.concurrentJobs == 0 || view.totalRate < p.concurrentJobs then slice == 1
    else slice * p.concurrentJobs <= view.totalRate < (slice + 1) * p.concurrentJobs
  }

  lemma DefaultSliceIs(slice: nat, state: RatePolicy.RateState, p: Profile, view: CapacityView)
    ensures IsSlice(slice, state, p, view) <==> slice == RatePolicy.DefaultSlice(state, p, view)
  {
    var own, total, jobs := RatePolicy.DefaultSlice(state, p, view), view.totalRate, p.concurrentJobs;
    if state.rateSlice == 0 && jobs > 0 {
      Shares(total, jobs);
      assert own == if total < jobs then 1 else total / jobs;
      hide RatePolicy.DefaultSlice;
      if jobs <= total && slice < own {
        MulMonotone(jobs, slice + 1, own);
      }
      if jobs <= total && own < slice {
        MulMonotone(jobs, own + 1, slice);
      }
    }
  }

  lemma Shares(total: nat, jobs: nat)
    requires 0 < jobs
    ensures total < jobs ==> total / jobs == 0
    ensures jobs <= total ==> 0 < total / jobs
    ensures (total / jobs) * jobs <= total < (total / jobs + 1) * jobs
  {
    if 0 < total / jobs {
      MulMonotone(jobs, 1, total / jobs);
    }
  }

  /**
   The verdict of the rate policy on an available device. The work is units times time span; the budget is what
   walltime leaves beside classical runtime and overhead.
   */
  lemma RateVerdict(
    state: RatePolicy.RateState, p: Profile, r: Request, e: Estimate, view: CapacityView, slice: nat, budget: nat)
    requires view.deviceState == Available && IsSlice(slice, state, p, view)
    requires budget == if r.classicalRuntimeNs + r.overheadNs < r.walltimeNs
                       then r.walltimeNs - r.classicalRuntimeNs - r.overheadNs else 0
    ensures var (d, granted) := RatePolicy.Evaluate(state, p, r, e, view);
            var work := e.baselineUnits * p.timeSpanNs;
            var feasible := 0 < work <= U64_MAX * budget;
            && For(d, r)
            && (Says(d, Rejected, WalltimeInfeasible, Reject) <==> !feasible)
            && (Says(d, Rejected, RequestTooLarge, Reject) <==>
                  feasible && !Sufficient(slice, view.totalRate, work, budget))
            && (d.kind == Accepted <==>
                  feasible && Sufficient(slice, Min(view.totalRate, view.effectiveAvailableRate), work, budget))
            && (d.kind == Accepted ==> Says(d, Accepted, AcceptedReason, Allow))
            && (Says(d, Delayed, InsufficientRate, Delay) <==>
                  feasible && Sufficient(slice, view.totalRate, work, budget)
                  && !Sufficient(slice, Min(view.totalRate, view.effectiveAvailableRate), work, budget))
            && (d.kind == Accepted || d.kind == Delayed ==> LeastMultiple(d.capacityGranted, slice, work, budget))
            && granted == (if d.kind == Accepted then d.capacityGranted else 0)
            && (if d.kind == Delayed then Waits(d.retryAfterNs, view) else d.retryAfterNs == 0)
            && (feasible ==>
                  && d.quantumBudgetNs == budget
                  && work <= d.rateRequired * budget
                  && (forall rate: nat :: work <= rate * budget ==> d.rateRequired <= rate))
            && d.creditsRequired == 0 && d.capacityAvailable == view.effectiveAvailableRate
            && d.estimatedTotalNs == e.totalNs && d.confidencePpm == e.confidencePpm
  {
    var work := e.baselineUnits * p.timeSpanNs;
    NeedExact(p, r, e, budget);
    DefaultSliceIs(slice, state, p, view);
    var need := RatePolicy.Required(p, r, e);
    hide RatePolicy.Required, RatePolicy.DefaultSlice, IsSlice, LeastMultiple;
    if need.Success? {
      var required := need.value.1;
      RoundedMultiple(required, slice, work, budget, view.totalRate);
      RoundedMultiple(required, slice, work, budget, Min(view.totalRate, view.effectiveAvailableRate));
      MoreSuffices(slice, Min(view.totalRate, view.effectiveAvailableRate), view.totalRate, work, budget);
      AtLeastOneSlice(required, slice);
    }
    hide Sufficient, RatePolicy.RoundUp;
  }

  lemma NeedExact(p: Profile, r: Request, e: Estimate, budget: nat)
    requires budget == if r.classicalRuntimeNs + r.overheadNs < r.walltimeNs
                       then r.walltimeNs - r.classicalRuntimeNs - r.overheadNs else 0
    ensures var need, work := RatePolicy.Required(p, r, e), e.baselineUnits * p.timeSpanNs;
            && (need.Success? <==> 0 < work <= U64_MAX * budget)
            && (need.Success? ==>
                  && need.value.0 == budget
                  && 0 < need.value.1
                  && work <= need.value.1 * budget
                  && (forall rate: nat :: work <= rate * budget ==> need.value.1 <= rate))
  {
    var work := e.baselineUnits * p.timeSpanNs;
    if budget > 0 {
      var rate := RatePolicy.CeilMulDiv(e.baselineUnits, p.timeSpanNs, budget);
      if rate.Failure? && work <= U64_MAX * budget {
        assert false;
      }
      if rate.Success? {
        MulMonotone(budget, rate.value, U64_MAX);
        assert work <= 0 * budget ==> rate.value <= 0;
      }
    }
    hide RatePolicy.CeilMulDiv;
  }

  /** The multiple the policy rounds up to is the least sufficient one, so a cap allows one exactly from there on. */
  lemma RoundedMultiple(required: u64, slice: u64, work: nat, budget: nat, cap: nat)
    requires slice > 0 && required > 0 && cap <= U64_MAX && work <= required * budget
    requires forall rate: nat :: work <= rate * budget ==> required <= rate
    ensures var g := RatePolicy.RoundUp(required, slice);
            && (g.Success? ==> LeastMultiple(g.value, slice, work, budget))
            && (Sufficient(slice, cap, work, budget) <==> g.Success? && g.value <= cap)
  {
    var g := RatePolicy.RoundUp(required, slice);
    forall k: nat
      ensures work <= (k * slice) * budget <==> required <= k * slice
    {
      if required <= k * slice {
        MulMonotone(budget, required, k * slice);
      }
    }
    if g.Success? {
      MulMonotone(budget, required, g.value);
    }
  }

  lemma MoreSuffices(slice: nat, cap: nat, more: nat, work: nat, budget: nat)
    requires cap <= more
    ensures Sufficient(slice, cap, work, budget) ==> Sufficient(slice, more, work, budget)
  {
  }

  lemma AtLeastOneSlice(required: u64, slice: u64)
    requires slice > 0 && required > 0
    ensures var g := RatePolicy.RoundUp(required, slice);
            g.Success? ==> slice <= g.value
  {
    var g := RatePolicy.RoundUp(required, slice);
    if g.Success? {
      var k: nat :| g.value == k * slice;
      MulGrows(slice, k);
    }
  }

  // ---------------------------------------------------------------------------
  // Grants, views and options.

  /** What an accepted request is granted: its units in the policy's own kind, for the configured time to live. */
  lemma GrantOfAccepted(policy: Policy, p: Profile, r: Request, e: Estimate, view: CapacityView, plugin: PolicyReply)
    ensures var reply := ReserveCallback(policy, p, r, e, view, plugin);
            && (policy.Custom? ==> reply == plugin)
            && (!policy.Custom? ==> reply.status == OK)
            && (policy.Credit? ==> reply.decision == CreditPolicy.Evaluate(policy.credit, r, e, view))
            && (policy.Rate? ==> reply.decision == RatePolicy.Evaluate(policy.rate, p, r, e, view).0)
            && (!policy.Custom? && reply.decision.kind == Accepted ==>
                  && reply.grant.deviceId == r.deviceId && reply.grant.scopeId == r.scopeId
                  && reply.grant.baselineUnitsGranted == e.baselineUnits
                  && (if policy.Credit? then
                        && reply.grant.creditsGranted == e.baselineUnits && reply.grant.rateGranted == 0
                        && reply.grant.ttlNs == policy.credit.reservationTtlNs
                      else
                        && reply.grant.creditsGranted == 0
                        && reply.grant.rateGranted == reply.decision.capacityGranted
                        && reply.grant.ttlNs == policy.rate.reservationTtlNs))
            && var dry := EvaluateCallback(policy, p, r, e, view, plugin);
               dry.status == reply.status && dry.decision == reply.decision
  {
    hide RatePolicy.DefaultSlice, RatePolicy.RoundUp, RatePolicy.Required;
  }

  /** What is left under a limit, and under an external limit on the scope if there is one. */
  predicate LeftUnder(available: nat, limit: nat, reserved: nat, external: nat, scoped: nat) {
    && (limit <= reserved || (external > 0 && external <= scoped) ==> available == 0)
    && (reserved < limit && external == 0 ==> available + reserved == limit)
    && (reserved < limit && scoped < external ==> available == Min(limit - reserved, external - scoped))
  }

  lemma CappedIsLeft(limit: u64, reserved: u64, external: u64, scoped: u64)
    ensures LeftUnder(CappedAvailable(SatSub(limit, reserved), external, scoped), limit, reserved, external, scoped)
  {
  }

  /** The view a policy puts before its decision: the credit policy offers up to its limit, the others the totals. */
  lemma PolicyView(policy: Policy, view: CapacityView, plugin: Result<CapacityView>)
    requires policy.Credit? ==> policy.credit.overcommitPpm <= 1_000_000
    requires policy.Rate? ==> view.coreAvailableRate == SatSub(view.totalRate, view.rateReserved)
    ensures var seen := CapacityCallback(policy, view, plugin);
            && (policy == Custom(true) ==> seen == plugin)
            && (policy == Custom(false) ==> seen == Success(view))
            && (policy.Credit? ==>
                  var limit := LetOut(policy.credit, view.totalCredits);
                  && (seen.Success? <==> view.totalCredits == 0 || limit <= U64_MAX)
                  && (seen.Success? ==>
                        && seen.value == view.(coreAvailableCredits := seen.value.coreAvailableCredits,
                                               effectiveAvailableCredits := seen.value.effectiveAvailableCredits)
                        && var offered := if view.totalCredits == 0 then 0 else limit;
                           && LeftUnder(seen.value.coreAvailableCredits, offered, view.creditsReserved, 0, 0)
                           && LeftUnder(
                                seen.value.effectiveAvailableCredits, offered, view.creditsReserved,
                                view.externalCreditLimit, view.scopedReservedCredits)))
            && (policy.Rate? ==>
                  && seen.Success?
                  && seen.value == view.(effectiveAvailableRate := seen.value.effectiveAvailableRate)
                  && LeftUnder(
                       seen.value.effectiveAvailableRate, view.totalRate, view.rateReserved, view.externalRateLimit,
                       view.scopedReservedRate))
  {
    if policy.Credit? {
      LimitIsLetOut(policy.credit, view.totalCredits);
    }
    hide CreditPolicy.OvercommitLimit, LetOut;
  }

  /** The i-th option is the last one under the keys. */
  ghost predicate Last(options: seq<KeyValue>, keys: set<u64>, i: nat) {
    i < |options| && options[i].key in keys && forall j :: i < j < |options| ==> options[j].key !in keys
  }

  ghost predicate Unset(options: seq<KeyValue>, keys: set<u64>) {
    forall o :: o in options ==> o.key !in keys
  }

  /** The setting is the number of the last option under the keys, or zero without any. */
  ghost predicate SetBy(options: seq<KeyValue>, keys: set<u64>, setting: u64) {
    && (forall i: nat :: Last(options, keys, i) ==> options[i].value.payload == U64(setting))
    && (Unset(options, keys) ==> setting == 0)
  }

  predicate Means(v: Value, on: bool) {
    match v.payload
    case Bool(b) => on <==> b != 0
    case U64(n) => on <==> n != 0
    case _ => false
  }

  ghost predicate SwitchedBy(options: seq<KeyValue>, keys: set<u64>, on: bool) {
    && (forall i: nat :: Last(options, keys, i) ==> Means(options[i].value, on))
    && (Unset(options, keys) ==> !on)
  }

  lemma OneMore(options: seq<KeyValue>, keys: set<u64>)
    requires |options| > 0
    ensures var front, last := options[..|options| - 1], options[|options| - 1];
            if last.key in keys then
              !Unset(options, keys) && forall i: nat :: Last(options, keys, i) <==> i == |options| - 1
            else
              && (Unset(options, keys) <==> Unset(front, keys))
              && (forall i: nat :: Last(options, keys, i) <==> Last(front, keys, i))
  {
    var front, last := options[..|options| - 1], options[|options| - 1];
    assert options == front + [last];
    if last.key in keys {
      assert last in options;
      assert Last(options, keys, |options| - 1);
    }
  }

  lemma SetByOneMore(options: seq<KeyValue>, keys: set<u64>, setting: u64)
    requires |options| > 0
    ensures var front, last := options[..|options| - 1], options[|options| - 1];
            SetBy(options, keys, setting) <==>
              if last.key in keys then last.value.payload == U64(setting) else SetBy(front, keys, setting)
  {
    OneMore(options, keys);
    hide Unset;
    var front, last := options[..|options| - 1], options[|options| - 1];
    if last.key in keys {
      assert Last(options, keys, |options| - 1);
    }
    hide Last;
    assert forall i: nat :: i < |front| ==> options[i] == front[i];
    LastInside(options, keys);
    LastInside(front, keys);
  }

  lemma LastInside(options: seq<KeyValue>, keys: set<u64>)
    ensures forall i: nat :: Last(options, keys, i) ==> i < |options|
  {
  }

  lemma SwitchedByOneMore(options: seq<KeyValue>, keys: set<u64>, on: bool)
    requires |options| > 0
    ensures var front, last := options[..|options| - 1], options[|options| - 1];
            SwitchedBy(options, keys, on) <==>
              if last.key in keys then Means(last.value, on) else SwitchedBy(front, keys, on)
  {
    OneMore(options, keys);
    hide Unset;
    var front, last := options[..|options| - 1], options[|options| - 1];
    if last.key in keys {
      assert Last(options, keys, |options| - 1);
    }
    hide Last;
    assert forall i: nat :: i < |front| ==> options[i] == front[i];
    LastInside(options, keys);
    LastInside(front, keys);
  }

  predicate AcceptableCreditOption(o: KeyValue) {
    && (o.key == 1001 || o.key == 1003 ==> o.value.payload.U64?)
    && (o.key == 1004 ==> o.value.payload.U64? && o.value.payload.u64 <= 1_000_000)
    && (o.key == 1002 ==> o.value.payload.U64? || o.value.payload.Bool?)
  }

  lemma AppliesIff(state: CreditPolicy.CreditState, o: KeyValue)
    ensures var r := CreditPolicy.ApplyOption(state, o);
            (r.Success? <==> AcceptableCreditOption(o)) && (r.Failure? ==> r.error == Inval)
  {
  }

  /** Which options the credit policy refuses. */
  lemma {:induction false} CreditOptionsAccepted(options: seq<KeyValue>)
    ensures var r := CreditPolicy.Configure(options);
            && (r.Success? <==> forall o :: o in options ==> AcceptableCreditOption(o))
            && (r.Failure? ==> r.error == Inval)
  {
    if |options| != 0 {
      var front, last := options[..|options| - 1], options[|options| - 1];
      CreditOptionsAccepted(front);
      assert options == front + [last];
      if CreditPolicy.Configure(front).Success? {
        AppliesIff(CreditPolicy.Configure(front).value, last);
      }
      hide CreditPolicy.ApplyOption, AcceptableCreditOption;
    }
  }

  /** What the accepted ones come to. */
  lemma {:induction false} CreditOptionsMean(options: seq<KeyValue>)
    requires CreditPolicy.Configure(options).Success?
    ensures var state := CreditPolicy.Configure(options).value;
            && SetBy(options, {1001}, state.reservationTtlNs)
            && SwitchedBy(options, {1002}, state.allowOvercommit)
            && SetBy(options, {1003}, state.overcommitCredits)
            && SetBy(options, {1004}, state.overcommitPpm)
  {
    if |options| != 0 {
      var state := CreditPolicy.Configure(options).value;
      CreditOptionsMean(options[..|options| - 1]);
      SetByOneMore(options, {1001}, state.reservationTtlNs);
      SwitchedByOneMore(options, {1002}, state.allowOvercommit);
      SetByOneMore(options, {1003}, state.overcommitCredits);
      SetByOneMore(options, {1004}, state.overcommitPpm);
      hide SetBy, SwitchedBy;
    }
  }

  /** The options of the rate policy, which takes its time to live under either policy's key. */
  lemma {:induction false} RateOptions(options: seq<KeyValue>)
    ensures var r := RatePolicy.Configure(options);
            && (r.Success? <==> forall o :: o in options && o.key in {1001, 2001, 2002} ==> o.value.payload.U64?)
            && (r.Failure? ==> r.error == Inval)
            && (r.Success? ==>
                  SetBy(options, {1001, 2001}, r.value.reservationTtlNs) && SetBy(options, {2002}, r.value.rateSlice))
  {
    if |options| != 0 {
      var front, last := options[..|options| - 1], options[|options| - 1];
      RateOptions(front);
      assert options == front + [last];
      var r := RatePolicy.Configure(options);
      if r.Success? {
        SetByOneMore(options, {1001, 2001}, r.value.reservationTtlNs);
        SetByOneMore(options, {2002}, r.value.rateSlice);
      }
      hide SetBy;
    }
  }

  /** Which devices and options each policy can be initialised with. */
  lemma InitialisedIff(p: Profile, options: seq<KeyValue>)
    ensures var r, state := CreditPolicy.Init(p, options), CreditPolicy.Configure(options);
            && (r.Success? <==>
                  && (p.totalCredits > 0 || p.timeSpanNs > 0)
                  && state.Success?
                  && (p.totalCredits > 0 ==> LetOut(state.value, p.totalCredits) <= U64_MAX))
            && (r.Success? ==> r == state)
            && (r.Failure? ==> r.error == Inval)
    ensures var r, state := RatePolicy.Init(p, options), RatePolicy.Configure(options);
            && (r.Success? <==>
                  && p.timeSpanNs > 0
                  && state.Success?
                  && (state.value.rateSlice <= p.deviceRate || p.deviceRate == 0))
            && (r.Success? ==> r == state)
            && (r.Failure? ==> r.error == Inval)
  {
    CreditOptionsAccepted(options);
    RateOptions(options);
    if CreditPolicy.Configure(options).Success? {
      LimitIsLetOut(CreditPolicy.Configure(options).value, p.totalCredits);
    }
    hide CreditPolicy.Configure, RatePolicy.Configure, CreditPolicy.OvercommitLimit, LetOut, SetBy, SwitchedBy;
  }
}
