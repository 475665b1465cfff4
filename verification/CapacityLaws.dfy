/**
 The capacity view in terms of the reservations' own fields: which reservations are counted, what each adds, and
 what is then offered.
 */
module CapacityLaws {
  import opened CheckedMath
  import opened Records
  import opened PolicyCommon
  import opened BaselineEstimator
  import opened UsageModel
  import opened MapSum
  import opened ActiveCapacity
  import opened LedgerModel
  import opened LedgerInvariants
  import opened PolicyLaws

  /** The active reservations of a device, or of one scope on it. */
  ghost function Holders(reservations: map<u64, Entry>, device: u64, scope: Option<u64>): set<u64> {
    set id | id in reservations && reservations[id].res.state == Active && reservations[id].res.deviceId == device
             && (scope == None || scope == Some(reservations[id].res.scopeId))
  }

  /** A total is the sum over exactly those reservations of what each weighs. */
  lemma TotalIsSum(
    reservations: map<u64, Entry>, device: u64, scope: Option<u64>, q: Quantity, weights: map<u64, nat>)
    requires weights.Keys == Holders(reservations, device, scope)
    requires forall id :: id in weights ==> weights[id] == Weigh(q, reservations[id])
    ensures Total(reservations, device, scope, q) == Sum(weights)
  {
    hide Sum, Weigh;
    var m := Contributions(reservations, device, scope, q);
    forall id | id in m
      ensures if id in weights then weights[id] == m[id] else m[id] == 0
    {
      assert id in weights <==> id in Holders(reservations, device, scope);
    }
    SumWithoutZeros(m, weights);
  }

  /** What those reservations come to, each by a weight of its own fields. */
  ghost function SumOf(
    reservations: map<u64, Entry>, device: u64, scope: Option<u64>, weight: Reservation -> nat): nat
  {
    Sum(map id | id in Holders(reservations, device, scope) :: weight(reservations[id].res))
  }

  lemma TotalIsSumOf(
    reservations: map<u64, Entry>, device: u64, scope: Option<u64>, q: Quantity, weight: Reservation -> nat)
    requires forall e :: Weigh(q, e) == weight(e.res)
    ensures Total(reservations, device, scope, q) == SumOf(reservations, device, scope, weight)
  {
    hide Sum, Weigh, Total;
    TotalIsSum(
      reservations, device, scope, q,
      map id | id in Holders(reservations, device, scope) :: weight(reservations[id].res));
  }

  function One(r: Reservation): nat { 1 }

  function CreditsHeld(r: Reservation): nat { r.creditsReserved }

  function CreditsUsed(r: Reservation): nat { r.creditsConsumed }

  function RateHeld(r: Reservation): nat { r.rateReserved }

  function RateUsed(r: Reservation): nat { r.rateConsumed }

  /** Unused capacity counts as returned in the kind of unit the reservation counts in, credits before rate. */
  function CreditsBack(r: Reservation): nat {
    if r.creditsReserved > 0 then r.unusedCapacity else 0
  }

  function RateBack(r: Reservation): nat {
    if r.creditsReserved == 0 && r.rateReserved > 0 then r.unusedCapacity else 0
  }

  /** The nine figures of a view, cut off where 64 bits end. */
  lemma FiguresExact(reservations: map<u64, Entry>, device: u64, scope: u64)
    ensures var f := FiguresOf(reservations, device, scope);
            && f.activeCount == Min(SumOf(reservations, device, None, One), U64_MAX)
            && f.creditsReserved == Min(SumOf(reservations, device, None, CreditsHeld), U64_MAX)
            && f.creditsConsumed == Min(SumOf(reservations, device, None, CreditsUsed), U64_MAX)
            && f.creditsReturned == Min(SumOf(reservations, device, None, CreditsBack), U64_MAX)
            && f.scopedCredits == Min(SumOf(reservations, device, Some(scope), CreditsHeld), U64_MAX)
            && f.rateReserved == Min(SumOf(reservations, device, None, RateHeld), U64_MAX)
            && f.rateConsumed == Min(SumOf(reservations, device, None, RateUsed), U64_MAX)
            && f.rateReturned == Min(SumOf(reservations, device, None, RateBack), U64_MAX)
            && f.scopedRate == Min(SumOf(reservations, device, Some(scope), RateHeld), U64_MAX)
  {
    hide Total, SumOf;
    TotalIsSumOf(reservations, device, None, ActiveCount, One);
    TotalIsSumOf(reservations, device, None, CreditsReserved, CreditsHeld);
    TotalIsSumOf(reservations, device, None, CreditsConsumed, CreditsUsed);
    TotalIsSumOf(reservations, device, None, CreditsReturned, CreditsBack);
    TotalIsSumOf(reservations, device, Some(scope), CreditsReserved, CreditsHeld);
    TotalIsSumOf(reservations, device, None, RateReserved, RateHeld);
    TotalIsSumOf(reservations, device, None, RateConsumed, RateUsed);
    TotalIsSumOf(reservations, device, None, RateReturned, RateBack);
    TotalIsSumOf(reservations, device, Some(scope), RateReserved, RateHeld);
  }

  // ---------------------------------------------------------------------------
  // Totals and view.

  /** A device's time for one baseline circuit: its own, or what a plugin estimator answers. */
  function BaselineTime(dev: Device, plugin: Result<Estimate>): Option<u64> {
    if dev.estimator.BuiltIn? then UnitNs(dev.profile)
    else if plugin.Success? && plugin.value.totalNs > 0 then Some(plugin.value.totalNs)
    else None
  }

  /** Totals named in the profile stand; others are what fits the time span, credits in full, rate started. */
  lemma DerivedTotalsExact(dev: Device, plugin: Result<Estimate>)
    ensures var p, time := dev.profile, BaselineTime(dev, plugin);
            var credits, rate := DeriveTotalCredits(dev, plugin), DeriveTotalRate(dev, plugin);
            && (p.totalCredits > 0 ==> credits == Success(p.totalCredits))
            && (p.deviceRate > 0 ==> rate == Success(p.deviceRate))
            && (p.totalCredits == 0 && p.timeSpanNs == 0 ==> credits == Success(0))
            && (p.deviceRate == 0 && p.timeSpanNs == 0 ==> rate == Success(0))
            && (p.totalCredits == 0 && p.timeSpanNs > 0 ==>
                  match time
                  case None => credits == Failure(Error.Estimator)
                  case Some(t) =>
                    credits.Success? && credits.value * t <= p.timeSpanNs < (credits.value + 1) * t)
            && (p.deviceRate == 0 && p.timeSpanNs > 0 ==>
                  match time
                  case None => rate == Failure(Error.Estimator)
                  case Some(t) =>
                    rate.Success? && rate.value > 0 && (rate.value - 1) * t < p.timeSpanNs <= rate.value * t)
  {
    hide EstimateBaseline;
    match BaselineTime(dev, plugin)
    case None =>
    case Some(t) =>
      Shares(dev.profile.timeSpanNs, t);
  }

  /** A total that no plugin decides is what every derivation of it gives. */
  lemma FixedTotalsExact(dev: Device, plugin: Result<Estimate>)
    ensures var p := dev.profile;
            && (FixedCredits(dev).Some? ==> DeriveTotalCredits(dev, plugin) == Success(FixedCredits(dev).value))
            && (FixedCredits(dev).None? <==>
                  && p.totalCredits == 0 && p.timeSpanNs > 0
                  && (dev.estimator.PluginEstimator? || UnitNs(p).None?))
            && (FixedRate(dev).Some? && DeriveTotalRate(dev, plugin).Success? ==>
                  DeriveTotalRate(dev, plugin).value == FixedRate(dev).value)
            && (FixedRate(dev).None? <==>
                  && p.deviceRate == 0 && p.timeSpanNs > 0
                  && (if dev.estimator.BuiltIn? then UnitNs(p).None? else p.timeSpanNs > 1))
  {
    if FixedCredits(dev).Some? {
      FixedCreditsFixed(dev, plugin);
    }
    if FixedRate(dev).Some? && DeriveTotalRate(dev, plugin).Success? {
      FixedRateFixed(dev, plugin);
    }
    hide EstimateBaseline;
  }

  /** The moment's state of the device as a provider reports it; without a provider, available and unlimited. */
  lemma SnapshotTaken(inputs: AdmissionInputs)
    ensures TakeSnapshot(inputs)
         == match inputs.snapshot
            case Some(answer) => answer
            case None => Success(Snapshot(Available, inputs.now, 0, 0, 0, 0, 1_000_000))
  {
  }

  /** What a view says of one kind of unit. */
  predicate Shows(
    total: nat, reserved: nat, core: nat, external: nat, scoped: nat, available: nat, viewReserved: nat,
    viewScoped: nat)
  {
    && viewReserved == Min(reserved, U64_MAX) && viewScoped == Min(scoped, U64_MAX)
    && (if viewReserved <= total then core + viewReserved == total else core == 0)
    && LeftUnder(available, total, viewReserved, external, viewScoped)
  }

  /** The core's view before any policy: the totals, what is reserved of them, and what that leaves. */
  lemma ViewExact(s: Ledger, dev: Device, scope: u64, inputs: AdmissionInputs)
    ensures var snapshot := TakeSnapshot(inputs);
            var credits := DeriveTotalCredits(dev, inputs.estimator.baselineForCredits);
            var rate := DeriveTotalRate(dev, inputs.estimator.baselineForRate);
            var built := BuildView(s, dev, scope, inputs);
            && (snapshot.Failure? ==> built == Failure(snapshot.error))
            && (snapshot.Success? && credits.Failure? ==> built == Failure(credits.error))
            && (snapshot.Success? && credits.Success? && rate.Failure? ==> built == Failure(rate.error))
            && (snapshot.Success? && credits.Success? && rate.Success? ==>
                  && built.Success?
                  && var v, from, id, m := built.value, snapshot.value, dev.profile.deviceId, s.reservations;
                     && v.deviceState == from.deviceState && v.confidencePpm == from.confidencePpm
                     && v.nowNs == (if from.nowNs > 0 then from.nowNs else inputs.laterNow)
                     && v.nextAvailableNs == from.nextAvailableNs
                     && v.activeReservationCount
                        == Min(SumOf(m, id, None, One) + from.activeReservationCount, U64_MAX)
                     && v.totalCredits == credits.value && v.externalCreditLimit == from.externalCreditLimit
                     && Shows(
                          v.totalCredits, SumOf(m, id, None, CreditsHeld), v.coreAvailableCredits,
                          v.externalCreditLimit, SumOf(m, id, Some(scope), CreditsHeld), v.effectiveAvailableCredits,
                          v.creditsReserved, v.scopedReservedCredits)
                     && v.creditsConsumed == Min(SumOf(m, id, None, CreditsUsed), U64_MAX)
                     && v.creditsReturned == Min(SumOf(m, id, None, CreditsBack), U64_MAX)
                     && v.totalRate == rate.value && v.externalRateLimit == from.externalRateLimit
                     && Shows(
                          v.totalRate, SumOf(m, id, None, RateHeld), v.coreAvailableRate, v.externalRateLimit,
                          SumOf(m, id, Some(scope), RateHeld), v.effectiveAvailableRate, v.rateReserved,
                          v.scopedReservedRate)
                     && v.rateConsumed == Min(SumOf(m, id, None, RateUsed), U64_MAX)
                     && v.rateReturned == Min(SumOf(m, id, None, RateBack), U64_MAX))
  {
    FiguresExact(s.reservations, dev.profile.deviceId, scope);
    hide FiguresOf, SumOf, DeriveTotalCredits, DeriveTotalRate, TakeSnapshot;
  }
}
