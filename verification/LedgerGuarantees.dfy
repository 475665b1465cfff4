/**
 What the ledger guarantees in every reachable state: limits on reserved units, on estimated time and on
 metered rate, and that nothing an active reservation depends on has changed.
 */
module LedgerGuarantees {
  import opened CheckedMath
  import opened Records
  import CreditPolicy
  import opened Policies
  import opened BaselineEstimator
  import opened UsageLog
  import opened UsageModel
  import opened UsageInvariants
  import UsageTheorems
  import UsageOnce
  import opened MapSum
  import opened ActiveCapacity
  import opened LedgerModel
  import opened LedgerInvariants
  import opened LedgerSteps

  predicate CreditDevice(s: Ledger, id: u64) {
    id in s.devices && s.devices[id].policy.Some? && s.devices[id].policy.value.Credit?
  }

  predicate RateDevice(s: Ledger, id: u64) {
    id in s.devices && s.devices[id].policy.Some? && s.devices[id].policy.value.Rate?
  }

  lemma CapsAt(s: Ledger, id: u64)
    requires Reachable(s) && id in s.devices
    ensures WithinCaps(s.reservations, id, s.devices[id])
    ensures ValidDevice(id, s.devices[id])
  {
    hide Reachable, WithinCaps, ValidDevice;
    ReachableIsGood(s);
  }

  lemma EntryAt(s: Ledger, id: u64)
    requires Reachable(s) && id in s.reservations
    ensures id != 0 && s.reservations[id].res.reservationId == id && Sound(s.reservations[id])
    ensures Backed(s.reservations[id], s.devices)
  {
    hide Reachable, Sound, Backed;
    ReachableIsGood(s);
    assert SoundAt(id, s.reservations[id]);
  }

  // ---------------------------------------------------------------------------
  // Reserved units.

  /** Active credits on a credit device stay within its total plus the configured overcommit. */
  lemma ActiveCreditsWithinLimit(s: Ledger, id: u64)
    requires Reachable(s) && CreditDevice(s, id) && FixedCredits(s.devices[id]).Some?
    ensures var dev := s.devices[id];
            var limit := CreditPolicy.OvercommitLimit(dev.policy.value.credit, FixedCredits(dev).value);
            var reserved := Total(s.reservations, id, None, CreditsReserved);
            if limit.Success? then reserved <= limit.value else reserved == 0
  {
    hide Reachable, Total, FixedCredits, CreditPolicy.OvercommitLimit;
    CapsAt(s, id);
  }

  /** Active rate on a rate device stays within its total. */
  lemma ActiveRateWithinTotal(s: Ledger, id: u64)
    requires Reachable(s) && RateDevice(s, id) && FixedRate(s.devices[id]).Some?
    ensures Total(s.reservations, id, None, RateReserved) <= FixedRate(s.devices[id]).value
  {
    hide Reachable, Total, FixedRate;
    CapsAt(s, id);
  }

  /**
   Whatever the estimator, the saturating scan never saturates on the units a device is managed in, so what
   it finds, in any order, is the exact sum; and reserved units are never overspent in total.
   */
  lemma ScanIsExact(s: Ledger, id: u64)
    requires Reachable(s)
    ensures CreditDevice(s, id) ==>
              && Clipped(s.reservations, id, None, CreditsReserved) == Total(s.reservations, id, None, CreditsReserved)
              && Clipped(s.reservations, id, None, CreditsConsumed) == Total(s.reservations, id, None, CreditsConsumed)
              && Total(s.reservations, id, None, CreditsConsumed) <= Total(s.reservations, id, None, CreditsReserved)
              && Total(s.reservations, id, None, RateReserved) == 0
    ensures RateDevice(s, id) ==>
              && Clipped(s.reservations, id, None, RateReserved) == Total(s.reservations, id, None, RateReserved)
              && Total(s.reservations, id, None, CreditsReserved) == 0
  {
    hide Reachable, Sum;
    if id in s.devices {
      CapsAt(s, id);
      if CreditDevice(s, id) {
        ConsumedWithinReserved(s, id);
        OtherUnitsAbsent(s, id);
      }
      if RateDevice(s, id) {
        OtherUnitsAbsent(s, id);
      }
    }
  }

  /** An active reservation of a device carries the device's policy. */
  lemma ActivePolicy(s: Ledger, id: u64, device: u64)
    requires Reachable(s) && id in s.reservations && ActiveOn(s.reservations[id], device)
    ensures device in s.devices && s.devices[device].policy == Some(s.reservations[id].policy)
    ensures Terms(s.reservations[id], s.devices[device])
    ensures s.reservations[id].rateWindowNs == s.devices[device].profile.timeSpanNs
  {
    hide Reachable, Terms, Sound;
    EntryAt(s, id);
  }

  lemma ConsumedWithinReserved(s: Ledger, device: u64)
    requires Reachable(s) && CreditDevice(s, device)
    ensures Total(s.reservations, device, None, CreditsConsumed) <= Total(s.reservations, device, None, CreditsReserved)
  {
    hide Reachable, Sum;
    var m := Contributions(s.reservations, device, None, CreditsConsumed);
    var n := Contributions(s.reservations, device, None, CreditsReserved);
    forall id | id in m
      ensures m[id] <= n[id] * 1
    {
      if ActiveOn(s.reservations[id], device) {
        ActivePolicy(s, id, device);
        EntryAt(s, id);
        assert CreditBound(s.reservations[id]);
      }
    }
    SumCompare(m, n, 1);
  }

  lemma OtherUnitsAbsent(s: Ledger, device: u64)
    requires Reachable(s)
    ensures CreditDevice(s, device) ==> Total(s.reservations, device, None, RateReserved) == 0
    ensures RateDevice(s, device) ==> Total(s.reservations, device, None, CreditsReserved) == 0
  {
    hide Reachable, Sum;
    forall id | id in s.reservations && ActiveOn(s.reservations[id], device)
      ensures CreditDevice(s, device) ==> s.reservations[id].res.rateReserved == 0
      ensures RateDevice(s, device) ==> s.reservations[id].res.creditsReserved == 0
    {
      ActivePolicy(s, id, device);
    }
    if CreditDevice(s, device) {
      SumOfZeros(Contributions(s.reservations, device, None, RateReserved));
    }
    if RateDevice(s, device) {
      SumOfZeros(Contributions(s.reservations, device, None, CreditsReserved));
    }
  }

  // ---------------------------------------------------------------------------
  // Estimated time.

  lemma EstimatedWithinCredits(s: Ledger, device: u64)
    requires Reachable(s) && CreditDevice(s, device) && s.devices[device].estimator.BuiltIn?
    requires UnitNs(s.devices[device].profile).Some?
    ensures Total(s.reservations, device, None, EstimatedNs)
         <= Total(s.reservations, device, None, CreditsReserved) * UnitNs(s.devices[device].profile).value
  {
    hide Reachable, Sum, UnitNs;
    var unit := UnitNs(s.devices[device].profile).value;
    var m := Contributions(s.reservations, device, None, EstimatedNs);
    var n := Contributions(s.reservations, device, None, CreditsReserved);
    forall id | id in m
      ensures m[id] <= n[id] * unit
    {
      if ActiveOn(s.reservations[id], device) {
        ActivePolicy(s, id, device);
      }
    }
    SumCompare(m, n, unit);
  }

  /**
   The end-to-end time guarantee. With the built-in estimator and the credit policy the estimated time of
   all active reservations together stays within the credit limit times the baseline time; with derived
   credits and no overcommit it stays within the device's time span.
   */
  lemma AdmittedTimeFits(s: Ledger, id: u64)
    requires Reachable(s) && CreditDevice(s, id) && s.devices[id].estimator.BuiltIn?
    ensures var dev := s.devices[id];
            var time := Total(s.reservations, id, None, EstimatedNs);
            && (UnitNs(dev.profile).None? ==> time == 0)
            && (UnitNs(dev.profile).Some? && FixedCredits(dev).Some? ==>
                  var limit := CreditPolicy.OvercommitLimit(dev.policy.value.credit, FixedCredits(dev).value);
                  time <= (if limit.Success? then limit.value else 0) * UnitNs(dev.profile).value)
            && (dev.profile.totalCredits == 0 && !dev.policy.value.credit.allowOvercommit ==>
                  time <= dev.profile.timeSpanNs)
  {
    hide Reachable, Total, UnitNs, FixedCredits, CreditPolicy.OvercommitLimit;
    var dev := s.devices[id];
    if UnitNs(dev.profile).None? {
      NoUnitNoTime(s, id);
    } else {
      var unit := UnitNs(dev.profile).value;
      EstimatedWithinCredits(s, id);
      DerivedCreditsFitSpan(dev);
      ActiveCreditsWithinLimit(s, id);
      var limit := CreditPolicy.OvercommitLimit(dev.policy.value.credit, FixedCredits(dev).value);
      MulMonotone(unit, Total(s.reservations, id, None, CreditsReserved), if limit.Success? then limit.value else 0);
    }
  }

  lemma NoUnitNoTime(s: Ledger, device: u64)
    requires Reachable(s) && device in s.devices && s.devices[device].estimator.BuiltIn?
    requires UnitNs(s.devices[device].profile).None?
    ensures Total(s.reservations, device, None, EstimatedNs) == 0
  {
    hide Reachable, Total, UnitNs;
    if HasActive(s.reservations, device) {
      var id :| id in s.reservations && ActiveOn(s.reservations[id], device);
      ActivePolicy(s, id, device);
      assert false;
    }
    NothingActiveNothingSummed(s.reservations, device, None, EstimatedNs);
  }

  /** Derived credits are known as soon as the unit is, and that many units fit the time span. */
  lemma DerivedCreditsFitSpan(dev: Device)
    requires dev.estimator.BuiltIn? && UnitNs(dev.profile).Some?
    ensures FixedCredits(dev).Some?
    ensures dev.profile.totalCredits == 0 ==>
              FixedCredits(dev).value * UnitNs(dev.profile).value <= dev.profile.timeSpanNs
  {
    hide EstimateBaseline;
    DivisionFacts(dev.profile.timeSpanNs, UnitNs(dev.profile).value);
  }

  // ---------------------------------------------------------------------------
  // Metered rate.

  lemma MeteredAtMostReserved(e: Entry, window: nat)
    requires Sound(e) && e.policy.Rate? && e.rateWindowNs != 0
    ensures Metered(e.res.rateReserved, e.rateWindowNs, e.log, window) <= e.res.rateReserved
  {
    if e.res.rateReserved < U64_MAX {
      MeteredIsExact(e, window);
    }
  }

  /**
   The end-to-end rate guarantee. On a rate device all active reservations count in the same windows, and in
   every window, past, current or future, what they consumed together is at most what they reserved together,
   which is at most the device's total rate.
   */
  lemma MeteredRateFits(s: Ledger, device: u64, window: nat)
    requires Reachable(s) && RateDevice(s, device)
    ensures forall id :: id in s.reservations && ActiveOn(s.reservations[id], device) ==>
              s.reservations[id].rateWindowNs == s.devices[device].profile.timeSpanNs != 0
    ensures Total(s.reservations, device, None, MeteredIn(window)) <= Total(s.reservations, device, None, RateReserved)
    ensures FixedRate(s.devices[device]).Some? ==>
              Total(s.reservations, device, None, MeteredIn(window)) <= FixedRate(s.devices[device]).value
  {
    hide Reachable, Sum, Metered, FixedRate;
    CapsAt(s, device);
    var m := Contributions(s.reservations, device, None, MeteredIn(window));
    var n := Contributions(s.reservations, device, None, RateReserved);
    forall id | id in m
      ensures m[id] <= n[id] * 1
      ensures ActiveOn(s.reservations[id], device) ==>
                s.reservations[id].rateWindowNs == s.devices[device].profile.timeSpanNs
    {
      if ActiveOn(s.reservations[id], device) {
        ActivePolicy(s, id, device);
        EntryAt(s, id);
        MeteredAtMostReserved(s.reservations[id], window);
      }
    }
    SumCompare(m, n, 1);
    if FixedRate(s.devices[device]).Some? {
      ActiveRateWithinTotal(s, device);
    }
  }

  /**
   On a device with less than the largest rate reserved the metered figures are exact: no fold overflows at any
   prefix, and each is at least what the window's own charges and returns come to.
   */
  lemma MeteredRateIsExact(s: Ledger, device: u64, id: u64, window: nat)
    requires Reachable(s) && RateDevice(s, device) && id in s.reservations && ActiveOn(s.reservations[id], device)
    requires Total(s.reservations, device, None, RateReserved) < U64_MAX
    ensures var e := s.reservations[id];
            && e.rateWindowNs != 0
            && StaysWithin(e.res.rateReserved, e.rateWindowNs, e.log, window, e.res.rateReserved)
            && Metered(e.res.rateReserved, e.rateWindowNs, e.log, window)
                 == Fold(e.res.rateReserved, e.rateWindowNs, e.log, window)
            && BalanceIn(e.res.rateReserved, e.rateWindowNs, e.log, window)
                 <= Metered(e.res.rateReserved, e.rateWindowNs, e.log, window)
  {
    hide Reachable, Sum, Metered, Fold, BalanceIn;
    var e := s.reservations[id];
    ActivePolicy(s, id, device);
    EntryAt(s, id);
    CapsAt(s, device);
    SumAtLeast(Contributions(s.reservations, device, None, RateReserved), id);
    MeteredIsExact(e, window);
    FoldAtLeastBalance(e.res.rateReserved, e.rateWindowNs, e.log, window);
  }

  /** Every active rate reservation estimated by the built-in estimator holds enough rate for its work. */
  lemma ReservedRateSuffices(s: Ledger, id: u64)
    requires Reachable(s) && id in s.reservations && s.reservations[id].res.state == Active
    requires s.reservations[id].policy.Rate? && s.reservations[id].res.deviceId in s.devices
    requires s.devices[s.reservations[id].res.deviceId].estimator.BuiltIn?
    ensures var r := s.reservations[id].res;
            var p := s.devices[r.deviceId].profile;
            && UnitNs(p).Some?
            && r.estimatedTotalNs * p.timeSpanNs <= r.rateReserved * r.quantumBudgetNs * UnitNs(p).value
  {
    hide Reachable, UnitNs, Sound;
    ActivePolicy(s, id, s.reservations[id].res.deviceId);
  }

  // ---------------------------------------------------------------------------
  // The books of every reservation, active or ended.

  /**
   Whatever the context went through, each task of each reservation was charged at most once and returned at
   most once, never for more than its charge, and the lifetime rate counter is what was charged minus what was
   given back.
   */
  lemma EveryReservationAccounts(s: Ledger, id: u64, task: u64)
    requires Reachable(s) && id in s.reservations && task != 0
    ensures var e := s.reservations[id];
            && UsageOnce.ChargesOf(e.log, task) <= 1
            && UsageOnce.ReturnsOf(e.log, task) <= UsageOnce.ChargesOf(e.log, task)
            && (forall i :: 0 <= i < |e.log| && e.log[i].consumed.taskId == task && e.log[i].returned.Some? ==>
                  && CreditsOf(e.res, e.log[i].returned.value) <= CreditsOf(e.res, e.log[i].consumed)
                  && RateOf(e.res, e.log[i].returned.value) <= RateOf(e.res, e.log[i].consumed))
            && e.res.rateConsumed == Balance(e.res.rateReserved, e.log)
            && (e.policy.Credit? ==> e.res.creditsConsumed <= e.res.creditsReserved)
  {
    hide Reachable, Inv, Fresh, Run;
    ReachableIsGood(s);
    EntryAt(s, id);
    var first, ops :| Fresh(first) && Indexed(first) && s.reservations[id] == Run(first, ops);
    UsageTheorems.RunKeepsTerms(first, ops);
    UsageOnce.ChargedAndReturnedAtMostOnce(first, ops, task);
  }

  // ---------------------------------------------------------------------------
  // Nothing an active reservation depends on changes.

  /** The device of an active reservation is registered, with the versions, policy and window it was made under. */
  lemma ActiveDeviceUnchanged(s: Ledger, id: u64)
    requires Reachable(s) && id in s.reservations && s.reservations[id].res.state == Active
    ensures var e := s.reservations[id];
            && e.res.deviceId in s.devices
            && var dev := s.devices[e.res.deviceId];
               && e.res.profileVersion == dev.profileVersion
               && e.res.policyVersion == dev.policyVersion
               && e.res.estimatorVersion == dev.estimatorVersion
               && dev.policy == Some(e.policy)
               && e.rateWindowNs == dev.profile.timeSpanNs
  {
    hide Reachable, Terms, Sound;
    EntryAt(s, id);
  }

  /** No step changes, removes or replaces a device that has an active reservation before it. */
  lemma StepFreezesActiveDevices(s: Ledger, step: Step, device: u64)
    requires Inv(s) && HasActive(s.reservations, device)
    ensures device in s.devices && device in DoStep(s, step).devices
    ensures DoStep(s, step).devices[device] == s.devices[device]
  {
    ActiveDeviceRegistered(s, device);
    hide Inv, HasActive, DoStep;
    if IsDeviceStep(step) {
      DeviceStepIsIdle(s, step);
    } else {
      OtherStepsKeepDevices(s, step);
    }
  }

  lemma {:induction false} ExpiryKeepsDevices(s: Ledger, order: seq<u64>, now: u64, release: u64 -> Status)
    ensures var t := ExpireOver(s, order, now, release).1;
            t == s.(reservations := t.reservations)
  {
    if |order| != 0 {
      ExpiryKeepsDevices(s, order[..|order| - 1], now, release);
    }
  }

  lemma OtherStepsKeepDevices(s: Ledger, step: Step)
    requires Inv(s) && !IsDeviceStep(step)
    ensures DoStep(s, step).devices == s.devices
  {
    hide Inv, Consume, ReturnUsage, RecordActual, Renew, Transition, Prepare, AllocateId, ReserveWithId;
    match step
    case ReserveStep(r, inputs) =>
      if LedgerModel.Reserve(s, r, inputs).published.None? {
        ReserveDeclines(s, r, inputs);
      } else {
        var a := ReserveAdmits(s, r, inputs);
      }
    case ExpireStep(order, now, releases) => ExpiryKeepsDevices(s, order, now, releases);
    case _ =>
  }

  lemma ActiveHasDevice(s: Ledger, id: u64)
    requires Inv(s) && id in s.reservations && s.reservations[id].res.state == Active
    ensures HasActive(s.reservations, s.reservations[id].res.deviceId)
    ensures s.reservations[id].res.deviceId in s.devices
  {
    hide SoundAt, Agrees, Terms;
    assert ActiveOn(s.reservations[id], s.reservations[id].res.deviceId);
    assert Backed(s.reservations[id], s.devices);
  }

  lemma ActiveBefore(e: Entry, f: Entry)
    requires Indexed(e) && Continues(e, f) && f.res.state == Active
    ensures e.res.state == Active && e.res.deviceId == f.res.deviceId
  {
    var ops :| f == Run(e, ops);
    UsageTheorems.RunKeepsTerms(e, ops);
    if e.res.state != Active {
      UsageOnce.TerminalNeverChanges(e, ops);
    }
  }

  /** A device keeps its configuration over any run during which a reservation on it stays active. */
  lemma {:induction false} RunFreezesActiveDevices(s: Ledger, steps: seq<Step>, id: u64)
    requires Inv(s) && id in s.reservations && id in RunSteps(s, steps).reservations
    requires RunSteps(s, steps).reservations[id].res.state == Active
    ensures s.reservations[id].res.state == Active
    ensures var device := s.reservations[id].res.deviceId;
            && RunSteps(s, steps).reservations[id].res.deviceId == device
            && device in s.devices && device in RunSteps(s, steps).devices
            && RunSteps(s, steps).devices[device] == s.devices[device]
  {
    hide Inv, HasActive, DoStep, Continues, Indexed;
    if |steps| == 0 {
      ActiveHasDevice(s, id);
    } else {
      var front, last := steps[..|steps| - 1], steps[|steps| - 1];
      var before := RunSteps(s, front);
      RunIsGood(s, front);
      StepIsGood(before, last);
      ActiveBefore(before.reservations[id], RunSteps(s, steps).reservations[id]);
      RunFreezesActiveDevices(s, front, id);
      ActiveHasDevice(before, id);
      StepFreezesActiveDevices(before, last, s.reservations[id].res.deviceId);
    }
  }
}
