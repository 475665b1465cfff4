/**
 Limits on devices whose totals a plugin estimator derives, and may derive anew at every call: what one call
 offers bounds what it leaves reserved, and a ceiling on all offers of a run bounds the sums in every state of it.
 */
module LedgerCeilings {
  import opened CheckedMath
  import opened Records
  import opened PolicyCommon
  import CreditPolicy
  import RatePolicy
  import opened Policies
  import opened UsageModel
  import UsageOnce
  import UsageTheorems
  import opened MapSum
  import opened ActiveCapacity
  import opened LedgerModel
  import opened LedgerInvariants
  import opened LedgerSteps
  import opened LedgerGuarantees
  import opened LedgerAdmission

  /**
   How far one prepared reserve may raise the active credits of its device: the policy's limit on the total the
   call derived. A plugin policy on a device without credits is not held to anything.
   */
  function OfferedCredits(p: Prepared): Option<nat>
    requires p.Prepared?
  {
    match p.policy
    case Credit(state) =>
      var limit := CreditPolicy.OvercommitLimit(state, p.view.totalCredits);
      Some(if limit.Success? then limit.value else 0)
    case Rate(_) => Some(0)
    case Custom(capacity) => if !capacity && p.view.totalCredits != 0 then Some(p.view.totalCredits) else None
  }

  function OfferedRate(p: Prepared): Option<nat>
    requires p.Prepared?
  {
    match p.policy
    case Credit(_) => Some(0)
    case Rate(_) => Some(p.view.totalRate)
    case Custom(capacity) => if !capacity && p.view.totalRate != 0 then Some(p.view.totalRate) else None
  }

  /** The view's availability leads from the sum exactly up to the offer. */
  lemma AvailableUpToOffer(s: Ledger, p: Prepared, r: Request, inputs: AdmissionInputs)
    requires p.Prepared? && p.policy != Custom(true)
    requires PolicyAdjustedView(s, p.device, p.policy, r.scopeId, inputs) == Success(p.view)
    requires p.device.profile.deviceId == r.deviceId
    ensures OfferedCredits(p).Some? && p.view.totalCredits != 0 && !p.policy.Rate? ==>
              var before := Total(s.reservations, r.deviceId, None, CreditsReserved);
              if before >= OfferedCredits(p).value then p.view.effectiveAvailableCredits == 0
              else before + p.view.effectiveAvailableCredits <= OfferedCredits(p).value
    ensures OfferedRate(p).Some? && !p.policy.Credit? ==>
              var before := Total(s.reservations, r.deviceId, None, RateReserved);
              if before >= OfferedRate(p).value then p.view.effectiveAvailableRate == 0
              else before + p.view.effectiveAvailableRate <= OfferedRate(p).value
  {
    hide Total, DeriveTotalCredits, DeriveTotalRate, CreditPolicy.OvercommitLimit;
  }

  /**
   Right after a successful reserve the active sum is within what that call offered exactly when it was before
   or the request asks for units: a total derived lower than before takes nothing back, and only a request for
   no units passes under it.
   */
  lemma OfferHoldsIff(s: Ledger, r: Request, inputs: AdmissionInputs)
    requires Inv(s) && Reserve(s, r, inputs).published.Some?
    ensures Prepare(s, r, inputs).Prepared?
    ensures var p := Prepare(s, r, inputs);
            var after := Reserve(s, r, inputs).ledger.reservations;
            && (OfferedCredits(p).Some? ==>
                  LimitedGrant(
                    OfferedCredits(p).value, Total(s.reservations, r.deviceId, None, CreditsReserved),
                    AsksForCredits(p, inputs), Total(after, r.deviceId, None, CreditsReserved)))
            && (OfferedRate(p).Some? ==>
                  LimitedGrant(
                    OfferedRate(p).value, Total(s.reservations, r.deviceId, None, RateReserved),
                    AsksForRate(p, inputs), Total(after, r.deviceId, None, RateReserved)))
  {
    var a := ReserveAdmits(s, r, inputs);
    var id := Reserve(s, r, inputs).published.value;
    AdmittedDevice(s, r, inputs, id, a);
    AdmittedUnderOffer(s, r, inputs, id, a);
    GrantedIffAsked(s, r, inputs, id, a);
    GrantMovesSums(s, r, inputs, id, a, Reserve(s, r, inputs).ledger.reservations, None);
    hide Reserve, Inv, Prepare, Total, AdmittedBy, OfferedCredits, OfferedRate, AsksForCredits, AsksForRate;
  }

  lemma AdmittedUnderOffer(s: Ledger, r: Request, inputs: AdmissionInputs, id: u64, a: Admission)
    requires DevicesValid(s) && AdmittedBy(s, r, inputs, id, a)
    ensures Prepare(s, r, inputs).Prepared?
    ensures var p := Prepare(s, r, inputs);
            && (OfferedCredits(p).Some? && a.grant.creditsGranted > 0 ==>
                  Total(s.reservations, r.deviceId, None, CreditsReserved) + a.grant.creditsGranted
                  <= OfferedCredits(p).value)
            && (OfferedRate(p).Some? && a.grant.rateGranted > 0 ==>
                  Total(s.reservations, r.deviceId, None, RateReserved) + a.grant.rateGranted
                  <= OfferedRate(p).value)
  {
    AdmittedGuard(s, r, inputs, id, a);
    AdmittedDevice(s, r, inputs, id, a);
    GrantedIffAsked(s, r, inputs, id, a);
    var p := Prepare(s, r, inputs);
    AdmittedHasTotals(s, r, inputs, id, a);
    hide Prepare, Total, AdmittedBy, PolicyAdjustedView, DevicesValid, CreditPolicy.OvercommitLimit;
    if p.policy != Custom(true) {
      AvailableUpToOffer(s, p, r, inputs);
    }
  }

  /** A shipped policy that accepts has found a nonzero total of its kind. */
  lemma AdmittedHasTotals(s: Ledger, r: Request, inputs: AdmissionInputs, id: u64, a: Admission)
    requires AdmittedBy(s, r, inputs, id, a)
    ensures a.policy.Credit? ==> a.view.totalCredits != 0
    ensures a.policy.Rate? ==> a.view.totalRate != 0
  {
    hide Prepare, CreateEntry, GrantValid, AllocateId, RatePolicy.Evaluate, CreditPolicy.Evaluate;
    if a.policy.Credit? {
      AcceptedHasCredits(a.policy.credit, r, a.estimate, a.view);
    }
    if a.policy.Rate? {
      AcceptedHasRate(a.policy.rate, a.device.profile, r, a.estimate, a.view);
    }
  }

  // ---------------------------------------------------------------------------
  // Over a run.

  /** No reserve on the device that gets as far as its policy is offered more than the ceilings. */
  ghost predicate OffersWithin(s: Ledger, step: Step, device: u64, credits: nat, rate: nat) {
    step.ReserveStep? && step.request.deviceId == device && Prepare(s, step.request, step.inputs).Prepared? ==>
      var p := Prepare(s, step.request, step.inputs);
      && OfferedCredits(p).Some? && OfferedCredits(p).value <= credits
      && OfferedRate(p).Some? && OfferedRate(p).value <= rate
  }

  ghost predicate RunOffersWithin(s: Ledger, steps: seq<Step>, device: u64, credits: nat, rate: nat)
    requires Inv(s)
  {
    forall i :: 0 <= i < |steps| ==> OffersWithin(RunSteps(s, steps[..i]), steps[i], device, credits, rate)
  }

  ghost predicate SumsWithin(s: Ledger, device: u64, credits: nat, rate: nat) {
    && Total(s.reservations, device, None, CreditsReserved) <= credits
    && Total(s.reservations, device, None, RateReserved) <= rate
  }

  lemma ReserveKeepsCeilings(s: Ledger, r: Request, inputs: AdmissionInputs, device: u64, credits: nat, rate: nat)
    requires Inv(s) && SumsWithin(s, device, credits, rate)
    requires OffersWithin(s, ReserveStep(r, inputs), device, credits, rate)
    ensures SumsWithin(Reserve(s, r, inputs).ledger, device, credits, rate)
  {
    var reply := Reserve(s, r, inputs);
    if reply.published.None? {
      ReserveDeclines(s, r, inputs);
    } else {
      var id := reply.published.value;
      var a := ReserveAdmits(s, r, inputs);
      AdmissionFacts(s, r, inputs, id, a);
      if r.deviceId == device {
        AdmittedUnderOffer(s, r, inputs, id, a);
        GrantMovesSums(s, r, inputs, id, a, reply.ledger.reservations, None);
        hide Reserve, Inv, Prepare, Total, AdmittedBy, OfferedCredits, OfferedRate;
      } else {
        hide Reserve, Inv, Prepare, Total, AdmittedBy, OfferedCredits, OfferedRate, SoundAt, Backed;
        TotalUpdate(s.reservations, id, a.entry, device, None, CreditsReserved);
        TotalUpdate(s.reservations, id, a.entry, device, None, RateReserved);
      }
    }
  }

  lemma NeverHeavier(e: Entry, f: Entry, device: u64)
    requires Indexed(e) && Continues(e, f)
    ensures Part(f, device, None, CreditsReserved) <= Part(e, device, None, CreditsReserved)
    ensures Part(f, device, None, RateReserved) <= Part(e, device, None, RateReserved)
  {
    var ops :| f == Run(e, ops);
    UsageTheorems.RunKeepsTerms(e, ops);
    if e.res.state != Active {
      UsageOnce.TerminalNeverChanges(e, ops);
    }
  }

  lemma {:induction false} ExpiryAddsNothing(s: Ledger, order: seq<u64>, now: u64, release: u64 -> Status)
    ensures ExpireOver(s, order, now, release).1.reservations.Keys == s.reservations.Keys
  {
    if |order| != 0 {
      ExpiryAddsNothing(s, order[..|order| - 1], now, release);
    }
  }

  lemma OtherStepsAddNothing(s: Ledger, step: Step)
    requires Inv(s) && !step.ReserveStep? && !IsDeviceStep(step)
    ensures DoStep(s, step).reservations.Keys == s.reservations.Keys
  {
    hide Inv, Consume, ReturnUsage, RecordActual, Renew, Transition, Indexed, ExpireOver;
    if step.ExpireStep? {
      ExpiryAddsNothing(s, step.order, step.now, step.releases);
    }
  }

  /** Only reserve adds a reservation. */
  lemma OnlyReserveAdds(s: Ledger, step: Step)
    requires Inv(s) && !step.ReserveStep?
    ensures DoStep(s, step).reservations.Keys == s.reservations.Keys
  {
    hide Inv, DoStep, HasActive, ValidDevice;
    if IsDeviceStep(step) {
      DeviceStepIsIdle(s, step);
    } else {
      OtherStepsAddNothing(s, step);
    }
  }

  lemma StepKeepsCeilings(s: Ledger, step: Step, device: u64, credits: nat, rate: nat)
    requires Inv(s) && SumsWithin(s, device, credits, rate) && OffersWithin(s, step, device, credits, rate)
    ensures SumsWithin(DoStep(s, step), device, credits, rate)
  {
    if step.ReserveStep? {
      ReserveKeepsCeilings(s, step.request, step.inputs, device, credits, rate);
    } else {
      StepIsGood(s, step);
      OnlyReserveAdds(s, step);
      SumsNeverGrow(s, DoStep(s, step), device);
    }
  }

  lemma SumsNeverGrow(s: Ledger, t: Ledger, device: u64)
    requires EntriesContinue(s, t) && t.reservations.Keys == s.reservations.Keys
    ensures Total(t.reservations, device, None, CreditsReserved) <= Total(s.reservations, device, None, CreditsReserved)
    ensures Total(t.reservations, device, None, RateReserved) <= Total(s.reservations, device, None, RateReserved)
  {
    hide Sum, Part, Continues, Indexed;
    forall id | id in s.reservations
      ensures Part(t.reservations[id], device, None, CreditsReserved)
           <= Part(s.reservations[id], device, None, CreditsReserved)
      ensures Part(t.reservations[id], device, None, RateReserved)
           <= Part(s.reservations[id], device, None, RateReserved)
    {
      NeverHeavier(s.reservations[id], t.reservations[id], device);
    }
    SumCompare(
      Contributions(t.reservations, device, None, CreditsReserved),
      Contributions(s.reservations, device, None, CreditsReserved), 1);
    SumCompare(
      Contributions(t.reservations, device, None, RateReserved),
      Contributions(s.reservations, device, None, RateReserved), 1);
  }

  lemma {:induction false} RunKeepsCeilings(s: Ledger, steps: seq<Step>, device: u64, credits: nat, rate: nat)
    requires Inv(s) && SumsWithin(s, device, credits, rate) && RunOffersWithin(s, steps, device, credits, rate)
    ensures SumsWithin(RunSteps(s, steps), device, credits, rate)
  {
    hide Inv, SumsWithin, OffersWithin, DoStep;
    if |steps| != 0 {
      var front := steps[..|steps| - 1];
      forall i | 0 <= i < |front|
        ensures OffersWithin(RunSteps(s, front[..i]), front[i], device, credits, rate)
      {
        assert front[..i] == steps[..i];
        assert OffersWithin(RunSteps(s, steps[..i]), steps[i], device, credits, rate);
      }
      RunKeepsCeilings(s, front, device, credits, rate);
      StepKeepsCeilings(RunSteps(s, front), steps[|steps| - 1], device, credits, rate);
    }
  }

  /**
   Whatever estimators and policies a device has had, and whatever totals its estimators derived: if no call was
   offered more than the ceilings, then in the state reached active credits and active rate are within them, and
   on a rate device so is the rate metered in any window.
   */
  lemma CeilingsHold(steps: seq<Step>, device: u64, credits: nat, rate: nat, window: nat)
    requires Inv(EMPTY_LEDGER) && RunOffersWithin(EMPTY_LEDGER, steps, device, credits, rate)
    ensures var s := Life(steps);
            && Total(s.reservations, device, None, CreditsReserved) <= credits
            && Total(s.reservations, device, None, RateReserved) <= rate
            && (RateDevice(s, device) ==> Total(s.reservations, device, None, MeteredIn(window)) <= rate)
  {
    NothingActiveNothingSummed(EMPTY_LEDGER.reservations, device, None, CreditsReserved);
    NothingActiveNothingSummed(EMPTY_LEDGER.reservations, device, None, RateReserved);
    RunKeepsCeilings(EMPTY_LEDGER, steps, device, credits, rate);
    hide Inv, RunSteps, RunOffersWithin, Total;
    if RateDevice(Life(steps), device) {
      assert Reachable(Life(steps));
      MeteredRateFits(Life(steps), device, window);
    }
  }
}
