/**
 What the books of reservations come to over whole runs, over the fields of log, counters and profile: each task
 charged and returned at most once, the counters as sums of the log, and admitted time within the time span.
 */
module BookLaws {
  import opened CheckedMath
  import opened Records
  import CreditPolicy
  import opened Policies
  import opened BaselineEstimator
  import opened UsageLog
  import opened UsageModel
  import opened UsageInvariants
  import UsageTheorems
  import UsageOnce
  import opened ActiveCapacity
  import opened LedgerModel
  import opened LedgerInvariants
  import opened LedgerSteps
  import opened LedgerGuarantees
  import opened PolicyLaws
  import opened CapacityLaws
  import opened UsageLaws
  import opened WindowLaws

  predicate ChargesTask(ev: UsageEvent, task: u64) {
    ev.consumedSet && ev.consumed.taskId == task
  }

  predicate ReturnsTask(ev: UsageEvent, task: u64) {
    ev.returned.Some? && ev.returned.value.taskId == task
  }

  /**
   After any run no two nodes of the log charge the same task, none returns a task but the one that charges it, and
   no return is worth more than its charge in either kind of unit.
   */
  lemma TaskBooks(e: Entry, ops: seq<UsageOp>, task: u64, i: nat, j: nat)
    requires Fresh(e) && task > 0 && i < |Run(e, ops).log| && j < |Run(e, ops).log|
    ensures var log := Run(e, ops).log;
            && (ChargesTask(log[i], task) && ChargesTask(log[j], task) ==> i == j)
            && (ReturnsTask(log[i], task) ==> ChargesTask(log[i], task))
            && (ReturnsTask(log[i], task) ==>
                  forall credits: nat, rate: nat, charged: nat, chargedRate: nat ::
                    && Costs(e.res, log[i].returned.value, credits, rate)
                    && Costs(e.res, log[i].consumed, charged, chargedRate) ==>
                      credits <= charged && rate <= chargedRate)
  {
    FreshIsSound(e);
    RunIsSound(e, ops);
    UsageTheorems.RunKeepsTerms(e, ops);
    var after := Run(e, ops);
    hide Run, RateLedger, Covered, WindowBound, CreditBound;
    assert ShapedEvent(after.res, after.log[i]);
  }

  /** All rate ever charged in the log less all that came back. */
  function NetRate(rr: u64, log: Log): int {
    if |log| == 0 then 0
    else
      var last := log[|log| - 1];
      NetRate(rr, log[..|log| - 1])
      + (if last.consumedSet then Units(rr, last.consumed) else 0)
      - (if last.returned.Some? then Units(rr, last.returned.value) else 0)
  }

  /** The rate counter is exactly that, after any run. */
  lemma RateCounterIsNet(e: Entry, ops: seq<UsageOp>)
    requires Fresh(e)
    ensures Run(e, ops).res.rateConsumed == NetRate(e.res.rateReserved, Run(e, ops).log)
  {
    UsageTheorems.LifetimeCounterIsBalance(e, ops);
    hide Run;
    BalanceIsNet(e.res.rateReserved, Run(e, ops).log);
  }

  lemma {:induction false} BalanceIsNet(rr: u64, log: Log)
    ensures Balance(rr, log) == NetRate(rr, log)
  {
    if |log| != 0 {
      BalanceIsNet(rr, log[..|log| - 1]);
    }
  }

  /** All credits ever charged in the log. */
  function CreditsCharged(held: u64, log: Log): nat {
    if |log| == 0 then 0
    else
      var last := log[|log| - 1];
      CreditsCharged(held, log[..|log| - 1])
      + (if !last.consumedSet then 0
         else if last.consumed.credits > 0 then last.consumed.credits
         else if held > 0 then last.consumed.baselineUnits
         else 0)
  }

  /**
   On a credit reservation that no usage puts rate units to: while it is active, consumed and unused credits
   together are all credits ever charged, and at no time is more consumed than reserved.
   */
  lemma CreditsBalance(e: Entry, ops: seq<UsageOp>)
    requires Fresh(e) && e.policy.Credit? && e.res.rateReserved == 0
    requires forall op :: op in ops && (op.ConsumeOp? || op.ReturnOp?) ==> op.usage.rateUnits == 0
    ensures var after := Run(e, ops);
            && after.res.creditsConsumed <= e.res.creditsReserved
            && (after.res.state == Active ==>
                  after.res.creditsConsumed + after.res.unusedCapacity
                  == CreditsCharged(e.res.creditsReserved, after.log))
  {
    UsageOnce.CreditsAreConserved(e, ops);
    hide Run;
    AcceptedIsCharged(e.res.creditsReserved, Run(e, ops).log);
  }

  lemma {:induction false} AcceptedIsCharged(held: u64, log: Log)
    ensures UsageOnce.AcceptedCredits(held, log) == CreditsCharged(held, log)
  {
    if |log| != 0 {
      AcceptedIsCharged(held, log[..|log| - 1]);
    }
  }

  function EstimatedTime(r: Reservation): nat { r.estimatedTotalNs }

  /** The most a policy lets out of a total, nothing where that does not fit in 64 bits. */
  function Usable(policy: Policy, total: nat): nat
    requires policy.Credit?
  {
    var most := LetOut(policy.credit, total);
    if total == 0 || most > U64_MAX then 0 else most
  }

  /** In every reachable state of a credit device whose total no plugin derives, active credits are within that. */
  lemma CreditsWithinUsable(s: Ledger, id: u64)
    requires Reachable(s) && CreditDevice(s, id) && FixedCredits(s.devices[id]).Some?
    ensures SumOf(s.reservations, id, None, CreditsHeld)
         <= Usable(s.devices[id].policy.value, FixedCredits(s.devices[id]).value)
  {
    hide Reachable, Total, SumOf, FixedCredits, LetOut, CreditPolicy.OvercommitLimit, WithinCaps;
    TotalIsSumOf(s.reservations, id, None, CreditsReserved, CreditsHeld);
    ActiveCreditsWithinLimit(s, id);
    CapsAt(s, id);
    LimitIsLetOut(s.devices[id].policy.value.credit, FixedCredits(s.devices[id]).value);
  }

  /**
   With the built-in estimator the estimated time of all active reservations of a credit device is within that many
   baseline times, and with derived credits and no overcommit within the device's time span.
   */
  lemma AdmittedTimeWithinSpan(s: Ledger, id: u64)
    requires Reachable(s) && CreditDevice(s, id) && s.devices[id].estimator == BuiltIn
    ensures var dev, time := s.devices[id], SumOf(s.reservations, id, None, EstimatedTime);
            && (UnitNs(dev.profile).Some? && FixedCredits(dev).Some? ==>
                  time <= Usable(dev.policy.value, FixedCredits(dev).value) * UnitNs(dev.profile).value)
            && (dev.profile.totalCredits == 0 && !dev.policy.value.credit.allowOvercommit ==>
                  time <= dev.profile.timeSpanNs)
  {
    hide Reachable, Total, SumOf, FixedCredits, LetOut, CreditPolicy.OvercommitLimit, WithinCaps, UnitNs;
    TotalIsSumOf(s.reservations, id, None, EstimatedNs, EstimatedTime);
    AdmittedTimeFits(s, id);
    CapsAt(s, id);
    if FixedCredits(s.devices[id]).Some? {
      LimitIsLetOut(s.devices[id].policy.value.credit, FixedCredits(s.devices[id]).value);
    }
  }

  /** In every reachable state of a rate device whose total no plugin derives, active rate is within the total. */
  lemma RateWithinTotal(s: Ledger, id: u64)
    requires Reachable(s) && RateDevice(s, id) && FixedRate(s.devices[id]).Some?
    ensures SumOf(s.reservations, id, None, RateHeld) <= FixedRate(s.devices[id]).value
  {
    hide Reachable, Total, SumOf, FixedRate;
    TotalIsSumOf(s.reservations, id, None, RateReserved, RateHeld);
    ActiveRateWithinTotal(s, id);
  }
}
