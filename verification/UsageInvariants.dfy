/**
 What every operation on a reservation keeps, for any policy, any times and any mix of returns.
 */
module UsageInvariants {
  import opened CheckedMath
  import opened Metadata
  import opened Records
  import opened Policies
  import PolicyCommon
  import CreditPolicy
  import RatePolicy
  import opened UsageLog
  import opened UsageModel

  /** A return node of a task lies within its charge; an anonymous return has nothing else in its node. */
  predicate ShapedEvent(r: Reservation, ev: UsageEvent) {
    ev.returned.Some? ==>
      if ev.consumedSet then
        && ev.returned.value.taskId == ev.consumed.taskId
        && ev.consumed.taskId != 0
        && CreditsOf(r, ev.returned.value) <= CreditsOf(r, ev.consumed)
        && RateOf(r, ev.returned.value) <= RateOf(r, ev.consumed)
      else
        ev.consumed == BLANK_USAGE && ev.returned.value.taskId == 0
  }

  ghost predicate Shaped(e: Entry) {
    forall i :: 0 <= i < |e.log| ==> ShapedEvent(e.res, e.log[i])
  }

  /** The incremental counter is the balance of the log, and no charge in it was too much for 64 bits. */
  ghost predicate RateLedger(e: Entry) {
    && e.res.rateConsumed == Balance(e.res.rateReserved, e.log)
    && PeakFits(e.res.rateReserved, e.log)
  }

  ghost predicate HasTaskReturn(rr: u64, log: Log) {
    exists k :: 0 <= k < |log| && log[k].consumedSet && GivenBack(rr, log[k]) > 0
  }

  ghost predicate HasAnonymousReturn(rr: u64, log: Log) {
    exists k :: 0 <= k < |log| && !log[k].consumedSet && GivenBack(rr, log[k]) > 0
  }

  /** Without per-task rate returns no anonymous return was ever short of what its window held. */
  ghost predicate Covered(e: Entry) {
    e.rateWindowNs != 0 && !HasTaskReturn(e.res.rateReserved, e.log) ==>
      NeverShort(e.res.rateReserved, e.rateWindowNs, e.log)
  }

  /** Under the rate policy no window's running total ever exceeds the reserved rate. */
  ghost predicate WindowBound(e: Entry) {
    e.policy.Rate? ==>
      if e.rateWindowNs == 0 then e.res.rateConsumed <= e.res.rateReserved
      else e.res.rateReserved < U64_MAX ==>
        forall window: nat ::
          StaysWithin(e.res.rateReserved, e.rateWindowNs, e.log, window, e.res.rateReserved)
  }

  ghost predicate CreditBound(e: Entry) {
    e.policy.Credit? ==> e.res.creditsConsumed <= e.res.creditsReserved
  }

  ghost predicate Sound(e: Entry) {
    Indexed(e) && Shaped(e) && RateLedger(e) && Covered(e) && WindowBound(e) && CreditBound(e)
  }

  lemma FreshIsSound(e: Entry)
    requires Fresh(e)
    ensures Sound(e)
  {
  }

  // ---------------------------------------------------------------------------
  // A node appended to the log.

  /** Same reservation except for its counters. */
  predicate SameTerms(r: Reservation, s: Reservation) {
    r.rateReserved == s.rateReserved && r.creditsReserved == s.creditsReserved
  }

  lemma AppendKeepsCovered(e: Entry, r: Reservation, ev: UsageEvent)
    requires Sound(e) && SameTerms(e.res, r)
    requires ev.consumedSet ==> ev.returned.None?
    requires e.rateWindowNs != 0 ==>
      GivenBack(e.res.rateReserved, ev) <=
        Metered(e.res.rateReserved, e.rateWindowNs, e.log, EventWindow(e.rateWindowNs, ev))
    ensures Covered(Publish(e.(res := r), ev))
  {
    var rr, w := e.res.rateReserved, e.rateWindowNs;
    var log := e.log + [ev];
    if w != 0 && !HasTaskReturn(rr, log) {
      forall k | 0 <= k < |e.log|
        ensures !(e.log[k].consumedSet && GivenBack(rr, e.log[k]) > 0)
      {
        assert log[k] == e.log[k];
      }
      assert NeverShort(rr, w, e.log);
      NeverShortNeverOverflows(rr, w, e.log, EventWindow(w, ev));
      forall k | 0 <= k < |log|
        ensures GivenBack(rr, log[k]) <= Fold(rr, w, log[..k], EventWindow(w, log[k])) + Charged(rr, log[k])
      {
        assert log[..k] == e.log[..k];
        assert k == |e.log| ==> e.log[..k] == e.log;
      }
    }
  }

  lemma AppendKeepsWindowBound(e: Entry, r: Reservation, ev: UsageEvent)
    requires WindowBound(e) && SameTerms(e.res, r)
    requires e.policy.Rate? && e.rateWindowNs == 0 ==> r.rateConsumed <= r.rateReserved
    requires e.policy.Rate? && e.rateWindowNs != 0 && r.rateReserved < U64_MAX ==>
      Fold(r.rateReserved, e.rateWindowNs, e.log, EventWindow(e.rateWindowNs, ev)) + Charged(r.rateReserved, ev)
      <= r.rateReserved
    ensures WindowBound(Publish(e.(res := r), ev))
  {
    var rr, w := e.res.rateReserved, e.rateWindowNs;
    if e.policy.Rate? && w != 0 && rr < U64_MAX {
      forall window: nat
        ensures StaysWithin(rr, w, e.log + [ev], window, rr)
      {
        assert StaysWithin(rr, w, e.log, window, rr);
        FoldWithin(rr, w, e.log, window, rr);
        StaysWithinAppend(rr, w, e.log, ev, window, rr);
      }
    }
  }

  lemma AppendKeepsLedger(e: Entry, r: Reservation, ev: UsageEvent)
    requires RateLedger(e) && SameTerms(e.res, r)
    requires e.res.rateConsumed + Charged(e.res.rateReserved, ev) <= U64_MAX
    requires r.rateConsumed == e.res.rateConsumed + Charged(e.res.rateReserved, ev) - GivenBack(e.res.rateReserved, ev)
    ensures RateLedger(Publish(e.(res := r), ev))
  {
    BalanceAppend(e.res.rateReserved, e.log, ev);
    PeakFitsAppend(e.res.rateReserved, e.log, ev);
  }

  lemma AppendKeepsShape(e: Entry, r: Reservation, ev: UsageEvent)
    requires Shaped(e) && SameTerms(e.res, r) && ShapedEvent(e.res, ev)
    ensures Shaped(Publish(e.(res := r), ev))
  {
    var after := Publish(e.(res := r), ev);
    forall i | 0 <= i < |after.log|
      ensures ShapedEvent(after.res, after.log[i])
    {
      assert i < |e.log| ==> ShapedEvent(e.res, e.log[i]);
    }
  }

  /** Below the largest number, the metered value the rate policy compares is the exact fold. */
  lemma MeteredIsExact(e: Entry, window: nat)
    requires Sound(e) && e.policy.Rate? && e.rateWindowNs != 0 && e.res.rateReserved < U64_MAX
    ensures Metered(e.res.rateReserved, e.rateWindowNs, e.log, window)
         == Fold(e.res.rateReserved, e.rateWindowNs, e.log, window) <= e.res.rateReserved
  {
    var rr, w := e.res.rateReserved, e.rateWindowNs;
    assert StaysWithin(rr, w, e.log, window, rr);
    FoldWithin(rr, w, e.log, window, rr);
  }

  lemma ChargeIsSound(e: Entry, n: Usage, plugin: Callback<Decision>)
    requires Sound(e)
    requires n.taskId == 0 || n.taskId !in e.index
    requires Verdict(e, n, plugin).Success? && Verdict(e, n, plugin).value.kind == Accepted
    requires AddUnits(e.res, n).0 == OK
    ensures Sound(ConsumeNew(e, n, plugin).entry)
  {
    var d := Verdict(e, n, plugin).value;
    var r := AddUnits(e.res, n).1;
    var ev := UsageEvent(n, None, d, true);
    PublishKeepsIndex(e.(res := r), ev);
    AppendKeepsShape(e, r, ev);
    AppendKeepsLedger(e, r, ev);
    AppendKeepsCovered(e, r, ev);
    if e.policy.Rate? && e.rateWindowNs != 0 && e.res.rateReserved < U64_MAX {
      MeteredIsExact(e, EventWindow(e.rateWindowNs, ev));
    }
    AppendKeepsWindowBound(e, r, ev);
  }

  /** A rejected charge still writes the credit counter when only the rate counter overflows. */
  lemma PartialChargeIsSound(e: Entry, n: Usage, plugin: Callback<Decision>)
    requires Sound(e)
    requires Verdict(e, n, plugin).Success? && Verdict(e, n, plugin).value.kind == Accepted
    requires AddUnits(e.res, n).0 != OK
    ensures Sound(ConsumeNew(e, n, plugin).entry)
  {
    CountersOnlySound(e, AddUnits(e.res, n).1);
  }

  /** A change of counters other than the lifetime rate keeps everything but the credit bound by itself. */
  lemma CountersOnlySound(e: Entry, r: Reservation)
    requires Sound(e) && SameTerms(e.res, r) && r.rateConsumed == e.res.rateConsumed
    requires e.policy.Credit? ==> r.creditsConsumed <= r.creditsReserved
    ensures Sound(e.(res := r))
  {
    var after := e.(res := r);
    forall i | 0 <= i < |e.log|
      ensures ShapedEvent(r, e.log[i])
    {
      assert ShapedEvent(e.res, e.log[i]);
    }
    assert Indexed(after) && RateLedger(after) && Covered(after) && WindowBound(after);
  }

  lemma DeclineIsSound(e: Entry, n: Usage, plugin: Callback<Decision>)
    requires Sound(e)
    requires n.taskId == 0 || n.taskId !in e.index
    requires Verdict(e, n, plugin).Success? && Verdict(e, n, plugin).value.kind != Accepted
    ensures Sound(ConsumeNew(e, n, plugin).entry)
  {
    var r := e.res.(overuseCount := Increment(e.res.overuseCount));
    var ev := UsageEvent(n, None, Verdict(e, n, plugin).value, false);
    PublishKeepsIndex(e.(res := r), ev);
    AppendKeepsShape(e, r, ev);
    AppendKeepsLedger(e, r, ev);
    AppendKeepsCovered(e, r, ev);
    if e.policy.Rate? && e.rateWindowNs != 0 && e.res.rateReserved < U64_MAX {
      MeteredIsExact(e, EventWindow(e.rateWindowNs, ev));
    }
    AppendKeepsWindowBound(e, r, ev);
  }

  lemma ConsumeIsSound(e: Entry, u: Usage, now: u64, plugin: Callback<Decision>)
    requires Sound(e)
    ensures Sound(Consume(e, u, now, plugin).entry)
  {
    var n := NormalizeUsage(e.res.reservationId, u, 0, now);
    if e.res.state == Active && n.Success? && Position(e, u.taskId).None? {
      var d := Verdict(e, n.value, plugin);
      if d.Success? {
        if d.value.kind != Accepted {
          DeclineIsSound(e, n.value, plugin);
        } else if AddUnits(e.res, n.value).0 == OK {
          ChargeIsSound(e, n.value, plugin);
        } else {
          PartialChargeIsSound(e, n.value, plugin);
        }
      }
    }
  }

  // ---------------------------------------------------------------------------
  // Returns.

  lemma AnonymousReturnIsSound(e: Entry, n: Usage, plugin: Status)
    requires Sound(e) && n.taskId == 0
    ensures Sound(ReturnAnonymous(e, n, plugin).entry)
  {
    if ReturnAnonymous(e, n, plugin).status == OK {
      var r := SubtractUnits(e.res, n);
      if RateOf(e.res, n) == 0 {
        CountersOnlySound(e, r);
      } else {
        var ev := UsageEvent(BLANK_USAGE, Some(n), BLANK_DECISION, false);
        PublishKeepsIndex(e.(res := r), ev);
        AppendKeepsShape(e, r, ev);
        AppendKeepsLedger(e, r, ev);
        AppendKeepsCovered(e, r, ev);
        if e.policy.Rate? && e.rateWindowNs != 0 && e.res.rateReserved < U64_MAX {
          MeteredIsExact(e, EventWindow(e.rateWindowNs, ev));
        }
        AppendKeepsWindowBound(e, r, ev);
      }
    }
  }

  lemma EditKeepsCovered(e: Entry, r: Reservation, i: nat, n: Usage)
    requires Covered(e) && SameTerms(e.res, r) && Returnable(e.log, i)
    ensures Covered(e.(res := r, log := WithReturn(e.log, i, n)))
  {
    var rr, w := e.res.rateReserved, e.rateWindowNs;
    var log := WithReturn(e.log, i, n);
    if w != 0 && !HasTaskReturn(rr, log) {
      assert log[i].consumedSet && !(GivenBack(rr, log[i]) > 0);
      forall k | 0 <= k < |e.log|
        ensures !(e.log[k].consumedSet && GivenBack(rr, e.log[k]) > 0)
      {
        assert k != i ==> log[k] == e.log[k];
      }
      assert NeverShort(rr, w, e.log);
      forall k | 0 <= k < |log|
        ensures GivenBack(rr, log[k]) <= Fold(rr, w, log[..k], EventWindow(w, log[k])) + Charged(rr, log[k])
      {
        ReturnLowersFold(rr, w, e.log, i, n, EventWindow(w, log[k]), k);
        assert GivenBack(rr, e.log[k]) <= Fold(rr, w, e.log[..k], EventWindow(w, e.log[k])) + Charged(rr, e.log[k]);
      }
    }
  }

  lemma EditKeepsWindowBound(e: Entry, r: Reservation, i: nat, n: Usage)
    requires WindowBound(e) && SameTerms(e.res, r) && Returnable(e.log, i)
    requires r.rateConsumed <= e.res.rateConsumed
    ensures WindowBound(e.(res := r, log := WithReturn(e.log, i, n)))
  {
    var rr, w := e.res.rateReserved, e.rateWindowNs;
    if e.policy.Rate? && w != 0 && rr < U64_MAX {
      forall window: nat
        ensures StaysWithin(rr, w, WithReturn(e.log, i, n), window, rr)
      {
        assert StaysWithin(rr, w, e.log, window, rr);
        StaysWithinReturn(rr, w, e.log, i, n, window, rr);
      }
    }
  }

  lemma EditKeepsLedger(e: Entry, i: nat, n: Usage)
    requires RateLedger(e) && Returnable(e.log, i) && ReturnFits(e.res, n)
    ensures RateLedger(e.(res := SubtractUnits(e.res, n), log := WithReturn(e.log, i, n)))
  {
    var log := WithReturn(e.log, i, n);
    BalanceReturn(e.res.rateReserved, e.log, i, n, |e.log|);
    assert log[..|log|] == log && e.log[..|e.log|] == e.log;
    PeakFitsReturn(e.res.rateReserved, e.log, i, n);
  }

  lemma EditKeepsShape(e: Entry, r: Reservation, i: nat, n: Usage)
    requires Shaped(e) && SameTerms(e.res, r) && Returnable(e.log, i)
    requires n.taskId == e.log[i].consumed.taskId != 0
    requires CreditsOf(e.res, n) <= CreditsOf(e.res, e.log[i].consumed)
    requires RateOf(e.res, n) <= RateOf(e.res, e.log[i].consumed)
    ensures Shaped(e.(res := r, log := WithReturn(e.log, i, n)))
  {
    var log := WithReturn(e.log, i, n);
    forall k | 0 <= k < |log|
      ensures ShapedEvent(r, log[k])
    {
      assert ShapedEvent(e.res, e.log[k]);
    }
  }

  lemma EditKeepsIndex(e: Entry, r: Reservation, i: nat, n: Usage)
    requires Indexed(e) && Returnable(e.log, i)
    ensures Indexed(e.(res := r, log := WithReturn(e.log, i, n)))
  {
  }

  lemma TaskReturnIsSound(e: Entry, i: nat, n: Usage, plugin: Status)
    requires Sound(e) && Returnable(e.log, i)
    requires n.taskId == e.log[i].consumed.taskId != 0
    ensures Sound(ReturnOfTask(e, i, n, plugin).entry)
  {
    if ReturnOfTask(e, i, n, plugin).status == OK {
      var r := SubtractUnits(e.res, n);
      EditKeepsIndex(e, r, i, n);
      EditKeepsShape(e, r, i, n);
      EditKeepsLedger(e, i, n);
      EditKeepsCovered(e, r, i, n);
      EditKeepsWindowBound(e, r, i, n);
    }
  }

  lemma ReturnIsSound(e: Entry, u: Usage, now: u64, plugin: Status)
    requires Sound(e)
    ensures Sound(ReturnUsage(e, u, now, plugin).entry)
  {
    var at := Position(e, u.taskId);
    var existing := if at.Some? then e.log[at.value].consumed.eventTimeNs else 0;
    var n := NormalizeUsage(e.res.reservationId, u, existing, now);
    if e.res.state == Active && n.Success? {
      if at.None? && n.value.taskId == 0 {
        AnonymousReturnIsSound(e, n.value, plugin);
      } else if at.Some? && Returnable(e.log, at.value) {
        TaskReturnIsSound(e, at.value, n.value, plugin);
      }
    }
  }

  // ---------------------------------------------------------------------------

  lemma MeasurementsAreIndependent(e: Entry, actuals: map<u64, ActualEvent>)
    requires Sound(e)
    ensures Sound(e.(actuals := actuals))
  {
    var after := e.(actuals := actuals);
    assert Indexed(after) && Shaped(after) && RateLedger(after);
    assert Covered(after) && WindowBound(after) && CreditBound(after);
  }

  lemma CountersOnlySoundForSame(e: Entry, r: Reservation)
    requires Sound(e) && SameTerms(e.res, r) && r.rateConsumed == e.res.rateConsumed
    requires r.creditsConsumed == e.res.creditsConsumed
    ensures Sound(e.(res := r))
  {
    CountersOnlySound(e, r);
  }

  lemma RecordIsSound(e: Entry, a: ActualUsage, feedback: Option<Status>)
    requires Sound(e)
    ensures Sound(RecordActual(e, a, feedback).entry)
  {
    hide Sound;
    var after := RecordActual(e, a, feedback).entry;
    assert after.res.rateConsumed == e.res.rateConsumed;
    CountersOnlySoundForSame(e, after.res);
    MeasurementsAreIndependent(e.(res := after.res), after.actuals);
    assert e.(res := after.res).(actuals := after.actuals) == after;
  }

  lemma TransitionIsSound(e: Entry, target: ReservationState, release: Status)
    requires Sound(e)
    ensures Sound(Transition(e, target, release).1)
  {
    CountersOnlySound(e, Transition(e, target, release).1.res);
  }

  lemma RenewIsSound(e: Entry, now: u64, ttl: u64)
    requires Sound(e)
    ensures Sound(Renew(e, now, ttl).1)
  {
    CountersOnlySound(e, Renew(e, now, ttl).1.res);
  }

  /** Every operation on a reservation keeps the whole invariant. */
  lemma ApplyIsSound(e: Entry, op: UsageOp)
    requires Sound(e)
    ensures Sound(Apply(e, op))
  {
    match op
    case ConsumeOp(u, now, verdict) => ConsumeIsSound(e, u, now, verdict);
    case ReturnOp(u, now, status) => ReturnIsSound(e, u, now, status);
    case RecordOp(a, feedback) => RecordIsSound(e, a, feedback);
    case TransitionOp(target, release) => TransitionIsSound(e, target, release);
    case RenewOp(now, ttl) => RenewIsSound(e, now, ttl);
  }

  lemma {:induction false} RunIsSound(e: Entry, ops: seq<UsageOp>)
    requires Sound(e)
    ensures Sound(Run(e, ops))
  {
    if |ops| != 0 {
      RunIsSound(e, ops[..|ops| - 1]);
      ApplyIsSound(Run(e, ops[..|ops| - 1]), ops[|ops| - 1]);
    }
  }
}
