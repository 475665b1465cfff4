/**
 Rate windows by time alone. A window is a half-open interval of the device's time span, counted from zero; what
 it holds is folded from the log's own fields, without the definitions the operations are specified with.
 */
module WindowLaws {
  import opened CheckedMath
  import opened Records
  import opened Policies
  import opened UsageLog
  import opened UsageModel
  import opened UsageInvariants
  import opened UsageTheorems
  import opened MapSum
  import opened ActiveCapacity
  import opened CapacityLaws
  import opened LedgerModel
  import opened LedgerInvariants
  import opened LedgerSteps
  import opened LedgerGuarantees

  /** A time lies in the k-th interval of length w. */
  predicate Within(t: nat, k: nat, w: nat) {
    k * w <= t < (k + 1) * w
  }

  lemma WindowIsInterval(t: u64, w: u64, k: nat)
    requires w != 0
    ensures WindowOf(t, w) == k <==> Within(t, k, w)
  {
    var q := t / w;
    QuotientBounds(t, w);
    if q < k {
      MulMonotone(w, q + 1, k);
    }
    if k < q {
      MulMonotone(w, k + 1, q);
    }
  }

  lemma QuotientBounds(t: nat, w: nat)
    requires w != 0
    ensures (t / w) * w <= t < (t / w + 1) * w
  {
  }

  /** Two times are metered together exactly when some interval contains both. */
  lemma MeteredTogetherIff(s: u64, t: u64, w: u64)
    requires w != 0
    ensures WindowOf(s, w) == WindowOf(t, w) <==> exists k: nat :: Within(s, k, w) && Within(t, k, w)
  {
    WindowIsInterval(s, w, WindowOf(s, w));
    WindowIsInterval(t, w, WindowOf(s, w));
    forall k: nat
      ensures WindowOf(s, w) == k <==> Within(s, k, w)
      ensures WindowOf(t, w) == k <==> Within(t, k, w)
    {
      WindowIsInterval(s, w, k);
      WindowIsInterval(t, w, k);
    }
  }

  /** The rate a usage stands for: its rate units, or else its baseline units where rate is reserved. */
  function Units(rr: u64, u: Usage): nat {
    if u.rateUnits > 0 then u.rateUnits else if rr > 0 then u.baselineUnits else 0
  }

  /** What one node charges between two times. */
  function ChargeBetween(rr: u64, ev: UsageEvent, from: nat, to: nat): nat {
    if ev.consumedSet && from <= ev.consumed.eventTimeNs < to then Units(rr, ev.consumed) else 0
  }

  /** What it gives back there: a task's return at the time of its charge, an anonymous one at its own. */
  function ReturnBetween(rr: u64, ev: UsageEvent, from: nat, to: nat): nat {
    match ev.returned
    case None => 0
    case Some(u) =>
      if from <= (if ev.consumedSet then ev.consumed else u).eventTimeNs < to then Units(rr, u) else 0
  }

  /** What the interval holds after the log, node by node; a return takes away at most what is there. */
  function HeldBetween(rr: u64, log: Log, from: nat, to: nat): nat {
    if |log| == 0 then 0
    else
      var front, last := log[..|log| - 1], log[|log| - 1];
      var charged := HeldBetween(rr, front, from, to) + ChargeBetween(rr, last, from, to);
      if charged <= ReturnBetween(rr, last, from, to) then 0 else charged - ReturnBetween(rr, last, from, to)
  }

  /** What the k-th interval of length w holds. */
  function HeldIn(rr: u64, log: Log, k: nat, w: nat): nat {
    HeldBetween(rr, log, k * w, (k + 1) * w)
  }

  function ChargeIn(rr: u64, ev: UsageEvent, k: nat, w: nat): nat {
    ChargeBetween(rr, ev, k * w, (k + 1) * w)
  }

  /** The fold over a window is what its interval holds. */
  lemma {:induction false} FoldIsHeld(rr: u64, w: u64, log: Log, k: nat)
    requires w != 0
    ensures Fold(rr, w, log, k) == HeldIn(rr, log, k, w)
  {
    if |log| != 0 {
      FoldIsHeld(rr, w, log[..|log| - 1], k);
      NodeCountsBetween(rr, w, log[|log| - 1], k);
    }
  }

  lemma NodeCountsBetween(rr: u64, w: u64, ev: UsageEvent, k: nat)
    requires w != 0
    ensures ChargedIn(rr, w, ev, k) == ChargeIn(rr, ev, k, w)
    ensures GivenBackIn(rr, w, ev, k) == ReturnBetween(rr, ev, k * w, (k + 1) * w)
  {
    WindowIsInterval(ev.consumed.eventTimeNs, w, k);
    if ev.returned.Some? {
      WindowIsInterval(ev.returned.value.eventTimeNs, w, k);
    }
    hide WindowOf;
  }

  /**
   After any run on a reservation of less than the largest rate: no interval [k * w, (k + 1) * w), at no point of
   the log, ever held more than the reserved rate, not even between a node's charge and its return.
   */
  lemma IntervalsStayWithinReservedRate(e: Entry, ops: seq<UsageOp>, k: nat, n: nat)
    requires Fresh(e) && e.policy.Rate? && e.rateWindowNs != 0 && 0 < e.res.rateReserved < U64_MAX
    requires n <= |Run(e, ops).log|
    ensures var w, log := e.rateWindowNs, Run(e, ops).log;
            && HeldIn(e.res.rateReserved, log[..n], k, w) <= e.res.rateReserved
            && (n < |log| ==>
                  HeldIn(e.res.rateReserved, log[..n], k, w) + ChargeIn(e.res.rateReserved, log[n], k, w)
                  <= e.res.rateReserved)
  {
    var rr, w, log := e.res.rateReserved, e.rateWindowNs, Run(e, ops).log;
    WindowsStayWithinReservedRate(e, ops, k);
    hide Run, Fold, HeldIn;
    FoldIsHeld(rr, w, log[..n], k);
    PrefixStaysWithin(rr, w, log, n, k, rr);
    FoldWithin(rr, w, log[..n], k, rr);
    if n < |log| {
      NodeCountsBetween(rr, w, log[n], k);
    }
  }

  lemma PrefixStaysWithin(rr: u64, w: u64, log: Log, n: nat, k: nat, bound: nat)
    requires w != 0 && n <= |log| && StaysWithin(rr, w, log, k, bound)
    ensures StaysWithin(rr, w, log[..n], k, bound)
  {
    hide Fold;
    forall i | 0 <= i < n
      ensures Fold(rr, w, log[..n][..i], k) + ChargedIn(rr, w, log[..n][i], k) <= bound
    {
      assert log[..n][..i] == log[..i];
    }
  }

  // ---------------------------------------------------------------------------
  // What a consume is measured against, and what a device's reservations hold together.

  /**
   Under the rate policy a usage of a new task is accepted exactly when its units fit beside what the interval of
   its event time already holds.
   */
  lemma RateConsumeAcceptedIff(
    f: Entry, ops: seq<UsageOp>, e: Entry, u: Usage, now: u64, plugin: Callback<Decision>, k: nat)
    requires Fresh(f) && f.policy.Rate? && f.rateWindowNs != 0 && 0 < f.res.rateReserved < U64_MAX
    requires e == Run(f, ops) && (u.taskId == 0 || u.taskId !in e.index)
    requires Consume(e, u, now, plugin).status == OK
    requires Within(if u.eventTimeNs == 0 then now else u.eventTimeNs, k, f.rateWindowNs)
    ensures Consume(e, u, now, plugin).decision.Some?
    ensures Consume(e, u, now, plugin).decision.value.kind == Accepted <==>
            HeldIn(f.res.rateReserved, e.log, k, f.rateWindowNs) + Units(f.res.rateReserved, u) <= f.res.rateReserved
  {
    var time := if u.eventTimeNs == 0 then now else u.eventTimeNs;
    RunKeepsTerms(f, ops);
    WindowsStayWithinReservedRate(f, ops, k);
    WindowIsInterval(time, f.rateWindowNs, k);
    hide Run, Fold, HeldIn, WindowOf, StaysWithin, Metered, Within, Consume;
    FoldIsHeld(f.res.rateReserved, f.rateWindowNs, e.log, k);
    NewRateVerdict(e, u, now, plugin);
  }

  lemma NewRateVerdict(e: Entry, u: Usage, now: u64, plugin: Callback<Decision>)
    requires Indexed(e) && e.policy.Rate? && e.rateWindowNs != 0 && e.res.rateReserved != 0
    requires u.taskId == 0 || u.taskId !in e.index
    requires Consume(e, u, now, plugin).status == OK
    ensures var time := if u.eventTimeNs == 0 then now else u.eventTimeNs;
            var metered := Metered(e.res.rateReserved, e.rateWindowNs, e.log, WindowOf(time, e.rateWindowNs));
            && Consume(e, u, now, plugin).decision.Some?
            && (Consume(e, u, now, plugin).decision.value.kind == Accepted <==>
                  Min(metered + Units(e.res.rateReserved, u), U64_MAX) <= e.res.rateReserved)
  {
    hide Metered, WindowOf, AddUnits;
  }

  /** What the active reservations of a device hold together in the k-th interval of length w. */
  ghost function HeldByAll(reservations: map<u64, Entry>, device: u64, k: nat, w: nat): nat {
    Sum(
      map id | id in Holders(reservations, device, None) ::
        HeldIn(reservations[id].res.rateReserved, reservations[id].log, k, w))
  }

  ghost function ReservedByAll(reservations: map<u64, Entry>, device: u64): nat {
    Sum(map id | id in Holders(reservations, device, None) :: reservations[id].res.rateReserved)
  }

  /**
   In every reachable state, and in every interval of its time span, all active reservations of a rate device hold
   at most what they reserved together, which is within a total rate that no plugin derives.
   */
  lemma DeviceHoldsWithinRate(s: Ledger, device: u64, k: nat)
    requires Reachable(s) && RateDevice(s, device) && ReservedByAll(s.reservations, device) < U64_MAX
    ensures var span := s.devices[device].profile.timeSpanNs;
            && HeldByAll(s.reservations, device, k, span) <= ReservedByAll(s.reservations, device)
            && (FixedRate(s.devices[device]).Some? ==>
                  ReservedByAll(s.reservations, device) <= FixedRate(s.devices[device]).value)
  {
    ReservedIsTotal(s.reservations, device);
    MeteredIsHeldByAll(s, device, k);
    hide Reachable, Total, HeldByAll, FixedRate, ReservedByAll, Metered;
    MeteredRateFits(s, device, k);
    if FixedRate(s.devices[device]).Some? {
      ActiveRateWithinTotal(s, device);
    }
  }

  lemma ReservedIsTotal(reservations: map<u64, Entry>, device: u64)
    ensures ReservedByAll(reservations, device) == Total(reservations, device, None, RateReserved)
  {
    hide Total, Sum;
    TotalIsSum(
      reservations, device, None, RateReserved,
      map id | id in Holders(reservations, device, None) :: reservations[id].res.rateReserved);
  }

  lemma MeteredIsHeldByAll(s: Ledger, device: u64, k: nat)
    requires Reachable(s) && RateDevice(s, device)
    requires Total(s.reservations, device, None, RateReserved) < U64_MAX
    ensures var span := s.devices[device].profile.timeSpanNs;
            Total(s.reservations, device, None, MeteredIn(k))
            == HeldByAll(s.reservations, device, k, span)
  {
    hide Reachable, Total, Metered, HeldIn, Sum;
    var span := s.devices[device].profile.timeSpanNs;
    var held := map id | id in Holders(s.reservations, device, None)
                  :: HeldIn(s.reservations[id].res.rateReserved, s.reservations[id].log, k, span);
    forall id | id in held
      ensures held[id] == Weigh(MeteredIn(k), s.reservations[id])
    {
      HeldIsMetered(s, device, id, k);
    }
    TotalIsSum(s.reservations, device, None, MeteredIn(k), held);
  }

  lemma HeldIsMetered(s: Ledger, device: u64, id: u64, k: nat)
    requires Reachable(s) && RateDevice(s, device) && id in s.reservations && ActiveOn(s.reservations[id], device)
    requires Total(s.reservations, device, None, RateReserved) < U64_MAX
    ensures var e, span := s.reservations[id], s.devices[device].profile.timeSpanNs;
            e.rateWindowNs == span != 0
            && Metered(e.res.rateReserved, e.rateWindowNs, e.log, k) == HeldIn(e.res.rateReserved, e.log, k, span)
  {
    hide Reachable, Total, Metered, Fold, StaysWithin, HeldIn;
    MeteredRateIsExact(s, device, id, k);
    ActivePolicy(s, id, device);
    FoldIsHeld(s.reservations[id].res.rateReserved, s.reservations[id].rateWindowNs, s.reservations[id].log, k);
  }
}
