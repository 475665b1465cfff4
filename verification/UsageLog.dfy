/**
 The ordered log of usage events of one reservation and the fold that recomputes the rate consumed in an
 accounting window (src/qhw_usage.c). Sums here are unbounded integers; where the source uses 64 bits the
 limit is written out.
 */
module UsageLog {
  import opened CheckedMath
  import opened Records

  /**
   One node of the log. A charged event has consumedSet; a declined one keeps its decision only; an
   anonymous return is a node of its own with a blank consumed part.
   */
  datatype UsageEvent = UsageEvent(
    consumed: Usage,
    returned: Option<Usage>,
    decision: Decision,
    consumedSet: bool)

  type Log = seq<UsageEvent>

  /** Credit units of a usage for a reservation holding the given credits. */
  function CreditUnits(creditsReserved: u64, u: Usage): u64 {
    if u.credits != 0 then u.credits
    else if creditsReserved != 0 then u.baselineUnits
    else 0
  }

  /** Rate units of a usage: the baseline units are taken as they are, without scaling. */
  function RateUnits(rateReserved: u64, u: Usage): u64 {
    if u.rateUnits != 0 then u.rateUnits
    else if rateReserved != 0 then u.baselineUnits
    else 0
  }

  function Charged(rr: u64, ev: UsageEvent): u64 {
    if ev.consumedSet then RateUnits(rr, ev.consumed) else 0
  }

  function GivenBack(rr: u64, ev: UsageEvent): u64 {
    if ev.returned.Some? then RateUnits(rr, ev.returned.value) else 0
  }

  /** The accounting window of length w that a time falls into. */
  function WindowOf(t: u64, w: u64): nat
    requires w != 0
  {
    DivisionFacts(t, w);
    t / w
  }

  /** A task's return belongs to the window of its charge; an anonymous return to its own. */
  function EventWindow(w: u64, ev: UsageEvent): nat
    requires w != 0
  {
    WindowOf(if ev.consumedSet || ev.returned.None? then ev.consumed.eventTimeNs else ev.returned.value.eventTimeNs, w)
  }

  function ChargedIn(rr: u64, w: u64, ev: UsageEvent, window: nat): nat
    requires w != 0
  {
    if EventWindow(w, ev) == window then Charged(rr, ev) else 0
  }

  function GivenBackIn(rr: u64, w: u64, ev: UsageEvent, window: nat): nat
    requires w != 0
  {
    if EventWindow(w, ev) == window then GivenBack(rr, ev) else 0
  }

  function Floor(a: int): nat {
    if a < 0 then 0 else a
  }

  /** Consumption of a window, folded in log order; a return takes away at most what is there. */
  function Fold(rr: u64, w: u64, log: Log, window: nat): nat
    requires w != 0
  {
    if |log| == 0 then 0
    else
      var ev := log[|log| - 1];
      Floor(Fold(rr, w, log[..|log| - 1], window) + ChargedIn(rr, w, ev, window) - GivenBackIn(rr, w, ev, window))
  }

  /** No running total of the fold, at any prefix, exceeds the bound. */
  predicate StaysWithin(rr: u64, w: u64, log: Log, window: nat, bound: nat)
    requires w != 0
  {
    forall k :: 0 <= k < |log| ==>
      Fold(rr, w, log[..k], window) + ChargedIn(rr, w, log[k], window) <= bound
  }

  /** What the 64-bit loop answers: the fold, or the largest number once a running total has overflowed. */
  function Metered(rr: u64, w: u64, log: Log, window: nat): u64
    requires w != 0
  {
    if StaysWithin(rr, w, log, window, U64_MAX) then
      FoldWithin(rr, w, log, window, U64_MAX);
      Fold(rr, w, log, window)
    else U64_MAX
  }

  lemma FoldStep(rr: u64, w: u64, log: Log, i: nat, window: nat)
    requires w != 0 && i < |log|
    ensures Fold(rr, w, log[..i + 1], window)
         == Floor(Fold(rr, w, log[..i], window) + ChargedIn(rr, w, log[i], window) - GivenBackIn(rr, w, log[i], window))
  {
    assert log[..i + 1][..i] == log[..i];
  }

  lemma OverflowEndsFold(rr: u64, w: u64, log: Log, i: nat, window: nat)
    requires w != 0 && i < |log|
    requires Fold(rr, w, log[..i], window) + ChargedIn(rr, w, log[i], window) > U64_MAX
    ensures Metered(rr, w, log, window) == U64_MAX
  {
  }

  /** The fold of a whole log that stays within 64 bits is what is metered; an empty prefix starts it at zero. */
  lemma MeterEnds(rr: u64, w: u64, log: Log, window: nat)
    requires w != 0
    ensures Fold(rr, w, log[..0], window) == 0 && StaysWithin(rr, w, log[..0], window, U64_MAX)
    ensures StaysWithin(rr, w, log[..|log|], window, U64_MAX) ==>
              Metered(rr, w, log, window) == Fold(rr, w, log[..|log|], window)
  {
    assert log[..|log|] == log;
  }

  function Later(a: u64, b: u64): u64 {
    if b > a then b else a
  }

  /** The latest time of any charge or return in the log, zero for none. */
  function LatestTime(log: Log): u64 {
    if |log| == 0 then 0
    else
      var ev := log[|log| - 1];
      var latest := LatestTime(log[..|log| - 1]);
      var charged := if ev.consumedSet then Later(latest, ev.consumed.eventTimeNs) else latest;
      if ev.returned.Some? then Later(charged, ev.returned.value.eventTimeNs) else charged
  }

  // ---------------------------------------------------------------------------
  // The fold under the two ways a log changes: a node appended, a return put into a node.

  lemma FoldWithin(rr: u64, w: u64, log: Log, window: nat, bound: nat)
    requires w != 0
    requires StaysWithin(rr, w, log, window, bound)
    ensures Fold(rr, w, log, window) <= bound
  {
    if |log| != 0 {
      assert Fold(rr, w, log[..|log| - 1], window) + ChargedIn(rr, w, log[|log| - 1], window) <= bound;
    }
  }

  lemma FoldAppend(rr: u64, w: u64, log: Log, ev: UsageEvent, window: nat)
    requires w != 0
    ensures Fold(rr, w, log + [ev], window)
         == Floor(Fold(rr, w, log, window) + ChargedIn(rr, w, ev, window) - GivenBackIn(rr, w, ev, window))
  {
    assert (log + [ev])[..|log|] == log;
  }

  lemma StaysWithinAppend(rr: u64, w: u64, log: Log, ev: UsageEvent, window: nat, bound: nat)
    requires w != 0
    requires StaysWithin(rr, w, log, window, bound)
    requires Fold(rr, w, log, window) + ChargedIn(rr, w, ev, window) <= bound
    ensures StaysWithin(rr, w, log + [ev], window, bound)
  {
    forall k | 0 <= k < |log + [ev]|
      ensures Fold(rr, w, (log + [ev])[..k], window) + ChargedIn(rr, w, (log + [ev])[k], window) <= bound
    {
      assert (log + [ev])[..k] == log[..k];
      assert k == |log| ==> log[..k] == log;
    }
  }

  /** The log after a return is stored in an already charged node. */
  function WithReturn(log: Log, i: nat, u: Usage): Log
    requires i < |log|
  {
    log[i := log[i].(returned := Some(u))]
  }

  predicate Returnable(log: Log, i: nat) {
    i < |log| && log[i].consumedSet && log[i].returned.None?
  }

  /** A return put into the middle of the log lowers the fold of every prefix, or leaves it. */
  lemma {:induction false} ReturnLowersFold(rr: u64, w: u64, log: Log, i: nat, u: Usage, window: nat, k: nat)
    requires w != 0
    requires Returnable(log, i) && k <= |log|
    ensures Fold(rr, w, WithReturn(log, i, u)[..k], window) <= Fold(rr, w, log[..k], window)
    ensures RateUnits(rr, u) == 0 ==>
              Fold(rr, w, WithReturn(log, i, u)[..k], window) == Fold(rr, w, log[..k], window)
  {
    if k != 0 {
      var edited := WithReturn(log, i, u);
      assert edited[..k][..k - 1] == edited[..k - 1];
      assert log[..k][..k - 1] == log[..k - 1];
      ReturnLowersFold(rr, w, log, i, u, window, k - 1);
    }
  }

  lemma StaysWithinReturn(rr: u64, w: u64, log: Log, i: nat, u: Usage, window: nat, bound: nat)
    requires w != 0
    requires Returnable(log, i)
    requires StaysWithin(rr, w, log, window, bound)
    ensures StaysWithin(rr, w, WithReturn(log, i, u), window, bound)
  {
    var edited := WithReturn(log, i, u);
    forall k | 0 <= k < |edited|
      ensures Fold(rr, w, edited[..k], window) + ChargedIn(rr, w, edited[k], window) <= bound
    {
      ReturnLowersFold(rr, w, log, i, u, window, k);
      assert Fold(rr, w, log[..k], window) + ChargedIn(rr, w, log[k], window) <= bound;
    }
  }

  // ---------------------------------------------------------------------------
  // The lifetime balance: everything charged minus everything given back.

  function Balance(rr: u64, log: Log): int {
    if |log| == 0 then 0
    else Balance(rr, log[..|log| - 1]) + Charged(rr, log[|log| - 1]) - GivenBack(rr, log[|log| - 1])
  }

  function BalanceIn(rr: u64, w: u64, log: Log, window: nat): int
    requires w != 0
  {
    if |log| == 0 then 0
    else
      BalanceIn(rr, w, log[..|log| - 1], window)
      + ChargedIn(rr, w, log[|log| - 1], window) - GivenBackIn(rr, w, log[|log| - 1], window)
  }

  lemma BalanceAppend(rr: u64, log: Log, ev: UsageEvent)
    ensures Balance(rr, log + [ev]) == Balance(rr, log) + Charged(rr, ev) - GivenBack(rr, ev)
  {
    assert (log + [ev])[..|log|] == log;
  }

  lemma {:induction false} BalanceReturn(rr: u64, log: Log, i: nat, u: Usage, k: nat)
    requires Returnable(log, i) && k <= |log|
    ensures Balance(rr, WithReturn(log, i, u)[..k])
         == Balance(rr, log[..k]) - (if i < k then RateUnits(rr, u) else 0)
  {
    if k != 0 {
      var edited := WithReturn(log, i, u);
      assert edited[..k][..k - 1] == edited[..k - 1];
      assert log[..k][..k - 1] == log[..k - 1];
      BalanceReturn(rr, log, i, u, k - 1);
    }
  }

  /** Saturation can only keep a window higher than its balance. */
  lemma {:induction false} FoldAtLeastBalance(rr: u64, w: u64, log: Log, window: nat)
    requires w != 0
    ensures BalanceIn(rr, w, log, window) <= Fold(rr, w, log, window)
  {
    if |log| != 0 {
      FoldAtLeastBalance(rr, w, log[..|log| - 1], window);
    }
  }

  /** No return of the log, at its place, takes away more than its window then holds. */
  predicate NeverShort(rr: u64, w: u64, log: Log)
    requires w != 0
  {
    forall k :: 0 <= k < |log| ==>
      GivenBack(rr, log[k]) <= Fold(rr, w, log[..k], EventWindow(w, log[k])) + Charged(rr, log[k])
  }

  lemma NeverShortPrefix(rr: u64, w: u64, log: Log, n: nat)
    requires w != 0 && n <= |log|
    requires NeverShort(rr, w, log)
    ensures NeverShort(rr, w, log[..n])
  {
    forall k | 0 <= k < n
      ensures GivenBack(rr, log[..n][k])
           <= Fold(rr, w, log[..n][..k], EventWindow(w, log[..n][k])) + Charged(rr, log[..n][k])
    {
      assert log[..n][..k] == log[..k];
    }
  }

  lemma {:induction false} FoldIsBalance(rr: u64, w: u64, log: Log, window: nat)
    requires w != 0
    requires NeverShort(rr, w, log)
    ensures BalanceIn(rr, w, log, window) == Fold(rr, w, log, window)
  {
    if |log| != 0 {
      NeverShortPrefix(rr, w, log, |log| - 1);
      FoldIsBalance(rr, w, log[..|log| - 1], window);
      assert log[..|log|] == log;
    }
  }

  // ---------------------------------------------------------------------------
  // Sums over the windows 0 .. n-1.

  function FoldSum(rr: u64, w: u64, log: Log, n: nat): nat
    requires w != 0
  {
    if n == 0 then 0 else FoldSum(rr, w, log, n - 1) + Fold(rr, w, log, n - 1)
  }

  function MeteredSum(rr: u64, w: u64, log: Log, n: nat): nat
    requires w != 0
  {
    if n == 0 then 0 else MeteredSum(rr, w, log, n - 1) + Metered(rr, w, log, n - 1)
  }

  function BalanceSum(rr: u64, w: u64, log: Log, n: nat): int
    requires w != 0
  {
    if n == 0 then 0 else BalanceSum(rr, w, log, n - 1) + BalanceIn(rr, w, log, n - 1)
  }

  /** The number of windows of length w that 64-bit times can fall into. */
  function WindowCount(w: u64): nat
    requires w != 0
  {
    WindowOf(U64_MAX, w) + 1
  }

  lemma WindowInRange(w: u64, t: u64)
    requires w != 0
    ensures WindowOf(t, w) < WindowCount(w)
  {
    DivisionFacts(t, w);
    DivisionFacts(U64_MAX, w);
    if t / w > U64_MAX / w {
      MulMonotone(w, U64_MAX / w + 1, t / w);
    }
  }

  lemma {:induction false} BalanceSumStep(rr: u64, w: u64, log: Log, n: nat)
    requires w != 0 && |log| != 0
    ensures BalanceSum(rr, w, log, n) == BalanceSum(rr, w, log[..|log| - 1], n)
         + (if EventWindow(w, log[|log| - 1]) < n then Charged(rr, log[|log| - 1]) - GivenBack(rr, log[|log| - 1]) else 0)
  {
    if n != 0 {
      BalanceSumStep(rr, w, log, n - 1);
    }
  }

  lemma {:induction false} BalanceSumEmpty(rr: u64, w: u64, n: nat)
    requires w != 0
    ensures BalanceSum(rr, w, [], n) == 0
  {
    if n != 0 {
      BalanceSumEmpty(rr, w, n - 1);
    }
  }

  /** The balances of all windows add up to the lifetime balance. */
  lemma {:induction false} WindowsPartitionBalance(rr: u64, w: u64, log: Log)
    requires w != 0
    ensures BalanceSum(rr, w, log, WindowCount(w)) == Balance(rr, log)
  {
    if |log| == 0 {
      BalanceSumEmpty(rr, w, WindowCount(w));
    } else {
      var ev := log[|log| - 1];
      WindowsPartitionBalance(rr, w, log[..|log| - 1]);
      BalanceSumStep(rr, w, log, WindowCount(w));
      WindowInRange(
        w, if ev.consumedSet || ev.returned.None? then ev.consumed.eventTimeNs else ev.returned.value.eventTimeNs);
    }
  }

  lemma {:induction false} SumsCompare(rr: u64, w: u64, log: Log, n: nat)
    requires w != 0
    ensures BalanceSum(rr, w, log, n) <= FoldSum(rr, w, log, n)
    ensures NeverShort(rr, w, log) ==> BalanceSum(rr, w, log, n) == FoldSum(rr, w, log, n)
  {
    if n != 0 {
      SumsCompare(rr, w, log, n - 1);
      FoldAtLeastBalance(rr, w, log, n - 1);
      if NeverShort(rr, w, log) {
        FoldIsBalance(rr, w, log, n - 1);
      }
    }
  }

  lemma {:induction false} OneWindowWithinSum(rr: u64, w: u64, log: Log, window: nat, n: nat)
    requires w != 0 && window < n
    ensures Fold(rr, w, log, window) <= FoldSum(rr, w, log, n)
  {
    if window < n - 1 {
      OneWindowWithinSum(rr, w, log, window, n - 1);
    }
  }

  /** Every charge, when its place in the log is reached, fits the 64-bit lifetime counter. */
  predicate PeakFits(rr: u64, log: Log) {
    forall k :: 0 <= k < |log| ==> Balance(rr, log[..k]) + Charged(rr, log[k]) <= U64_MAX
  }

  lemma PeakFitsAppend(rr: u64, log: Log, ev: UsageEvent)
    requires PeakFits(rr, log) && Balance(rr, log) + Charged(rr, ev) <= U64_MAX
    ensures PeakFits(rr, log + [ev])
  {
    forall k | 0 <= k < |log + [ev]|
      ensures Balance(rr, (log + [ev])[..k]) + Charged(rr, (log + [ev])[k]) <= U64_MAX
    {
      assert (log + [ev])[..k] == log[..k];
      assert k == |log| ==> log[..k] == log;
    }
  }

  lemma PeakFitsReturn(rr: u64, log: Log, i: nat, u: Usage)
    requires Returnable(log, i) && PeakFits(rr, log)
    ensures PeakFits(rr, WithReturn(log, i, u))
  {
    var edited := WithReturn(log, i, u);
    forall k | 0 <= k < |edited|
      ensures Balance(rr, edited[..k]) + Charged(rr, edited[k]) <= U64_MAX
    {
      BalanceReturn(rr, log, i, u, k);
      assert Balance(rr, log[..k]) + Charged(rr, log[k]) <= U64_MAX;
    }
  }

  /** A log that is never short never overflows the fold, whatever the policy allowed. */
  lemma NeverShortNeverOverflows(rr: u64, w: u64, log: Log, window: nat)
    requires w != 0
    requires NeverShort(rr, w, log) && PeakFits(rr, log)
    ensures StaysWithin(rr, w, log, window, U64_MAX)
    ensures Metered(rr, w, log, window) == Fold(rr, w, log, window)
  {
    forall k | 0 <= k < |log|
      ensures Fold(rr, w, log[..k], window) + ChargedIn(rr, w, log[k], window) <= U64_MAX
    {
      var prefix := log[..k];
      NeverShortPrefix(rr, w, log, k);
      WindowsPartitionBalance(rr, w, prefix);
      SumsCompare(rr, w, prefix, WindowCount(w));
      FoldBeyondRange(rr, w, prefix, window);
      if window < WindowCount(w) {
        OneWindowWithinSum(rr, w, prefix, window, WindowCount(w));
      }
      assert Balance(rr, log[..k]) + Charged(rr, log[k]) <= U64_MAX;
    }
  }

  lemma {:induction false} FoldBeyondRange(rr: u64, w: u64, log: Log, window: nat)
    requires w != 0
    ensures window >= WindowCount(w) ==> Fold(rr, w, log, window) == 0
    ensures Balance(rr, log) >= 0 || !NeverShort(rr, w, log)
  {
    if |log| != 0 && window >= WindowCount(w) {
      var ev := log[|log| - 1];
      FoldBeyondRange(rr, w, log[..|log| - 1], window);
      WindowInRange(
        w, if ev.consumedSet || ev.returned.None? then ev.consumed.eventTimeNs else ev.returned.value.eventTimeNs);
    }
    if NeverShort(rr, w, log) {
      WindowsPartitionBalance(rr, w, log);
      SumsCompare(rr, w, log, WindowCount(w));
    }
  }

  lemma {:induction false} MeteredCompare(rr: u64, w: u64, log: Log, n: nat)
    requires w != 0 && Balance(rr, log) <= U64_MAX
    ensures MeteredSum(rr, w, log, n) >= FoldSum(rr, w, log, n) || MeteredSum(rr, w, log, n) >= U64_MAX
    ensures NeverShort(rr, w, log) && PeakFits(rr, log) ==> MeteredSum(rr, w, log, n) == FoldSum(rr, w, log, n)
  {
    hide StaysWithin, NeverShort, PeakFits, Fold;
    if n != 0 {
      MeteredCompare(rr, w, log, n - 1);
      if NeverShort(rr, w, log) && PeakFits(rr, log) {
        NeverShortNeverOverflows(rr, w, log, n - 1);
      }
    }
  }

  /**
   The lifetime balance is at most the metered consumption summed over all windows, and equal to it when no
   return was short.
   */
  lemma BalanceWithinMetered(rr: u64, w: u64, log: Log)
    requires w != 0 && Balance(rr, log) <= U64_MAX
    ensures Balance(rr, log) <= MeteredSum(rr, w, log, WindowCount(w))
    ensures NeverShort(rr, w, log) && PeakFits(rr, log) ==> Balance(rr, log) == MeteredSum(rr, w, log, WindowCount(w))
  {
    WindowsPartitionBalance(rr, w, log);
    SumsCompare(rr, w, log, WindowCount(w));
    MeteredCompare(rr, w, log, WindowCount(w));
  }

  /** Saturation once lost is never made up for: the gap between fold and balance only grows along the log. */
  lemma {:induction false} GapNeverShrinks(rr: u64, w: u64, log: Log, k: nat, window: nat)
    requires w != 0 && k <= |log|
    ensures Fold(rr, w, log[..k], window) - BalanceIn(rr, w, log[..k], window)
         <= Fold(rr, w, log, window) - BalanceIn(rr, w, log, window)
  {
    if k == |log| {
      assert log[..k] == log;
    } else {
      var front := log[..|log| - 1];
      assert front[..k] == log[..k];
      GapNeverShrinks(rr, w, front, k, window);
    }
  }

  /** A return that is short at its place leaves its window above its balance for good. */
  lemma ShortReturnLeavesGap(rr: u64, w: u64, log: Log, k: nat)
    requires w != 0 && k < |log|
    requires GivenBack(rr, log[k]) > Fold(rr, w, log[..k], EventWindow(w, log[k])) + Charged(rr, log[k])
    ensures BalanceIn(rr, w, log, EventWindow(w, log[k])) < Fold(rr, w, log, EventWindow(w, log[k]))
  {
    var window := EventWindow(w, log[k]);
    FoldAtLeastBalance(rr, w, log[..k], window);
    assert log[..k + 1][..k] == log[..k];
    GapNeverShrinks(rr, w, log, k + 1, window);
  }

  lemma {:induction false} OneGapRaisesSum(rr: u64, w: u64, log: Log, window: nat, n: nat)
    requires w != 0 && window < n && BalanceIn(rr, w, log, window) < Fold(rr, w, log, window)
    ensures BalanceSum(rr, w, log, n) < FoldSum(rr, w, log, n)
  {
    FoldAtLeastBalance(rr, w, log, n - 1);
    if window < n - 1 {
      OneGapRaisesSum(rr, w, log, window, n - 1);
    } else {
      SumsCompare(rr, w, log, n - 1);
    }
  }

  lemma {:induction false} MeteredSumIsFoldSum(rr: u64, w: u64, log: Log, n: nat)
    requires w != 0 && forall window :: StaysWithin(rr, w, log, window, U64_MAX)
    ensures MeteredSum(rr, w, log, n) == FoldSum(rr, w, log, n)
  {
    hide StaysWithin, Fold;
    if n != 0 {
      MeteredSumIsFoldSum(rr, w, log, n - 1);
    }
  }

  /**
   As long as no fold overflows, the metered consumption summed over all windows is the lifetime balance exactly
   when no return in the log took away more, at its place, than its window then held.
   */
  lemma MeteredSumIsBalanceIff(rr: u64, w: u64, log: Log)
    requires w != 0 && forall window :: StaysWithin(rr, w, log, window, U64_MAX)
    ensures MeteredSum(rr, w, log, WindowCount(w)) == Balance(rr, log) <==> NeverShort(rr, w, log)
  {
    WindowsPartitionBalance(rr, w, log);
    MeteredSumIsFoldSum(rr, w, log, WindowCount(w));
    SumsCompare(rr, w, log, WindowCount(w));
    if !NeverShort(rr, w, log) {
      var k :| 0 <= k < |log|
               && GivenBack(rr, log[k]) > Fold(rr, w, log[..k], EventWindow(w, log[k])) + Charged(rr, log[k]);
      ShortReturnLeavesGap(rr, w, log, k);
      WindowInRange(
        w, if log[k].consumedSet || log[k].returned.None? then log[k].consumed.eventTimeNs
           else log[k].returned.value.eventTimeNs);
      OneGapRaisesSum(rr, w, log, EventWindow(w, log[k]), WindowCount(w));
    }
  }
}
