/**
 What holds of a reservation over any run of operations on it: the per-window rate bound, the lifetime
 counter, exactly-once charging, credit conservation and measured usage.
 */
module UsageTheorems {
  import opened CheckedMath
  import opened Metadata
  import opened Records
  import opened Policies
  import opened UsageLog
  import opened UsageModel
  import opened UsageInvariants
  import PolicyCommon
  import CreditPolicy
  import RatePolicy
  import opened MapSum

  // ---------------------------------------------------------------------------
  // Rate windows.

  /**
   In every reachable state of a rate reservation below the largest rate, and for every window: the fold
   overflows at no prefix, so the metered value is exact, and it never exceeds the reserved rate at any
   prefix. Event times and returns are arbitrary.
   */
  lemma WindowsStayWithinReservedRate(e: Entry, ops: seq<UsageOp>, window: nat)
    requires Fresh(e) && e.policy.Rate? && e.rateWindowNs != 0
    requires e.res.rateReserved < U64_MAX
    ensures var after := Run(e, ops);
            && StaysWithin(e.res.rateReserved, e.rateWindowNs, after.log, window, e.res.rateReserved)
            && Metered(e.res.rateReserved, e.rateWindowNs, after.log, window)
                 == Fold(e.res.rateReserved, e.rateWindowNs, after.log, window)
            && Metered(e.res.rateReserved, e.rateWindowNs, after.log, window) <= e.res.rateReserved
  {
    FreshIsSound(e);
    RunIsSound(e, ops);
    RunKeepsTerms(e, ops);
    MeteredIsExact(Run(e, ops), window);
  }

  /** The value the source meters is within the reserved rate for every rate, the largest included. */
  lemma MeteredWithinReserved(e: Entry, time: u64)
    requires Sound(e) && e.policy.Rate?
    ensures RateWindowConsumed(e, time) <= e.res.rateReserved
  {
    if e.rateWindowNs != 0 && e.res.rateReserved < U64_MAX {
      MeteredIsExact(e, WindowOf(time, e.rateWindowNs));
    }
  }

  /** The usage snapshot of a sound rate reservation splits the reserved rate exactly. */
  lemma SnapshotSplitsRate(e: Entry, now: u64)
    requires Sound(e) && e.policy.Rate? && e.res.rateReserved != 0
    ensures GetUsage(e, now).rateConsumed + GetUsage(e, now).remainingRate == e.res.rateReserved
  {
    MeteredWithinReserved(e, if LatestTime(e.log) == 0 then now else LatestTime(e.log));
  }

  /** What is agreed at reserve time never changes. */
  predicate SameAgreement(e: Entry, f: Entry) {
    && e.policy == f.policy
    && e.rateWindowNs == f.rateWindowNs
    && f.res == e.res.(
         state := f.res.state,
         creditsConsumed := f.res.creditsConsumed,
         rateConsumed := f.res.rateConsumed,
         actualTotalNs := f.res.actualTotalNs,
         unusedCapacity := f.res.unusedCapacity,
         overuseCount := f.res.overuseCount,
         underuseScore := f.res.underuseScore,
         expiresAtNs := f.res.expiresAtNs)
  }

  lemma ConsumeKeepsTerms(e: Entry, u: Usage, now: u64, plugin: Callback<Decision>)
    requires Indexed(e)
    ensures SameAgreement(e, Consume(e, u, now, plugin).entry)
  {
    var n := NormalizeUsage(e.res.reservationId, u, 0, now);
    if n.Success? {
      ConsumeNewKeepsTerms(e, n.value, plugin);
    }
  }

  lemma ConsumeNewKeepsTerms(e: Entry, n: Usage, plugin: Callback<Decision>)
    ensures SameAgreement(e, ConsumeNew(e, n, plugin).entry)
  {
    hide Verdict, Add, CreditsOf, RateOf;
  }

  lemma ReturnKeepsTerms(e: Entry, u: Usage, now: u64, plugin: Status)
    requires Indexed(e)
    ensures SameAgreement(e, ReturnUsage(e, u, now, plugin).entry)
  {
  }

  lemma ApplyKeepsTerms(e: Entry, op: UsageOp)
    requires Indexed(e)
    ensures SameAgreement(e, Apply(e, op))
  {
    match op
    case ConsumeOp(u, now, verdict) => ConsumeKeepsTerms(e, u, now, verdict);
    case ReturnOp(u, now, status) => ReturnKeepsTerms(e, u, now, status);
    case RecordOp(a, feedback) =>
    case TransitionOp(target, release) =>
    case RenewOp(now, ttl) =>
  }

  lemma {:induction false} RunKeepsTerms(e: Entry, ops: seq<UsageOp>)
    requires Indexed(e)
    ensures SameAgreement(e, Run(e, ops))
  {
    if |ops| != 0 {
      RunKeepsTerms(e, ops[..|ops| - 1]);
      ApplyKeepsTerms(Run(e, ops[..|ops| - 1]), ops[|ops| - 1]);
    }
  }

  /** The lifetime counter is the units charged minus the units given back, in every reachable state. */
  lemma LifetimeCounterIsBalance(e: Entry, ops: seq<UsageOp>)
    requires Fresh(e)
    ensures Run(e, ops).res.rateConsumed == Balance(e.res.rateReserved, Run(e, ops).log)
  {
    FreshIsSound(e);
    RunIsSound(e, ops);
    RunKeepsTerms(e, ops);
  }

  lemma {:induction false} TaskReturnsAreNeverShort(e: Entry)
    requires Sound(e) && e.rateWindowNs != 0
    requires !HasAnonymousReturn(e.res.rateReserved, e.log)
    ensures NeverShort(e.res.rateReserved, e.rateWindowNs, e.log)
  {
    var rr, w := e.res.rateReserved, e.rateWindowNs;
    forall k | 0 <= k < |e.log|
      ensures GivenBack(rr, e.log[k]) <= Fold(rr, w, e.log[..k], EventWindow(w, e.log[k])) + Charged(rr, e.log[k])
    {
      assert ShapedEvent(e.res, e.log[k]);
    }
  }

  /**
   Under any policy the lifetime counter is at most the metered consumption summed over all windows, and
   equals it on every run that does not mix anonymous with per-task rate returns.
   */
  lemma LifetimeWithinSumOfWindows(e: Entry, ops: seq<UsageOp>)
    requires Fresh(e) && e.rateWindowNs != 0
    ensures var rr, w, after := e.res.rateReserved, e.rateWindowNs, Run(e, ops);
            && after.res.rateConsumed <= MeteredSum(rr, w, after.log, WindowCount(w))
            && (!(HasTaskReturn(rr, after.log) && HasAnonymousReturn(rr, after.log)) ==>
                  after.res.rateConsumed == MeteredSum(rr, w, after.log, WindowCount(w)))
  {
    FreshIsSound(e);
    RunIsSound(e, ops);
    RunKeepsTerms(e, ops);
    var after := Run(e, ops);
    if !HasAnonymousReturn(after.res.rateReserved, after.log) {
      TaskReturnsAreNeverShort(after);
    }
    BalanceWithinMetered(e.res.rateReserved, e.rateWindowNs, after.log);
  }

  /**
   The exact condition for equality after any run, under any policy and as long as no fold overflows: no return
   in the log was short, that is, took away more at its place than its window then held.
   */
  lemma LifetimeIsSumOfWindowsIff(e: Entry, ops: seq<UsageOp>)
    requires Fresh(e) && e.rateWindowNs != 0
    ensures var rr, w, after := e.res.rateReserved, e.rateWindowNs, Run(e, ops);
            (e.policy.Rate? && rr < U64_MAX) || (forall window :: StaysWithin(rr, w, after.log, window, U64_MAX)) ==>
              (after.res.rateConsumed == MeteredSum(rr, w, after.log, WindowCount(w))
               <==> NeverShort(rr, w, after.log))
  {
    var rr, w, after := e.res.rateReserved, e.rateWindowNs, Run(e, ops);
    LifetimeCounterIsBalance(e, ops);
    if e.policy.Rate? && rr < U64_MAX {
      forall window: nat
        ensures StaysWithin(rr, w, after.log, window, U64_MAX)
      {
        WindowsStayWithinReservedRate(e, ops, window);
      }
    }
    if forall window :: StaysWithin(rr, w, after.log, window, U64_MAX) {
      MeteredSumIsBalanceIff(rr, w, after.log);
    }
  }

  // ---------------------------------------------------------------------------
  // Where the two bounds above stop: mixed returns.

  const SHIFTED_TASK: u64 := 1

  function RateUsage(task: u64, time: u64, units: u64): Usage {
    BLANK_USAGE.(taskId := task, eventTimeNs := time, rateUnits := units)
  }

  /** Charge a task, return its unit anonymously, charge elsewhere, then return the task's unit once more. */
  function MixedOps(units: u64): seq<UsageOp> {
    [ ConsumeOp(RateUsage(SHIFTED_TASK, U64_MAX, 1), 0, Absent),
      ReturnOp(RateUsage(0, U64_MAX, 1), 0, OK),
      ConsumeOp(RateUsage(0, 1, units), 0, Absent),
      ReturnOp(RateUsage(SHIFTED_TASK, U64_MAX, 1), 0, OK) ]
  }

  lemma TwoWindows(w: u64)
    requires w != 0
    ensures WindowOf(1, w) != WindowOf(U64_MAX, w)
  {
    DivisionFacts(1, w);
    DivisionFacts(U64_MAX, w);
  }

  lemma RunStep(e: Entry, ops: seq<UsageOp>, op: UsageOp)
    requires Indexed(e)
    ensures Run(e, ops + [op]) == Apply(Run(e, ops), op)
  {
    assert (ops + [op])[..|ops|] == ops;
  }

  /** The state after the first n operations of MixedOps, and how it relates to the one before. */
  ghost function MixedState(e: Entry, units: u64, n: nat): (after: Entry)
    requires Indexed(e) && n <= 4
    ensures Indexed(after)
  {
    Run(e, MixedOps(units)[..n])
  }

  lemma MixedStep(e: Entry, units: u64, n: nat)
    requires Indexed(e) && n < 4
    ensures MixedState(e, units, n + 1) == Apply(MixedState(e, units, n), MixedOps(units)[n])
    ensures MixedState(e, units, 0) == e
  {
    hide Apply;
    var ops := MixedOps(units);
    assert ops[..n + 1] == ops[..n] + [ops[n]];
    RunStep(e, ops[..n], ops[n]);
  }

  /** A charge that fits its window and the lifetime counter is accepted and appended. */
  lemma ChargeAppends(e: Entry, u: Usage) returns (ev: UsageEvent)
    requires Indexed(e) && e.policy.Rate? && e.rateWindowNs != 0 && e.res.state == Active
    requires u == RateUsage(u.taskId, u.eventTimeNs, u.rateUnits) && u.eventTimeNs != 0 && u.rateUnits != 0
    requires u.taskId !in e.index
    requires e.res.rateReserved != 0
    requires SatAdd(RateWindowConsumed(e, u.eventTimeNs), u.rateUnits) <= e.res.rateReserved
    requires e.res.rateConsumed + u.rateUnits <= U64_MAX
    ensures ev.consumed == u.(reservationId := e.res.reservationId) && ev.consumedSet && ev.returned.None?
    ensures Consume(e, u, 0, Absent).entry
         == Publish(e.(res := e.res.(rateConsumed := e.res.rateConsumed + u.rateUnits)), ev)
  {
    var n := u.(reservationId := e.res.reservationId);
    assert NormalizeUsage(e.res.reservationId, u, 0, 0) == Success(n);
    ev := UsageEvent(n, None, Verdict(e, n, Absent).value, true);
  }

  /** An anonymous return that fits its window and the lifetime counter is appended. */
  lemma AnonymousReturnAppends(e: Entry, u: Usage) returns (ev: UsageEvent)
    requires Indexed(e) && e.policy.Rate? && e.rateWindowNs != 0 && e.res.state == Active
    requires u == RateUsage(0, u.eventTimeNs, u.rateUnits) && u.eventTimeNs != 0 && u.rateUnits != 0
    requires u.rateUnits <= RateWindowConsumed(e, u.eventTimeNs)
    requires u.rateUnits <= e.res.rateConsumed && e.res.unusedCapacity + u.rateUnits <= U64_MAX
    ensures ev.returned == Some(u.(reservationId := e.res.reservationId))
    ensures ev.consumed == BLANK_USAGE && !ev.consumedSet
    ensures ReturnUsage(e, u, 0, OK).entry
         == Publish(e.(res := e.res.(rateConsumed := e.res.rateConsumed - u.rateUnits,
                                     unusedCapacity := e.res.unusedCapacity + u.rateUnits)), ev)
  {
    var n := u.(reservationId := e.res.reservationId);
    assert NormalizeUsage(e.res.reservationId, u, 0, 0) == Success(n);
    ev := UsageEvent(BLANK_USAGE, Some(n), BLANK_DECISION, false);
  }

  /** A task's return that fits the lifetime counter goes into the task's node, whatever its window holds. */
  lemma TaskReturnEdits(e: Entry, u: Usage)
    requires Indexed(e) && e.policy.Rate? && e.res.state == Active
    requires u == RateUsage(u.taskId, u.eventTimeNs, u.rateUnits) && u.eventTimeNs != 0 && u.rateUnits != 0
    requires u.taskId != 0 && u.taskId in e.index && Returnable(e.log, e.index[u.taskId])
    requires u.rateUnits <= RateOf(e.res, e.log[e.index[u.taskId]].consumed)
    requires u.rateUnits <= e.res.rateConsumed && e.res.unusedCapacity + u.rateUnits <= U64_MAX
    ensures ReturnUsage(e, u, 0, OK).entry
         == e.(res := e.res.(rateConsumed := e.res.rateConsumed - u.rateUnits,
                             unusedCapacity := e.res.unusedCapacity + u.rateUnits),
               log := WithReturn(e.log, e.index[u.taskId], u.(reservationId := e.res.reservationId)))
  {
    var n := u.(reservationId := e.res.reservationId);
    assert NormalizeUsage(e.res.reservationId, u, e.log[e.index[u.taskId]].consumed.eventTimeNs, 0) == Success(n);
  }

  lemma EmptyFold(rr: u64, w: u64, window: nat)
    requires w != 0
    ensures Fold(rr, w, [], window) == 0
  {
  }

  lemma FirstFold(rr: u64, w: u64, a: UsageEvent, window: nat)
    requires w != 0
    ensures Fold(rr, w, [a], window) == Floor(ChargedIn(rr, w, a, window) - GivenBackIn(rr, w, a, window))
  {
    FoldAppend(rr, w, [], a, window);
    assert [] + [a] == [a];
  }

  lemma SecondFold(rr: u64, w: u64, a: UsageEvent, b: UsageEvent, window: nat)
    requires w != 0
    ensures Fold(rr, w, [a, b], window)
         == Floor(Floor(ChargedIn(rr, w, a, window) - GivenBackIn(rr, w, a, window))
                  + ChargedIn(rr, w, b, window) - GivenBackIn(rr, w, b, window))
  {
    FirstFold(rr, w, a, window);
    FoldAppend(rr, w, [a], b, window);
    assert [a] + [b] == [a, b];
  }

  lemma ThirdFold(rr: u64, w: u64, a: UsageEvent, b: UsageEvent, c: UsageEvent, window: nat)
    requires w != 0
    ensures Fold(rr, w, [a, b, c], window)
         == Floor(Fold(rr, w, [a, b], window) + ChargedIn(rr, w, c, window) - GivenBackIn(rr, w, c, window))
  {
    FoldAppend(rr, w, [a, b], c, window);
    assert [a, b] + [c] == [a, b, c];
  }

  /** Metering a log of at most two nodes that charge little and return no more than is there. */
  lemma ShortLogMetered(rr: u64, w: u64, log: Log, window: nat)
    requires w != 0 && |log| <= 2
    requires |log| == 2 ==> Charged(rr, log[0]) + Charged(rr, log[1]) <= U64_MAX
    ensures Metered(rr, w, log, window) == Fold(rr, w, log, window)
  {
    forall k | 0 <= k < |log|
      ensures Fold(rr, w, log[..k], window) + ChargedIn(rr, w, log[k], window) <= U64_MAX
    {
      assert k == 1 ==> log[..1][..0] == [];
    }
  }

  lemma MixedFirst(e: Entry, units: u64) returns (a: UsageEvent)
    requires Fresh(e) && e.policy.Rate? && e.rateWindowNs != 0 && e.res.rateReserved >= 1
    ensures a.consumed == RateUsage(SHIFTED_TASK, U64_MAX, 1).(reservationId := e.res.reservationId)
    ensures a.consumedSet && a.returned.None?
    ensures MixedState(e, units, 1) == e.(
              res := e.res.(rateConsumed := 1), log := [a], index := map[SHIFTED_TASK := 0])
  {
    hide Run, Consume, ReturnUsage, RecordActual, Transition, Renew, Fold, Metered;
    MixedStep(e, units, 0);
    EmptyFold(e.res.rateReserved, e.rateWindowNs, WindowOf(U64_MAX, e.rateWindowNs));
    ShortLogMetered(e.res.rateReserved, e.rateWindowNs, e.log, WindowOf(U64_MAX, e.rateWindowNs));
    a := ChargeAppends(e, MixedOps(units)[0].usage);
  }

  lemma ReturnRightAfterCharge(before: Entry, a: UsageEvent, u: Usage) returns (b: UsageEvent)
    requires Indexed(before) && before.policy.Rate? && before.rateWindowNs != 0 && before.res.state == Active
    requires before.log == [a] && a.consumedSet && a.returned.None?
    requires u == RateUsage(0, U64_MAX, 1)
    requires a.consumed == RateUsage(SHIFTED_TASK, U64_MAX, 1).(reservationId := before.res.reservationId)
    requires before.res.rateConsumed == 1 && before.res.unusedCapacity == 0
    ensures b == UsageEvent(BLANK_USAGE, Some(a.consumed.(taskId := 0)), b.decision, false)
    ensures ReturnUsage(before, u, 0, OK).entry
         == before.(res := before.res.(rateConsumed := 0, unusedCapacity := 1), log := [a, b])
  {
    var w1 := WindowOf(U64_MAX, before.rateWindowNs);
    FirstFold(before.res.rateReserved, before.rateWindowNs, a, w1);
    ShortLogMetered(before.res.rateReserved, before.rateWindowNs, [a], w1);
    assert RateWindowConsumed(before, U64_MAX) == 1;
    b := AnonymousReturnAppends(before, u);
    assert [a] + [b] == [a, b];
  }

  lemma MixedSecond(e: Entry, units: u64) returns (a: UsageEvent, b: UsageEvent)
    requires Fresh(e) && e.policy.Rate? && e.rateWindowNs != 0 && e.res.rateReserved >= 1
    ensures a.consumed == RateUsage(SHIFTED_TASK, U64_MAX, 1).(reservationId := e.res.reservationId)
    ensures a.consumedSet && a.returned.None?
    ensures b == UsageEvent(BLANK_USAGE, Some(a.consumed.(taskId := 0)), b.decision, false)
    ensures MixedState(e, units, 2) == e.(
              res := e.res.(rateConsumed := 0, unusedCapacity := 1), log := [a, b], index := map[SHIFTED_TASK := 0])
  {
    hide Run, Consume, ReturnUsage, RecordActual, Transition, Renew, Fold, Metered;
    a := MixedFirst(e, units);
    MixedStep(e, units, 1);
    b := ReturnRightAfterCharge(MixedState(e, units, 1), a, MixedOps(units)[1].usage);
  }

  lemma MixedThird(e: Entry, units: u64) returns (a: UsageEvent, b: UsageEvent, c: UsageEvent)
    requires Fresh(e) && e.policy.Rate? && e.rateWindowNs != 0
    requires 1 <= units <= e.res.rateReserved
    ensures a.consumed == RateUsage(SHIFTED_TASK, U64_MAX, 1).(reservationId := e.res.reservationId)
    ensures a.consumedSet && a.returned.None?
    ensures b == UsageEvent(BLANK_USAGE, Some(a.consumed.(taskId := 0)), b.decision, false)
    ensures c.consumed == RateUsage(0, 1, units).(reservationId := e.res.reservationId)
    ensures c.consumedSet && c.returned.None?
    ensures MixedState(e, units, 3) == e.(
              res := e.res.(rateConsumed := units, unusedCapacity := 1), log := [a, b, c], index := map[SHIFTED_TASK := 0])
  {
    hide Run, Consume, ReturnUsage, RecordActual, Transition, Renew, Fold, Metered;
    a, b := MixedSecond(e, units);
    MixedStep(e, units, 2);
    var before := MixedState(e, units, 2);
    TwoWindows(e.rateWindowNs);
    SecondFold(e.res.rateReserved, e.rateWindowNs, a, b, WindowOf(1, e.rateWindowNs));
    ShortLogMetered(e.res.rateReserved, e.rateWindowNs, [a, b], WindowOf(1, e.rateWindowNs));
    assert RateWindowConsumed(before, 1) == 0;
    c := ChargeAppends(before, MixedOps(units)[2].usage);
    assert [a, b] + [c] == [a, b, c];
  }

  /**
   After MixedOps the window of the second charge holds all its units, the task's window holds none, and
   the lifetime counter is one less than the two together.
   */
  lemma MixedRun(e: Entry, units: u64) returns (a: UsageEvent, b: UsageEvent, c: UsageEvent)
    requires Fresh(e) && e.policy.Rate? && e.rateWindowNs != 0
    requires 1 <= units <= e.res.rateReserved
    ensures Run(e, MixedOps(units)) == e.(
              res := e.res.(rateConsumed := units - 1, unusedCapacity := 2),
              log := [a, b, c],
              index := map[SHIFTED_TASK := 0])
    ensures a.consumed == RateUsage(SHIFTED_TASK, U64_MAX, 1).(reservationId := e.res.reservationId)
    ensures a.consumedSet && a.returned == Some(a.consumed)
    ensures b == UsageEvent(BLANK_USAGE, Some(a.consumed.(taskId := 0)), b.decision, false)
    ensures c.consumed == RateUsage(0, 1, units).(reservationId := e.res.reservationId)
    ensures c.consumedSet && c.returned.None?
  {
    hide Run, Consume, ReturnUsage, RecordActual, Transition, Renew;
    a, b, c := MixedThird(e, units);
    MixedStep(e, units, 3);
    TaskReturnEdits(MixedState(e, units, 3), MixedOps(units)[3].usage);
    var charge := a;
    a := charge.(returned := Some(charge.consumed));
    assert WithReturn([charge, b, c], 0, charge.consumed) == [a, b, c];
    assert MixedOps(units)[..4] == MixedOps(units);
  }

  /** Mixing anonymous and per-task returns can leave more metered in one window than the lifetime counter shows. */
  lemma MixedReturnsExceedLifetime(e: Entry)
    requires Fresh(e) && e.policy.Rate? && e.rateWindowNs != 0 && e.res.rateReserved >= 1
    ensures var after := Run(e, MixedOps(1));
            && after.res.rateConsumed == 0
            && Fold(e.res.rateReserved, e.rateWindowNs, after.log, WindowOf(1, e.rateWindowNs)) == 1
  {
    hide Run, Apply, Fold, Metered, MixedOps;
    var a, b, c := MixedRun(e, 1);
    TwoWindows(e.rateWindowNs);
    SecondFold(e.res.rateReserved, e.rateWindowNs, a, b, WindowOf(1, e.rateWindowNs));
    ThirdFold(e.res.rateReserved, e.rateWindowNs, a, b, c, WindowOf(1, e.rateWindowNs));
  }

  /** One more unit in the window that already holds the largest number. */
  function OverflowOps(): seq<UsageOp> {
    MixedOps(U64_MAX) + [ConsumeOp(RateUsage(0, 1, 1), 0, Absent)]
  }

  ghost predicate FoldNeverOverflows(e: Entry)
    requires Indexed(e) && e.rateWindowNs != 0
  {
    forall ops: seq<UsageOp>, window: nat ::
      StaysWithin(e.res.rateReserved, e.rateWindowNs, Run(e, ops).log, window, U64_MAX)
  }

  lemma LargestRateOverflows(e: Entry)
    requires Fresh(e) && e.policy.Rate? && e.rateWindowNs != 0
    requires e.res.rateReserved == U64_MAX
    ensures !StaysWithin(U64_MAX, e.rateWindowNs, Run(e, OverflowOps()).log, WindowOf(1, e.rateWindowNs), U64_MAX)
  {
    var rr, w := U64_MAX, e.rateWindowNs;
    var a, b, c := MixedRun(e, U64_MAX);
    var before := Run(e, MixedOps(U64_MAX));
    var w0 := WindowOf(1, w);
    TwoWindows(w);
    SecondFold(rr, w, a, b, w0);
    ThirdFold(rr, w, a, b, c, w0);
    var ev := ChargeAppends(before, RateUsage(0, 1, 1));
    RunStep(e, MixedOps(U64_MAX), ConsumeOp(RateUsage(0, 1, 1), 0, Absent));
    var log := Run(e, OverflowOps()).log;
    assert log == [a, b, c] + [ev];
    assert log[..3] == [a, b, c];
    assert Fold(rr, w, log[..3], w0) + ChargedIn(rr, w, log[3], w0) > U64_MAX;
  }

  /**
   The exact condition for the window fold to be exact in every run of a rate reservation: the reserved
   rate is below the largest 64-bit number.
   */
  lemma FoldNeverOverflowsIff(e: Entry)
    requires Fresh(e) && e.policy.Rate? && e.rateWindowNs != 0
    ensures FoldNeverOverflows(e) <==> e.res.rateReserved < U64_MAX
  {
    if e.res.rateReserved < U64_MAX {
      forall ops: seq<UsageOp>, window: nat
        ensures StaysWithin(e.res.rateReserved, e.rateWindowNs, Run(e, ops).log, window, U64_MAX)
      {
        WindowsStayWithinReservedRate(e, ops, window);
      }
    } else {
      LargestRateOverflows(e);
    }
  }
}
