/**
 Exactly-once usage, credit conservation and measured usage, over any run of operations on a reservation.
 */
module UsageOnce {
  import opened CheckedMath
  import opened Metadata
  import opened Records
  import opened Policies
  import opened UsageLog
  import opened UsageModel
  import opened UsageInvariants
  import opened UsageTheorems
  import opened MapSum

  // ---------------------------------------------------------------------------
  // The log is history: nodes are never removed, reordered or rewritten; a missing return may be filled once.

  predicate NodeEvolves(a: UsageEvent, b: UsageEvent) {
    && a.consumed == b.consumed
    && a.consumedSet == b.consumedSet
    && a.decision == b.decision
    && (a.returned.Some? ==> b.returned == a.returned)
  }

  ghost predicate Evolves(e: Entry, f: Entry) {
    && SameAgreement(e, f)
    && |e.log| <= |f.log|
    && (forall i :: 0 <= i < |e.log| ==> NodeEvolves(e.log[i], f.log[i]))
    && (forall t :: t in e.index ==> t in f.index && f.index[t] == e.index[t])
  }

  lemma PublishEvolves(e: Entry, ev: UsageEvent)
    requires ev.consumed.taskId == 0 || ev.consumed.taskId !in e.index
    ensures Evolves(e, Publish(e, ev))
  {
  }

  lemma CountersEvolve(e: Entry, r: Reservation)
    requires SameAgreement(e, e.(res := r))
    ensures Evolves(e, e.(res := r))
  {
  }

  lemma EvolvesThrough(e: Entry, f: Entry, g: Entry)
    requires Evolves(e, f) && Evolves(f, g)
    ensures Evolves(e, g)
  {
    forall i | 0 <= i < |e.log|
      ensures NodeEvolves(e.log[i], g.log[i])
    {
      assert NodeEvolves(e.log[i], f.log[i]) && NodeEvolves(f.log[i], g.log[i]);
    }
  }

  lemma ConsumeNewEvolves(e: Entry, n: Usage, plugin: Callback<Decision>)
    requires n.taskId == 0 || n.taskId !in e.index
    ensures Evolves(e, ConsumeNew(e, n, plugin).entry)
  {
    ConsumeNewKeepsTerms(e, n, plugin);
    hide Evolves, Verdict, AddUnits, Publish;
    var d := Verdict(e, n, plugin);
    if d.Failure? {
      CountersEvolve(e, e.res);
    } else {
      var accepted := d.value.kind == Accepted;
      var r := if accepted then AddUnits(e.res, n).1 else e.res.(overuseCount := Increment(e.res.overuseCount));
      var ev := UsageEvent(n, None, d.value, accepted);
      ChargedTerms(e.res, n);
      CountersEvolve(e, r);
      PublishEvolves(e.(res := r), ev);
      EvolvesThrough(e, e.(res := r), Publish(e.(res := r), ev));
    }
  }

  lemma ChargedTerms(r: Reservation, n: Usage)
    ensures AddUnits(r, n).1 == r.(creditsConsumed := AddUnits(r, n).1.creditsConsumed,
                                   rateConsumed := AddUnits(r, n).1.rateConsumed)
  {
  }

  lemma ConsumeEvolves(e: Entry, u: Usage, now: u64, plugin: Callback<Decision>)
    requires Indexed(e)
    ensures Evolves(e, Consume(e, u, now, plugin).entry)
  {
    hide Evolves, ConsumeNew, Indexed, UniqueKeys, UsageEqual;
    CountersEvolve(e, e.res);
    var n := NormalizeUsage(e.res.reservationId, u, 0, now);
    if n.Success? && Position(e, u.taskId).None? {
      ConsumeNewEvolves(e, n.value, plugin);
    }
  }

  lemma ReturnEvolves(e: Entry, u: Usage, now: u64, plugin: Status)
    requires Indexed(e)
    ensures Evolves(e, ReturnUsage(e, u, now, plugin).entry)
  {
    ReturnKeepsTerms(e, u, now, plugin);
    hide SameAgreement, UniqueKeys, UsageEqual, RateWindowConsumed, ReturnFits;
  }

  lemma ApplyEvolves(e: Entry, op: UsageOp)
    requires Indexed(e)
    ensures Evolves(e, Apply(e, op))
  {
    ApplyKeepsTerms(e, op);
    hide SameAgreement, Consume, ReturnUsage, ReturnFits;
    match op
    case ConsumeOp(u, now, verdict) => ConsumeEvolves(e, u, now, verdict);
    case ReturnOp(u, now, status) => ReturnEvolves(e, u, now, status);
    case RecordOp(a, feedback) =>
    case TransitionOp(target, release) =>
    case RenewOp(now, ttl) =>
  }

  /** Whatever happens later, the log only grows and its nodes keep what they say. */
  lemma {:induction false} RunEvolves(e: Entry, ops: seq<UsageOp>)
    requires Indexed(e)
    ensures Evolves(e, Run(e, ops))
  {
    hide Apply, Indexed;
    if |ops| != 0 {
      RunEvolves(e, ops[..|ops| - 1]);
      ApplyEvolves(Run(e, ops[..|ops| - 1]), ops[|ops| - 1]);
    }
  }

  // ---------------------------------------------------------------------------
  // Exactly once.

  function ChargesOf(log: Log, task: u64): nat {
    if |log| == 0 then 0
    else
      ChargesOf(log[..|log| - 1], task)
      + (if log[|log| - 1].consumedSet && log[|log| - 1].consumed.taskId == task then 1 else 0)
  }

  function ReturnsOf(log: Log, task: u64): nat {
    if |log| == 0 then 0
    else
      ReturnsOf(log[..|log| - 1], task)
      + (if log[|log| - 1].returned.Some? && log[|log| - 1].returned.value.taskId == task then 1 else 0)
  }

  lemma {:induction false} CountsUpTo(e: Entry, task: u64, k: nat)
    requires Indexed(e) && Shaped(e) && task != 0 && k <= |e.log|
    ensures ChargesOf(e.log[..k], task) <= (if task in e.index && e.index[task] < k then 1 else 0)
    ensures ReturnsOf(e.log[..k], task) <= ChargesOf(e.log[..k], task)
  {
    if k != 0 {
      assert e.log[..k][..k - 1] == e.log[..k - 1];
      CountsUpTo(e, task, k - 1);
      assert ShapedEvent(e.res, e.log[k - 1]);
    }
  }

  /**
   In every reachable state a task is charged at most once, returned at most once and only if charged, and
   never returned for more than its charge.
   */
  lemma ChargedAndReturnedAtMostOnce(e: Entry, ops: seq<UsageOp>, task: u64)
    requires Fresh(e) && task != 0
    ensures var log := Run(e, ops).log;
            && ChargesOf(log, task) <= 1
            && ReturnsOf(log, task) <= ChargesOf(log, task)
            && (forall i :: 0 <= i < |log| && log[i].consumed.taskId == task && log[i].returned.Some? ==>
                  && CreditsOf(e.res, log[i].returned.value) <= CreditsOf(e.res, log[i].consumed)
                  && RateOf(e.res, log[i].returned.value) <= RateOf(e.res, log[i].consumed))
  {
    FreshIsSound(e);
    RunIsSound(e, ops);
    RunKeepsTerms(e, ops);
    var after := Run(e, ops);
    CountsUpTo(after, task, |after.log|);
    assert after.log[..|after.log|] == after.log;
    forall i | 0 <= i < |after.log| && after.log[i].consumed.taskId == task && after.log[i].returned.Some?
      ensures CreditsOf(e.res, after.log[i].returned.value) <= CreditsOf(e.res, after.log[i].consumed)
      ensures RateOf(e.res, after.log[i].returned.value) <= RateOf(e.res, after.log[i].consumed)
    {
      assert ShapedEvent(after.res, after.log[i]);
    }
  }

  /** The comparison of usages is an equivalence on usages whose metadata can be compared with themselves. */
  lemma UsageComparisonIsEquivalence(r: Reservation, a: Usage, b: Usage, c: Usage)
    ensures UsageEqual(r, a, b) <==> UsageEqual(r, b, a)
    ensures UsageEqual(r, a, b) && UsageEqual(r, b, c) ==> UsageEqual(r, a, c)
    ensures UsageEqual(r, a, a) <==>
              UniqueKeys(a.metadata) && forall i :: 0 <= i < |a.metadata| ==> SelfEqual(a.metadata[i].value)
  {
    hide SameMetadata;
    ComparisonSymmetric(a.metadata, b.metadata);
    ComparisonReflexiveIff(a.metadata);
    if UsageEqual(r, a, b) && UsageEqual(r, b, c) {
      ComparisonTransitive(a.metadata, b.metadata, c.metadata);
    }
  }

  /** A usage can be compared with itself, and its event time does not drift with the clock. */
  predicate Recognisable(u: Usage, firstClock: u64, laterClock: u64) {
    && (forall i :: 0 <= i < |u.metadata| ==> SelfEqual(u.metadata[i].value))
    && (u.eventTimeNs != 0 || firstClock != 0 || laterClock == 0)
  }

  /** The first consume of a new task leaves exactly its normalized usage and the decision in the log. */
  lemma FirstConsumeIsLogged(e: Entry, u: Usage, now: u64, plugin: Callback<Decision>)
    requires Indexed(e) && u.taskId != 0 && u.taskId !in e.index
    requires Consume(e, u, now, plugin).status == OK
    ensures NormalizeUsage(e.res.reservationId, u, 0, now).Success?
    ensures var first := Consume(e, u, now, plugin);
            && u.taskId in first.entry.index
            && first.entry.index[u.taskId] == |e.log|
            && |first.entry.log| == |e.log| + 1
            && first.decision.Some?
            && first.entry.log[|e.log|].decision == first.decision.value
            && first.entry.log[|e.log|].consumed == NormalizeUsage(e.res.reservationId, u, 0, now).value
  {
    hide Verdict, AddUnits, Indexed, UsageEqual;
  }

  /**
   An identical retry at any later time, after any other operations, changes nothing; it replays the stored
   decision if and only if the usage is recognisable, and is otherwise refused as a conflict.
   */
  lemma RetryReplaysIff(
    e: Entry, u: Usage, now: u64, plugin: Callback<Decision>, ops: seq<UsageOp>,
    laterNow: u64, laterPlugin: Callback<Decision>)
    requires Indexed(e) && u.taskId != 0 && u.taskId !in e.index
    requires Consume(e, u, now, plugin).status == OK
    requires Run(Apply(e, ConsumeOp(u, now, plugin)), ops).res.state == Active
    ensures var first := Consume(e, u, now, plugin);
            var later := Run(Apply(e, ConsumeOp(u, now, plugin)), ops);
            var retry := Consume(later, u, laterNow, laterPlugin);
            && retry.entry == later
            && (retry.status == OK <==> Recognisable(u, now, laterNow))
            && (retry.status == OK ==> retry.decision == first.decision)
            && (retry.status != OK ==> retry.status == Err(State))
  {
    var first := Consume(e, u, now, plugin);
    assert first.entry == Apply(e, ConsumeOp(u, now, plugin));
    FirstConsumeIsLogged(e, u, now, plugin);
    ConsumeEvolves(e, u, now, plugin);
    RunEvolves(first.entry, ops);
    var later := Run(first.entry, ops);
    hide Run, Apply, ReturnUsage, Verdict, ConsumeNew;
    var node := later.log[|e.log|];
    assert NodeEvolves(first.entry.log[|e.log|], node);
    var n := NormalizeUsage(e.res.reservationId, u, node.consumed.eventTimeNs, laterNow).value;
    ComparisonReflexiveIff(u.metadata);
    assert UsageEqual(later.res, node.consumed, n) <==> Recognisable(u, now, laterNow);
  }

  /** A task without units, and a piece of metadata that does not equal itself. */
  const NAN_USAGE :=
    BLANK_USAGE.(taskId := 1, eventTimeNs := 1, metadata := [KeyValue(1, Value(F64(0x7FF8_0000_0000_0000), 0))])
  const UNTIMED_USAGE := BLANK_USAGE.(taskId := 1)

  /** On every fresh reservation, under any shipped policy, a usage without units is charged. */
  lemma NoUnitsAreCharged(e: Entry, u: Usage, now: u64)
    requires Fresh(e) && u.taskId != 0 && UniqueKeys(u.metadata)
    requires u == BLANK_USAGE.(taskId := u.taskId, eventTimeNs := u.eventTimeNs, metadata := u.metadata)
    ensures Consume(e, u, now, Absent).status == OK
  {
    hide UsageEqual, RateWindowConsumed;
    if e.policy.Rate? && e.rateWindowNs != 0 {
      EmptyLogMeters(e, if u.eventTimeNs != 0 then u.eventTimeNs else now);
    }
  }

  lemma EmptyLogMeters(e: Entry, time: u64)
    requires Fresh(e) && e.rateWindowNs != 0
    ensures RateWindowConsumed(e, time) == 0
  {
  }

  /** A call succeeds, and the very same call made once more errors. */
  ghost predicate RefusedAgain(e: Entry, u: Usage, now: u64, laterNow: u64)
    requires Indexed(e)
  {
    var first := Consume(e, u, now, Absent);
    ConsumeKeepsIndex(e, u, now, Absent);
    first.status == OK && Consume(first.entry, u, laterNow, Absent).status == Err(State)
  }

  /** An identical retry at the same clock is refused when its metadata holds a NaN. */
  lemma NaNRetryIsRefused(e: Entry, now: u64)
    requires Fresh(e)
    ensures RefusedAgain(e, NAN_USAGE, now, now)
  {
    assert !SelfEqual(NAN_USAGE.metadata[0].value);
    NoUnitsAreCharged(e, NAN_USAGE, now);
    SecondTry(e, NAN_USAGE, now, now);
  }

  /** An identical retry without event time is refused when the clock first read zero and has moved on. */
  lemma DriftingRetryIsRefused(e: Entry, laterClock: u64)
    requires Fresh(e) && laterClock != 0
    ensures RefusedAgain(e, UNTIMED_USAGE, 0, laterClock)
  {
    NoUnitsAreCharged(e, UNTIMED_USAGE, 0);
    SecondTry(e, UNTIMED_USAGE, 0, laterClock);
  }

  lemma SecondTry(e: Entry, u: Usage, now: u64, laterNow: u64)
    requires Fresh(e) && u.taskId != 0 && Consume(e, u, now, Absent).status == OK
    ensures Consume(Consume(e, u, now, Absent).entry, u, laterNow, Absent).status
         == if Recognisable(u, now, laterNow) then OK else Err(State)
  {
    hide Consume;
    var op := ConsumeOp(u, now, Absent);
    assert Run(Apply(e, op), []) == Apply(e, op) == Consume(e, u, now, Absent).entry;
    ConsumeKeepsTerms(e, u, now, Absent);
    FreshStaysActive(e, u, now);
    RetryReplaysIff(e, u, now, Absent, [], laterNow, Absent);
  }

  lemma FreshStaysActive(e: Entry, u: Usage, now: u64)
    requires Fresh(e)
    ensures Consume(e, u, now, Absent).entry.res.state == Active
  {
    hide Verdict, UsageEqual, UniqueKeys;
  }

  /**
   Authorization tells what consume will do with a usage not seen before: the same error or the same decision,
   an accepted charge whose counters overflow being the one exception.
   */
  lemma AuthorizePredictsConsume(e: Entry, u: Usage, now: u64, plugin: Callback<Decision>)
    requires Indexed(e) && Position(e, u.taskId).None?
    requires NormalizeUsage(e.res.reservationId, u, 0, now).Success?
    ensures var n := NormalizeUsage(e.res.reservationId, u, 0, now).value;
            var (status, decision) := Authorize(e, n, plugin);
            var reply := Consume(e, u, now, plugin);
            (reply.status, reply.decision) == (status, decision) <==>
              !(status == OK && decision.value.kind == Accepted && AddUnits(e.res, n).0.Err?)
  {
  }

  /**
   A task already in the log is never charged again: nothing at all changes. The call succeeds, with the stored
   decision, exactly when it normalizes to a usage equal to the stored one.
   */
  lemma KnownTaskNeverCharged(e: Entry, u: Usage, now: u64, plugin: Callback<Decision>)
    requires Indexed(e) && u.taskId != 0 && u.taskId in e.index
    ensures var reply := Consume(e, u, now, plugin);
            var stored := e.log[e.index[u.taskId]];
            var n := NormalizeUsage(e.res.reservationId, u, stored.consumed.eventTimeNs, now);
            && reply.entry == e
            && (reply.status == OK <==>
                  e.res.state == Active && n.Success? && UsageEqual(e.res, stored.consumed, n.value))
            && (reply.status == OK ==> reply.decision == Some(stored.decision))
  {
  }

  /**
   After a task's charge or decline went into the log, at any later time and after any other operations, a
   consume for that task with whatever content changes nothing. It succeeds, and replays the stored decision,
   exactly when it normalizes to a usage equal to the stored one; every other one errors.
   */
  lemma LaterConsumeOfTask(
    e: Entry, u: Usage, now: u64, plugin: Callback<Decision>, ops: seq<UsageOp>,
    v: Usage, laterNow: u64, laterPlugin: Callback<Decision>)
    requires Indexed(e) && u.taskId != 0 && u.taskId !in e.index && v.taskId == u.taskId
    requires Consume(e, u, now, plugin).status == OK
    ensures NormalizeUsage(e.res.reservationId, u, 0, now).Success?
    ensures var first := Consume(e, u, now, plugin);
            var stored := NormalizeUsage(e.res.reservationId, u, 0, now).value;
            var later := Run(Apply(e, ConsumeOp(u, now, plugin)), ops);
            var n := NormalizeUsage(e.res.reservationId, v, stored.eventTimeNs, laterNow);
            var retry := Consume(later, v, laterNow, laterPlugin);
            && retry.entry == later
            && (retry.status == OK <==>
                  later.res.state == Active && n.Success? && UsageEqual(e.res, stored, n.value))
            && (retry.status == OK ==> retry.decision == first.decision)
            && (retry.status != OK ==> retry.decision == None)
  {
    var first := Consume(e, u, now, plugin);
    assert first.entry == Apply(e, ConsumeOp(u, now, plugin));
    FirstConsumeIsLogged(e, u, now, plugin);
    ConsumeEvolves(e, u, now, plugin);
    RunEvolves(first.entry, ops);
    var later := Run(first.entry, ops);
    hide Run, Apply, ReturnUsage, Verdict, ConsumeNew, SameMetadata, UniqueKeys;
    assert NodeEvolves(first.entry.log[|e.log|], later.log[|e.log|]);
  }

  lemma ReturnFillsNode(e: Entry, u: Usage, now: u64, plugin: Status)
    requires Indexed(e) && u.taskId != 0
    requires ReturnUsage(e, u, now, plugin).status == OK
    ensures u.taskId in e.index
    ensures var log := ReturnUsage(e, u, now, plugin).entry.log;
            |log| == |e.log| && log[e.index[u.taskId]].returned.Some?
  {
    hide UsageEqual, UniqueKeys, ReturnFits, RateWindowConsumed;
  }

  /** The first return of a task leaves exactly its normalized usage in the task's node. */
  lemma FirstReturnIsLogged(e: Entry, u: Usage, now: u64, plugin: Status)
    requires Indexed(e) && u.taskId != 0 && u.taskId in e.index && e.log[e.index[u.taskId]].returned.None?
    requires ReturnUsage(e, u, now, plugin).status == OK
    ensures ReturnedAs(e, u, now).Success?
    ensures var after := ReturnUsage(e, u, now, plugin).entry;
            |after.log| == |e.log| && after.log[e.index[u.taskId]].returned == Some(ReturnedAs(e, u, now).value)
  {
    hide UsageEqual, UniqueKeys, ReturnFits, RateWindowConsumed;
  }

  /** A return as it is compared and stored: a zero time takes the time of the charge, or else the clock. */
  function ReturnedAs(e: Entry, u: Usage, now: u64): Result<Usage>
    requires u.taskId in e.index && e.index[u.taskId] < |e.log|
  {
    NormalizeUsage(e.res.reservationId, u, e.log[e.index[u.taskId]].consumed.eventTimeNs, now)
  }

  /**
   Once a task's return succeeded, at any later time and after any other operations, a return for that task with
   whatever content changes nothing. It succeeds exactly when it normalizes to a usage equal to the stored
   return; every other one errors.
   */
  lemma ReturnedTaskNeverReturnedAgain(
    e: Entry, u: Usage, now: u64, plugin: Status, ops: seq<UsageOp>, again: Usage, laterNow: u64, laterPlugin: Status)
    requires Indexed(e) && u.taskId != 0 && again.taskId == u.taskId
    requires ReturnUsage(e, u, now, plugin).status == OK
    ensures u.taskId in e.index
    ensures var first := Apply(e, ReturnOp(u, now, plugin));
            var later := Run(first, ops);
            var reply := ReturnUsage(later, again, laterNow, laterPlugin);
            var at := e.index[u.taskId];
            && at < |first.log| && first.log[at].returned.Some?
            && (e.log[at].returned.None? ==> Success(first.log[at].returned.value) == ReturnedAs(e, u, now))
            && reply.entry == later
            && (reply.status == OK <==>
                  && later.res.state == Active
                  && ReturnedAs(e, again, laterNow).Success?
                  && UsageEqual(e.res, first.log[at].returned.value, ReturnedAs(e, again, laterNow).value))
  {
    hide Run, UniqueKeys, SameMetadata, UsageEqual, NormalizeUsage;
    var first := Apply(e, ReturnOp(u, now, plugin));
    assert first == ReturnUsage(e, u, now, plugin).entry;
    hide Apply;
    ReturnFillsNode(e, u, now, plugin);
    var at := e.index[u.taskId];
    if e.log[at].returned.None? {
      FirstReturnIsLogged(e, u, now, plugin);
    }
    ReturnEvolves(e, u, now, plugin);
    hide ReturnUsage;
    RunEvolves(first, ops);
    var later := Run(first, ops);
    EvolvesThrough(e, first, later);
    assert NodeEvolves(first.log[at], later.log[at]) && NodeEvolves(e.log[at], later.log[at]);
    ReturnOfReturnedTask(later, again, laterNow, laterPlugin);
    if ReturnedAs(e, again, laterNow).Success? {
      SameTermsCompareAlike(e, later, first.log[at].returned.value, ReturnedAs(e, again, laterNow).value);
    }
  }

  lemma SameTermsCompareAlike(e: Entry, f: Entry, a: Usage, b: Usage)
    requires SameAgreement(e, f)
    ensures UsageEqual(e.res, a, b) <==> UsageEqual(f.res, a, b)
  {
    hide SameMetadata;
  }

  /** A return for a task whose node already holds one. */
  lemma ReturnOfReturnedTask(e: Entry, u: Usage, now: u64, plugin: Status)
    requires Indexed(e) && u.taskId != 0 && u.taskId in e.index && e.log[e.index[u.taskId]].returned.Some?
    ensures var reply := ReturnUsage(e, u, now, plugin);
            && reply.entry == e
            && (reply.status == OK <==>
                  && e.res.state == Active
                  && ReturnedAs(e, u, now).Success?
                  && UsageEqual(e.res, e.log[e.index[u.taskId]].returned.value, ReturnedAs(e, u, now).value))
  {
    hide UsageEqual, UniqueKeys;
  }

  // ---------------------------------------------------------------------------
  // Errors.

  /** Any return that errors leaves the reservation and its log exactly as they were. */
  lemma FailedReturnChangesNothing(e: Entry, u: Usage, now: u64, plugin: Status)
    requires Indexed(e)
    requires ReturnUsage(e, u, now, plugin).status != OK
    ensures ReturnUsage(e, u, now, plugin).entry == e
  {
  }

  /** The accepted charge whose credit part fits and is not zero while its rate part does not fit. */
  predicate HalfCharged(e: Entry, u: Usage, now: u64, plugin: Callback<Decision>) {
    var n := NormalizeUsage(e.res.reservationId, u, 0, now);
    && e.res.state == Active
    && (u.taskId == 0 || u.taskId !in e.index)
    && n.Success?
    && Verdict(e, n.value, plugin).Success?
    && Verdict(e, n.value, plugin).value.kind == Accepted
    && CreditsOf(e.res, u) != 0
    && e.res.creditsConsumed + CreditsOf(e.res, u) <= U64_MAX
    && e.res.rateConsumed + RateOf(e.res, u) > U64_MAX
  }

  /**
   A consume that errors leaves the log alone always, and leaves the counters alone except in exactly one
   case: the credit counter has been written before the rate counter overflows.
   */
  lemma FailedConsumeChangesIff(e: Entry, u: Usage, now: u64, plugin: Callback<Decision>)
    requires Indexed(e)
    requires Consume(e, u, now, plugin).status != OK
    ensures Consume(e, u, now, plugin).entry.log == e.log
    ensures Consume(e, u, now, plugin).entry != e <==> HalfCharged(e, u, now, plugin)
  {
    hide Verdict, UsageEqual, Indexed;
    var n := NormalizeUsage(e.res.reservationId, u, 0, now);
    if n.Success? {
      assert CreditsOf(e.res, n.value) == CreditsOf(e.res, u) && RateOf(e.res, n.value) == RateOf(e.res, u);
    }
  }

  /** A usage in the reservation's own kind of unit only is never half charged: its errors change nothing. */
  lemma OwnUnitsFailCleanly(e: Entry, u: Usage, now: u64, plugin: Callback<Decision>)
    requires Indexed(e)
    requires (u.rateUnits == 0 && e.res.rateReserved == 0) || (u.credits == 0 && e.res.creditsReserved == 0)
    requires Consume(e, u, now, plugin).status != OK
    ensures Consume(e, u, now, plugin).entry == e
  {
    hide Consume;
    FailedConsumeChangesIff(e, u, now, plugin);
  }

  const RATE_FILLER := BLANK_USAGE.(eventTimeNs := 1, rateUnits := U64_MAX)
  const BOTH_UNITS := BLANK_USAGE.(eventTimeNs := 1, rateUnits := 1, credits := 1)

  /** On every credit reservation of some credits, two usages that carry rate units reach the half-charged error. */
  lemma HalfChargeIsReachable(e: Entry)
    requires Fresh(e) && e.policy.Credit? && e.res.creditsReserved >= 1 && e.res.rateReserved == 0
    ensures var filled := Apply(e, ConsumeOp(RATE_FILLER, 0, Absent));
            var failed := Consume(filled, BOTH_UNITS, 0, Absent);
            && failed.status == Err(Inval)
            && failed.entry.res.creditsConsumed == filled.res.creditsConsumed + 1
            && failed.entry.log == filled.log
  {
    var filled := Apply(e, ConsumeOp(RATE_FILLER, 0, Absent));
    assert filled == Consume(e, RATE_FILLER, 0, Absent).entry;
    hide Indexed;
    assert filled.res.rateConsumed == U64_MAX && filled.res.creditsConsumed == 0;
    assert AddUnits(filled.res, BOTH_UNITS.(reservationId := e.res.reservationId)).0 == Err(Inval);
  }

  // ---------------------------------------------------------------------------
  // Credit conservation.

  function AcceptedCredits(cr: u64, log: Log): nat {
    if |log| == 0 then 0
    else
      AcceptedCredits(cr, log[..|log| - 1])
      + (if log[|log| - 1].consumedSet then CreditUnits(cr, log[|log| - 1].consumed) else 0)
  }

  lemma AcceptedCreditsAppend(cr: u64, log: Log, ev: UsageEvent)
    ensures AcceptedCredits(cr, log + [ev])
         == AcceptedCredits(cr, log) + (if ev.consumedSet then CreditUnits(cr, ev.consumed) else 0)
  {
    assert (log + [ev])[..|log|] == log;
  }

  lemma {:induction false} AcceptedCreditsReturn(cr: u64, log: Log, i: nat, u: Usage, k: nat)
    requires Returnable(log, i) && k <= |log|
    ensures AcceptedCredits(cr, WithReturn(log, i, u)[..k]) == AcceptedCredits(cr, log[..k])
  {
    if k != 0 {
      assert WithReturn(log, i, u)[..k][..k - 1] == WithReturn(log, i, u)[..k - 1];
      assert log[..k][..k - 1] == log[..k - 1];
      AcceptedCreditsReturn(cr, log, i, u, k - 1);
    }
  }

  /** Operations that carry no rate units. */
  predicate CreditOnly(op: UsageOp) {
    match op
    case ConsumeOp(u, _, _) => u.rateUnits == 0
    case ReturnOp(u, _, _) => u.rateUnits == 0
    case _ => true
  }

  ghost predicate Conserved(e: Entry) {
    e.res.state == Active ==>
      e.res.creditsConsumed + e.res.unusedCapacity == AcceptedCredits(e.res.creditsReserved, e.log)
  }

  lemma ConsumeConserves(e: Entry, u: Usage, now: u64, plugin: Callback<Decision>)
    requires Indexed(e) && Conserved(e) && e.res.rateReserved == 0 && u.rateUnits == 0
    ensures Conserved(Consume(e, u, now, plugin).entry)
  {
    hide ConsumeNew, AcceptedCredits, UsageEqual, Indexed, UniqueKeys;
    if Consume(e, u, now, plugin).status != OK {
      OwnUnitsFailCleanly(e, u, now, plugin);
    } else if u.taskId == 0 || u.taskId !in e.index {
      ConsumeNewConserves(e, NormalizeUsage(e.res.reservationId, u, 0, now).value, plugin);
    }
  }

  lemma ConsumeNewConserves(e: Entry, n: Usage, plugin: Callback<Decision>)
    requires Conserved(e)
    requires ConsumeNew(e, n, plugin).status == OK
    ensures Conserved(ConsumeNew(e, n, plugin).entry)
  {
    hide Verdict, AcceptedCredits;
    var d := Verdict(e, n, plugin).value;
    AcceptedCreditsAppend(e.res.creditsReserved, e.log, UsageEvent(n, None, d, d.kind == Accepted));
  }

  lemma ReturnConserves(e: Entry, u: Usage, now: u64, plugin: Status)
    requires Indexed(e) && Conserved(e) && e.res.rateReserved == 0 && u.rateUnits == 0
    ensures Conserved(ReturnUsage(e, u, now, plugin).entry)
  {
    hide UsageEqual, RateWindowConsumed;
    var after := ReturnUsage(e, u, now, plugin).entry;
    var at := Position(e, u.taskId);
    if at.Some? && after != e {
      var i := at.value;
      var n := after.log[i].returned.value;
      AcceptedCreditsReturn(e.res.creditsReserved, e.log, i, n, |e.log|);
      assert WithReturn(e.log, i, n)[..|e.log|] == WithReturn(e.log, i, n) && e.log[..|e.log|] == e.log;
    }
  }

  lemma ApplyConserves(e: Entry, op: UsageOp)
    requires Indexed(e) && Conserved(e) && e.res.rateReserved == 0 && CreditOnly(op)
    ensures Conserved(Apply(e, op))
  {
    hide Consume, ReturnUsage, Indexed;
    match op
    case ConsumeOp(u, now, verdict) => ConsumeConserves(e, u, now, verdict);
    case ReturnOp(u, now, status) => ReturnConserves(e, u, now, status);
    case RecordOp(a, feedback) =>
    case TransitionOp(target, release) =>
    case RenewOp(now, ttl) =>
  }

  lemma {:induction false} RunConserves(e: Entry, ops: seq<UsageOp>)
    requires Fresh(e) && e.res.rateReserved == 0
    requires forall i :: 0 <= i < |ops| ==> CreditOnly(ops[i])
    ensures Conserved(Run(e, ops))
  {
    assert Indexed(e);
    hide Apply, Indexed;
    if |ops| != 0 {
      RunConserves(e, ops[..|ops| - 1]);
      RunKeepsTerms(e, ops[..|ops| - 1]);
      ApplyConserves(Run(e, ops[..|ops| - 1]), ops[|ops| - 1]);
    }
  }

  /**
   While a credit reservation is active, and usages carry no rate units: what is consumed plus what was
   returned is everything ever accepted, and consumption stays within the reserved credits.
   */
  lemma CreditsAreConserved(e: Entry, ops: seq<UsageOp>)
    requires Fresh(e) && e.policy.Credit? && e.res.rateReserved == 0
    requires forall i :: 0 <= i < |ops| ==> CreditOnly(ops[i])
    ensures var after := Run(e, ops);
            && after.res.creditsConsumed <= e.res.creditsReserved
            && (after.res.state == Active ==>
                  after.res.creditsConsumed + after.res.unusedCapacity
                  == AcceptedCredits(e.res.creditsReserved, after.log))
  {
    FreshIsSound(e);
    RunIsSound(e, ops);
    RunKeepsTerms(e, ops);
    RunConserves(e, ops);
  }

  // ---------------------------------------------------------------------------
  // Measured usage.

  ghost function RecordedNs(e: Entry): map<u64, nat> {
    map t | t in e.actuals :: ActualNs(e.actuals[t].actual)
  }

  /** Nanoseconds an operation commits without a task id; a failing feedback does not take them back. */
  function AnonymousNs(e: Entry, op: UsageOp): nat {
    if op.RecordOp? && op.actual.taskId == 0 && e.res.state == Active
       && NormalizeActual(e.res.reservationId, op.actual).Success?
       && e.res.actualTotalNs + ActualNs(op.actual) <= U64_MAX
    then ActualNs(op.actual) else 0
  }

  ghost function AnonymousTotal(e: Entry, ops: seq<UsageOp>): nat
    requires Indexed(e)
  {
    if |ops| == 0 then 0
    else AnonymousTotal(e, ops[..|ops| - 1]) + AnonymousNs(Run(e, ops[..|ops| - 1]), ops[|ops| - 1])
  }

  lemma RecordCommitsOnce(e: Entry, a: ActualUsage, feedback: Option<Status>)
    ensures var after := RecordActual(e, a, feedback).entry;
            after.res.actualTotalNs - e.res.actualTotalNs
            == Sum(RecordedNs(after)) - Sum(RecordedNs(e)) + AnonymousNs(e, RecordOp(a, feedback))
  {
    hide Sum, ActualEqual, UniqueKeys;
    var after := RecordActual(e, a, feedback).entry;
    if after.actuals != e.actuals {
      SumUpdate(RecordedNs(e), a.taskId, ActualNs(a));
      if a.taskId in e.actuals {
        assert RecordedNs(after) == RecordedNs(e);
      } else {
        assert RecordedNs(after) == RecordedNs(e)[a.taskId := ActualNs(a)];
      }
    }
  }

  lemma OtherOpsKeepActuals(e: Entry, op: UsageOp)
    requires Indexed(e) && !op.RecordOp?
    ensures Apply(e, op).actuals == e.actuals && Apply(e, op).res.actualTotalNs == e.res.actualTotalNs
  {
    hide Indexed, Verdict, UsageEqual, UniqueKeys, ReturnFits, RateWindowConsumed, CreditsOf, RateOf;
  }

  /**
   The measured total is always the sum over the distinct recorded tasks plus the anonymous records, in
   every run, however often records are repeated and feedback fails.
   */
  lemma {:induction false} MeasuredTotalIsExact(e: Entry, ops: seq<UsageOp>)
    requires Fresh(e)
    ensures Run(e, ops).res.actualTotalNs == Sum(RecordedNs(Run(e, ops))) + AnonymousTotal(e, ops)
  {
    if |ops| == 0 {
      assert RecordedNs(e) == map[];
    } else {
      var before, op := Run(e, ops[..|ops| - 1]), ops[|ops| - 1];
      MeasuredTotalIsExact(e, ops[..|ops| - 1]);
      hide Sum, RecordActual;
      if op.RecordOp? {
        RecordCommitsOnce(before, op.actual, op.feedback);
      } else {
        OtherOpsKeepActuals(before, op);
      }
    }
  }

  /** The task's measurement is recorded and its feedback has succeeded. */
  predicate Settled(e: Entry, task: u64) {
    task in e.actuals && !e.actuals[task].feedbackPending
  }

  lemma RecordSettles(e: Entry, a: ActualUsage, feedback: Option<Status>)
    requires a.taskId != 0
    requires RecordActual(e, a, feedback).status == OK
    ensures Settled(RecordActual(e, a, feedback).entry, a.taskId)
  {
  }

  lemma {:induction false} SettledStays(e: Entry, task: u64, ops: seq<UsageOp>)
    requires Indexed(e) && Settled(e, task)
    ensures Settled(Run(e, ops), task)
  {
    if |ops| != 0 {
      var before, op := Run(e, ops[..|ops| - 1]), ops[|ops| - 1];
      SettledStays(e, task, ops[..|ops| - 1]);
      if !op.RecordOp? {
        OtherOpsKeepActuals(before, op);
      }
    }
  }

  /** After a record of a task succeeded, no later record of that task calls the feedback or changes anything. */
  lemma FeedbackNotRepeated(
    e: Entry, a: ActualUsage, feedback: Option<Status>, ops: seq<UsageOp>, b: ActualUsage,
    laterFeedback: Option<Status>)
    requires Indexed(e) && a.taskId != 0 && b.taskId == a.taskId
    requires RecordActual(e, a, feedback).status == OK
    ensures var later := Run(Apply(e, RecordOp(a, feedback)), ops);
            && RecordActual(later, b, laterFeedback).fed == None
            && RecordActual(later, b, laterFeedback).entry == later
  {
    RecordSettles(e, a, feedback);
    SettledStays(Apply(e, RecordOp(a, feedback)), a.taskId, ops);
  }

  /** A retry after a failed feedback calls the feedback with the stored record and commits no time. */
  lemma FailedFeedbackIsRetried(e: Entry, a: ActualUsage, feedback: Option<Status>)
    requires e.res.state == Active && a.taskId != 0
    requires NormalizeActual(e.res.reservationId, a).Success?
    requires a.taskId in e.actuals && e.actuals[a.taskId].feedbackPending
    requires ActualEqual(e.actuals[a.taskId].actual, NormalizeActual(e.res.reservationId, a).value)
    ensures var r := RecordActual(e, a, feedback);
            && r.entry.res == e.res
            && r.fed == Fed(feedback, e.actuals[a.taskId].actual)
            && r.status == FeedbackStatus(feedback)
            && (Settled(r.entry, a.taskId) <==> r.status == OK)
  {
  }

  // ---------------------------------------------------------------------------
  // The end of a reservation.

  lemma TerminalApply(e: Entry, op: UsageOp)
    requires Indexed(e) && e.res.state != Active
    ensures Apply(e, op) == e
  {
  }

  /** Once a reservation leaves the active state, no operation ever changes its record again. */
  lemma {:induction false} TerminalNeverChanges(e: Entry, ops: seq<UsageOp>)
    requires Indexed(e) && e.res.state != Active
    ensures Run(e, ops) == e
  {
    if |ops| != 0 {
      TerminalNeverChanges(e, ops[..|ops| - 1]);
      TerminalApply(e, ops[|ops| - 1]);
    }
  }
}
