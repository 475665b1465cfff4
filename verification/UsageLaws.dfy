/**
 What each operation on one reservation does to every field of it, and when, over the fields of reservation, usage
 and record alone.
 */
module UsageLaws {
  import opened CheckedMath
  import opened Metadata
  import opened Records
  import opened PolicyCommon
  import opened Policies
  import opened UsageLog
  import opened UsageModel
  import UsageOnce
  import opened WindowLaws

  // ---------------------------------------------------------------------------
  // What a usage is.

  /** A usage may be put to a reservation: it names that one or none, and a task's metadata has no key twice. */
  predicate Fits(r: Reservation, u: Usage) {
    && (u.reservationId == 0 || u.reservationId == r.reservationId)
    && (u.taskId == 0 || forall i, j :: 0 <= i < j < |u.metadata| ==> u.metadata[i].key != u.metadata[j].key)
  }

  /** The usage as it is kept: under the reservation's id, at its own time, else the time known, else the clock. */
  function Kept(r: Reservation, u: Usage, known: u64, now: u64): Usage {
    u.(reservationId := r.reservationId,
       eventTimeNs := if u.eventTimeNs > 0 then u.eventTimeNs else if known > 0 then known else now)
  }

  lemma NormalizedIsKept(r: Reservation, u: Usage, known: u64, now: u64)
    ensures NormalizeUsage(r.reservationId, u, known, now)
         == if Fits(r, u) then Success(Kept(r, u, known, now)) else Failure(Inval)
  {
  }

  /** The two amounts of a usage: its own number of that kind, else its baseline units where that kind is held. */
  predicate Costs(r: Reservation, u: Usage, credits: nat, rate: nat) {
    && credits == (if u.credits > 0 then u.credits else if r.creditsReserved > 0 then u.baselineUnits else 0)
    && rate == (if u.rateUnits > 0 then u.rateUnits else if r.rateReserved > 0 then u.baselineUnits else 0)
  }

  // ---------------------------------------------------------------------------
  // Verdicts.

  /** The amount a shipped policy looks at, and what it holds against it. */
  predicate Weighed(policy: Policy, r: Reservation, u: Usage, asked: nat, reserved: nat, used: nat) {
    match policy
    case Credit(_) =>
      && asked == (if u.credits > 0 then u.credits else u.baselineUnits)
      && reserved == r.creditsReserved && used == r.creditsConsumed
    case Rate(_) =>
      && asked == (if u.rateUnits > 0 then u.rateUnits else u.baselineUnits)
      && reserved == r.rateReserved && used == r.rateConsumed
    case Custom(_) => false
  }

  /** A shipped policy accepts a usage exactly when it fits; all else in the decision follows from that. */
  lemma ShippedVerdict(
    policy: Policy, seen: Reservation, u: Usage, plugin: Callback<Decision>, asked: nat, reserved: nat, used: nat)
    requires Weighed(policy, seen, u, asked, reserved, used)
    ensures var v := VerdictOn(policy, seen, u, plugin);
            && v.Success?
            && var d := v.value;
               && (d.kind == Accepted <==> used + asked <= reserved || reserved == U64_MAX)
               && (d.kind == Accepted ==> d.reason == AcceptedReason && d.action == Allow)
               && (d.kind != Accepted ==> d.kind == Rejected && d.reason == OverLimit && d.action == Reject)
               && d.reservationId == seen.reservationId && d.deviceId == seen.deviceId && d.scopeId == seen.scopeId
               && d.creditsRequired == (if policy.Credit? then asked else 0)
               && d.rateRequired == (if policy.Rate? then asked else 0)
               && (if used <= reserved then used + d.capacityAvailable == reserved else d.capacityAvailable == 0)
  {
  }

  predicate Filled(kept: u64, given: u64, own: u64) {
    kept == if given > 0 then given else own
  }

  /** What is reserved and what is consumed in the kind of unit a reservation counts in, credits before rate. */
  predicate Counted(r: Reservation, reserved: nat, used: nat) {
    if r.creditsReserved > 0 then reserved == r.creditsReserved && used == r.creditsConsumed
    else reserved == r.rateReserved && used == if r.rateReserved > 0 then r.rateConsumed else 0
  }

  /** A plugin's decision stands with missing ids filled in; without a callback every usage is accepted. */
  lemma PluginVerdict(
    capacity: bool, seen: Reservation, u: Usage, plugin: Callback<Decision>, reserved: nat, used: nat)
    requires Counted(seen, reserved, used)
    ensures var v := VerdictOn(Custom(capacity), seen, u, plugin);
            && (plugin.Fails? ==> v == Failure(plugin.error))
            && (plugin.Answers? ==>
                  && v.Success?
                  && var d, given := v.value, plugin.value;
                     && d == given.(reservationId := d.reservationId, deviceId := d.deviceId, scopeId := d.scopeId)
                     && Filled(d.reservationId, given.reservationId, seen.reservationId)
                     && Filled(d.deviceId, given.deviceId, seen.deviceId)
                     && Filled(d.scopeId, given.scopeId, seen.scopeId))
            && (plugin.Absent? ==>
                  && v.Success?
                  && var d := v.value;
                     && d.kind == Accepted && d.reason == AcceptedReason && d.action == Allow
                     && d.reservationId == seen.reservationId && d.deviceId == seen.deviceId
                     && d.scopeId == seen.scopeId
                     && (if used <= reserved then used + d.capacityAvailable == reserved else d.capacityAvailable == 0))
  {
  }

  /**
   The rate consumed at a time: without windows the counter; otherwise what the time's interval holds, or the
   largest number once its running total has left 64 bits.
   */
  lemma MeteredIsHeld(e: Entry, time: u64, k: nat)
    requires e.rateWindowNs > 0 ==> Within(time, k, e.rateWindowNs)
    ensures RateWindowConsumed(e, time)
         == if e.rateWindowNs == 0 then e.res.rateConsumed
            else if forall n :: 0 <= n < |e.log| ==>
                 HeldIn(e.res.rateReserved, e.log[..n], k, e.rateWindowNs)
                 + ChargeIn(e.res.rateReserved, e.log[n], k, e.rateWindowNs) <= U64_MAX
            then HeldIn(e.res.rateReserved, e.log, k, e.rateWindowNs) else U64_MAX
  {
    var rr, w := e.res.rateReserved, e.rateWindowNs;
    if w > 0 {
      WindowIsInterval(time, w, k);
      FoldIsHeld(rr, w, e.log, k);
    }
    hide WindowOf, Within, Fold, HeldIn, ChargeIn, ChargedIn;
    forall n | 0 <= n < |e.log| && w > 0
      ensures Fold(rr, w, e.log[..n], k) + ChargedIn(rr, w, e.log[n], k)
           == HeldIn(rr, e.log[..n], k, w) + ChargeIn(rr, e.log[n], k, w)
    {
      FoldIsHeld(rr, w, e.log[..n], k);
      NodeCountsBetween(rr, w, e.log[n], k);
    }
  }

  /** A verdict sees the reservation as it is, but for that rate where rate is reserved. */
  lemma SeenByVerdict(e: Entry, time: u64)
    ensures PolicyView(e.res, RateWindowConsumed(e, time))
         == if e.res.rateReserved == 0 then e.res else e.res.(rateConsumed := RateWindowConsumed(e, time))
  {
  }

  // ---------------------------------------------------------------------------
  // Consume.

  /** A node at the end of the log, found by its task if it has one. */
  predicate Logged(e: Entry, after: Entry, ev: UsageEvent) {
    && after.log == e.log + [ev]
    && after.index == (if ev.consumed.taskId > 0 then e.index[ev.consumed.taskId := |e.log|] else e.index)
    && after == e.(res := after.res, log := after.log, index := after.index)
  }

  predicate NewTask(e: Entry, u: Usage) {
    u.taskId == 0 || u.taskId !in e.index
  }

  /** The verdict on a usage of a new task. */
  function VerdictOf(e: Entry, u: Usage, now: u64, plugin: Callback<Decision>): Result<Decision> {
    var kept := Kept(e.res, u, 0, now);
    VerdictOn(e.policy, PolicyView(e.res, RateWindowConsumed(e, kept.eventTimeNs)), kept, plugin)
  }

  /** When a consume of a new task answers OK, and what any other answer is. */
  lemma NewConsumeStatus(e: Entry, u: Usage, now: u64, plugin: Callback<Decision>, credits: nat, rate: nat)
    requires Indexed(e) && NewTask(e, u) && Costs(e.res, u, credits, rate)
    ensures var reply, v := Consume(e, u, now, plugin), VerdictOf(e, u, now, plugin);
            && (e.res.state != Active ==> reply.status == Err(State))
            && (e.res.state == Active && !Fits(e.res, u) ==> reply.status == Err(Inval))
            && (e.res.state == Active && Fits(e.res, u) ==>
                  && (v.Failure? ==> reply.status == Err(v.error))
                  && (v.Success? ==>
                        reply.status
                        == if v.value.kind == Accepted
                              && (e.res.creditsConsumed + credits > U64_MAX || e.res.rateConsumed + rate > U64_MAX)
                           then Err(Inval) else OK))
            && reply.decision == (if reply.status == OK then Some(v.value) else None)
  {
    NormalizedIsKept(e.res, u, 0, now);
    hide NormalizeUsage, VerdictOn;
  }

  /**
   An accepted consume of a new task raises each counter by the usage's own number of that kind, or else by its
   baseline units where the reservation holds that kind, and logs the usage; nothing else changes. Under a shipped
   policy its counter rises by what the decision says is required.
   */
  lemma AcceptedConsumeCharges(e: Entry, u: Usage, now: u64, plugin: Callback<Decision>, credits: nat, rate: nat)
    requires Indexed(e) && NewTask(e, u) && Costs(e.res, u, credits, rate)
    requires Consume(e, u, now, plugin).status == OK
    ensures var reply := Consume(e, u, now, plugin);
            && reply.decision.Some?
            && (reply.decision.value.kind == Accepted ==>
                  && e.res.creditsConsumed + credits <= U64_MAX && e.res.rateConsumed + rate <= U64_MAX
                  && reply.entry.res == e.res.(creditsConsumed := e.res.creditsConsumed + credits,
                                               rateConsumed := e.res.rateConsumed + rate)
                  && Logged(e, reply.entry, UsageEvent(Kept(e.res, u, 0, now), None, reply.decision.value, true))
                  && (e.policy.Credit? ==> credits == reply.decision.value.creditsRequired)
                  && (e.policy.Rate? ==> rate == reply.decision.value.rateRequired))
  {
    ConsumedAsKept(e, u, now, plugin);
    var kept := Kept(e.res, u, 0, now);
    if Verdict(e, kept, plugin).Success? && Verdict(e, kept, plugin).value.kind == Accepted {
      AcceptedIsRequired(e, kept, plugin, credits, rate);
    }
    hide Consume, Verdict;
  }

  /** A consume of a new task that answers OK is one of the usage as it is kept. */
  lemma ConsumedAsKept(e: Entry, u: Usage, now: u64, plugin: Callback<Decision>)
    requires Indexed(e) && NewTask(e, u) && Consume(e, u, now, plugin).status == OK
    ensures Consume(e, u, now, plugin) == ConsumeNew(e, Kept(e.res, u, 0, now), plugin)
  {
    NormalizedIsKept(e.res, u, 0, now);
    hide NormalizeUsage, ConsumeNew;
  }

  lemma AcceptedIsRequired(e: Entry, n: Usage, plugin: Callback<Decision>, credits: nat, rate: nat)
    requires Costs(e.res, n, credits, rate)
    requires Verdict(e, n, plugin).Success? && Verdict(e, n, plugin).value.kind == Accepted
    ensures e.policy.Credit? ==> credits == Verdict(e, n, plugin).value.creditsRequired
    ensures e.policy.Rate? ==> rate == Verdict(e, n, plugin).value.rateRequired
  {
    hide RateWindowConsumed;
  }

  /** A declined one counts as overuse, which starts again from zero at the end of 64 bits, and logs the decision. */
  lemma DeclinedConsumeIsCounted(e: Entry, u: Usage, now: u64, plugin: Callback<Decision>)
    requires Indexed(e) && NewTask(e, u)
    requires Consume(e, u, now, plugin).status == OK
    ensures var reply := Consume(e, u, now, plugin);
            && reply.decision.Some?
            && (reply.decision.value.kind != Accepted ==>
                  && reply.entry.res == e.res.(
                       overuseCount := if e.res.overuseCount < U64_MAX then e.res.overuseCount + 1 else 0)
                  && Logged(e, reply.entry, UsageEvent(Kept(e.res, u, 0, now), None, reply.decision.value, false)))
  {
    ConsumedAsKept(e, u, now, plugin);
    hide Consume, Verdict;
  }

  /** One that errors leaves the log alone, and the counters but for credits written before the rate did not fit. */
  lemma RefusedConsumeKeeps(e: Entry, u: Usage, now: u64, plugin: Callback<Decision>, credits: nat, rate: nat)
    requires Indexed(e) && NewTask(e, u) && Costs(e.res, u, credits, rate)
    requires Consume(e, u, now, plugin).status != OK
    ensures var reply, v := Consume(e, u, now, plugin), VerdictOf(e, u, now, plugin);
            if e.res.state == Active && Fits(e.res, u) && v.Success? && v.value.kind == Accepted
               && e.res.creditsConsumed + credits <= U64_MAX
            then reply.entry == e.(res := e.res.(creditsConsumed := e.res.creditsConsumed + credits))
            else reply.entry == e
  {
    NormalizedIsKept(e.res, u, 0, now);
    hide NormalizeUsage, VerdictOn;
  }

  /** Two usages are the same to a reservation. */
  ghost predicate SameUsage(r: Reservation, a: Usage, b: Usage) {
    && a.reservationId == b.reservationId && a.taskId == b.taskId && a.classId == b.classId
    && a.eventTimeNs == b.eventTimeNs && a.estimatedNs == b.estimatedNs && a.actualNs == b.actualNs
    && (if r.creditsReserved > 0 || r.rateReserved > 0 then
          exists credits, rate: nat :: Costs(r, a, credits, rate) && Costs(r, b, credits, rate)
        else
          a.baselineUnits == b.baselineUnits && a.credits == b.credits && a.rateUnits == b.rateUnits)
    && UniqueKeys(a.metadata) && UniqueKeys(b.metadata) && MapsAgree(AsMap(a.metadata), AsMap(b.metadata))
  }

  lemma SameUsageIff(r: Reservation, a: Usage, b: Usage)
    ensures UsageEqual(r, a, b) <==> SameUsage(r, a, b)
  {
    if UniqueKeys(a.metadata) && UniqueKeys(b.metadata) {
      ComparisonDecidesMapEquality(a.metadata, b.metadata);
    }
    hide MapsAgree, AsMap, Contains, UniqueKeys;
    assert Costs(r, a, CreditsOf(r, a), RateOf(r, a)) && Costs(r, b, CreditsOf(r, b), RateOf(r, b));
  }

  /** A consume for a task in the log repeats its decision exactly when it is the same usage; it changes nothing. */
  lemma RepeatedConsume(e: Entry, u: Usage, now: u64, plugin: Callback<Decision>)
    requires Indexed(e) && !NewTask(e, u)
    ensures var reply, stored := Consume(e, u, now, plugin), e.log[e.index[u.taskId]];
            && reply.entry == e
            && (reply.status == OK <==>
                  && e.res.state == Active && Fits(e.res, u)
                  && SameUsage(e.res, stored.consumed, Kept(e.res, u, stored.consumed.eventTimeNs, now)))
            && (reply.status != OK ==>
                  reply.status == Err(if e.res.state == Active && !Fits(e.res, u) then Inval else State))
            && reply.decision == (if reply.status == OK then Some(stored.decision) else None)
  {
    var stored := e.log[e.index[u.taskId]].consumed;
    NormalizedIsKept(e.res, u, stored.eventTimeNs, now);
    SameUsageIff(e.res, stored, Kept(e.res, u, stored.eventTimeNs, now));
    hide NormalizeUsage, UsageEqual, SameUsage, Fits;
  }

  // ---------------------------------------------------------------------------
  // Return.

  /** The counters of a reservation after giving back these amounts; what comes back counts as unused. */
  predicate GaveBack(r: Reservation, after: Reservation, credits: nat, rate: nat) {
    && credits <= r.creditsConsumed && rate <= r.rateConsumed
    && r.unusedCapacity + (if credits > 0 then credits else rate) <= U64_MAX
    && after == r.(
         creditsConsumed := r.creditsConsumed - credits,
         rateConsumed := r.rateConsumed - rate,
         unusedCapacity := r.unusedCapacity + (if credits > 0 then credits else rate))
  }

  predicate CanGiveBack(r: Reservation, credits: nat, rate: nat) {
    && credits <= r.creditsConsumed && rate <= r.rateConsumed
    && r.unusedCapacity + (if credits > 0 then credits else rate) <= U64_MAX
  }

  /** The answer of a plugin's own callback; the shipped policies have none. */
  function PluginSays(policy: Policy, answer: Status): Status {
    if policy == Custom(true) || policy == Custom(false) then answer else OK
  }

  /** A task's first return: at most its charge in each kind, kept in the charge's own node. */
  lemma FirstReturnOfTask(
    e: Entry, u: Usage, now: u64, plugin: Status, credits: nat, rate: nat, charged: nat, chargedRate: nat)
    requires Indexed(e) && e.res.state == Active && Fits(e.res, u) && !NewTask(e, u)
    requires e.log[e.index[u.taskId]].returned == None && e.log[e.index[u.taskId]].consumedSet
    requires Costs(e.res, u, credits, rate)
    requires Costs(e.res, e.log[e.index[u.taskId]].consumed, charged, chargedRate)
    ensures var reply, i := ReturnUsage(e, u, now, plugin), e.index[u.taskId];
            var allowed := credits <= charged && rate <= chargedRate && CanGiveBack(e.res, credits, rate);
            && reply.status == (if !allowed then Err(Inval) else PluginSays(e.policy, plugin))
            && (reply.status != OK ==> reply.entry == e)
            && (reply.status == OK ==>
                  && GaveBack(e.res, reply.entry.res, credits, rate)
                  && reply.entry == e.(
                       res := reply.entry.res,
                       log := e.log[i := e.log[i].(
                         returned := Some(Kept(e.res, u, e.log[i].consumed.eventTimeNs, now)))]))
  {
    NormalizedIsKept(e.res, u, e.log[e.index[u.taskId]].consumed.eventTimeNs, now);
    hide NormalizeUsage;
  }

  /** A task that was not charged has nothing to return. */
  lemma ReturnWithoutCharge(e: Entry, u: Usage, now: u64, plugin: Status)
    requires Indexed(e) && e.res.state == Active && Fits(e.res, u) && u.taskId > 0
    requires u.taskId in e.index ==>
      e.log[e.index[u.taskId]].returned == None && !e.log[e.index[u.taskId]].consumedSet
    ensures ReturnUsage(e, u, now, plugin).status == Err(State) && ReturnUsage(e, u, now, plugin).entry == e
  {
    NormalizedIsKept(
      e.res, u, if u.taskId in e.index then e.log[e.index[u.taskId]].consumed.eventTimeNs else 0, now);
    hide NormalizeUsage;
  }

  /** A return of a task that has one already is answered by whether it is the same; it changes nothing. */
  lemma RepeatedReturn(e: Entry, u: Usage, now: u64, plugin: Status)
    requires Indexed(e) && e.res.state == Active && Fits(e.res, u) && !NewTask(e, u)
    requires e.log[e.index[u.taskId]].returned.Some?
    ensures var reply, stored := ReturnUsage(e, u, now, plugin), e.log[e.index[u.taskId]];
            var kept := Kept(e.res, u, stored.consumed.eventTimeNs, now);
            && reply.entry == e
            && reply.status == (if SameUsage(e.res, stored.returned.value, kept) then OK else Err(State))
  {
    var stored := e.log[e.index[u.taskId]];
    NormalizedIsKept(e.res, u, stored.consumed.eventTimeNs, now);
    SameUsageIff(e.res, stored.returned.value, Kept(e.res, u, stored.consumed.eventTimeNs, now));
    hide NormalizeUsage, UsageEqual, SameUsage, Fits;
  }

  /** A return without a task: rate at most what its interval holds, and then a node of its own; credits without. */
  lemma AnonymousReturn(e: Entry, u: Usage, now: u64, plugin: Status, credits: nat, rate: nat)
    requires Indexed(e) && e.res.state == Active && Fits(e.res, u) && u.taskId == 0
    requires Costs(e.res, u, credits, rate)
    ensures var reply, kept := ReturnUsage(e, u, now, plugin), Kept(e.res, u, 0, now);
            var allowed := CanGiveBack(e.res, credits, rate)
                           && (rate == 0 || rate <= RateWindowConsumed(e, kept.eventTimeNs));
            && reply.status == (if !allowed then Err(Inval) else PluginSays(e.policy, plugin))
            && (reply.status != OK ==> reply.entry == e)
            && (reply.status == OK ==>
                  && GaveBack(e.res, reply.entry.res, credits, rate)
                  && (if rate == 0 then reply.entry == e.(res := reply.entry.res)
                      else Logged(e, reply.entry, UsageEvent(BLANK_USAGE, Some(kept), BLANK_DECISION, false))))
  {
    var kept := Kept(e.res, u, 0, now);
    assert ReturnUsage(e, u, now, plugin) == UsageModel.ReturnAnonymous(e, kept, plugin) by {
      NormalizedIsKept(e.res, u, 0, now);
      hide NormalizeUsage, UsageEqual, Fits, UsageModel.ReturnAnonymous, ReturnOfTask;
    }
    hide ReturnUsage, RateWindowConsumed, Fits;
  }

  /** Nothing is taken from an ended reservation, nor a usage that does not fit. */
  lemma ReturnRefused(e: Entry, u: Usage, now: u64, plugin: Status)
    requires Indexed(e) && (e.res.state != Active || !Fits(e.res, u))
    ensures var reply := ReturnUsage(e, u, now, plugin);
            reply.status == Err(if e.res.state != Active then State else Inval) && reply.entry == e
  {
    NormalizedIsKept(
      e.res, u, if u.taskId in e.index then e.log[e.index[u.taskId]].consumed.eventTimeNs else 0, now);
    hide NormalizeUsage;
  }

  // ---------------------------------------------------------------------------
  // Measured usage.

  predicate RecordFits(r: Reservation, a: ActualUsage) {
    && (a.reservationId == 0 || a.reservationId == r.reservationId)
    && (a.taskId == 0 || forall i, j :: 0 <= i < j < |a.metadata| ==> a.metadata[i].key != a.metadata[j].key)
  }

  predicate SameRecord(a: ActualUsage, b: ActualUsage) {
    && a.reservationId == b.reservationId && a.taskId == b.taskId
    && a.observedDeviceNs == b.observedDeviceNs && a.observedCompileNs == b.observedCompileNs
    && a.observedTransferNs == b.observedTransferNs
    && a.observedControlOverheadNs == b.observedControlOverheadNs
    && UniqueKeys(a.metadata) && UniqueKeys(b.metadata) && MapsAgree(AsMap(a.metadata), AsMap(b.metadata))
  }

  lemma SameRecordIff(a: ActualUsage, b: ActualUsage)
    ensures ActualEqual(a, b) <==> SameRecord(a, b)
  {
    if UniqueKeys(a.metadata) && UniqueKeys(b.metadata) {
      ComparisonDecidesMapEquality(a.metadata, b.metadata);
    }
    hide MapsAgree, AsMap, Contains, UniqueKeys;
  }

  /** All four observed times of a new record are committed, before feedback is asked and whatever it answers. */
  lemma NewRecordCommits(e: Entry, a: ActualUsage, feedback: Option<Status>)
    requires e.res.state == Active && RecordFits(e.res, a) && (a.taskId == 0 || a.taskId !in e.actuals)
    ensures var reply := RecordActual(e, a, feedback);
            var kept := a.(reservationId := e.res.reservationId);
            var total := e.res.actualTotalNs + a.observedDeviceNs + a.observedCompileNs + a.observedTransferNs
                         + a.observedControlOverheadNs;
            if total > U64_MAX then reply == RecordReply(Err(Inval), e, None)
            else
              && reply.status == (match feedback case None => OK case Some(answer) => answer)
              && reply.fed == (if feedback == None then None else Some(kept))
              && reply.entry == e.(
                   res := e.res.(actualTotalNs := total),
                   actuals := if a.taskId == 0 then e.actuals
                              else e.actuals[a.taskId := ActualEvent(kept, reply.status != OK)])
  {
  }

  /** A record of a known task commits nothing; the same one repeats feedback that has not succeeded yet. */
  lemma RepeatedRecord(e: Entry, a: ActualUsage, feedback: Option<Status>)
    requires e.res.state == Active && RecordFits(e.res, a) && a.taskId > 0 && a.taskId in e.actuals
    ensures var reply, known := RecordActual(e, a, feedback), e.actuals[a.taskId];
            if !SameRecord(known.actual, a.(reservationId := e.res.reservationId)) then
              reply == RecordReply(Err(State), e, None)
            else if !known.feedbackPending then reply == RecordReply(OK, e, None)
            else
              && reply.status == (match feedback case None => OK case Some(answer) => answer)
              && reply.fed == (if feedback == None then None else Some(known.actual))
              && reply.entry == (if reply.status != OK then e
                                 else e.(actuals := e.actuals[a.taskId := ActualEvent(known.actual, false)]))
  {
    SameRecordIff(e.actuals[a.taskId].actual, a.(reservationId := e.res.reservationId));
    hide ActualEqual, SameRecord;
  }

  lemma RecordRefused(e: Entry, a: ActualUsage, feedback: Option<Status>)
    requires e.res.state != Active || !RecordFits(e.res, a)
    ensures RecordActual(e, a, feedback)
         == RecordReply(Err(if e.res.state != Active then State else Inval), e, None)
  {
  }

  // ---------------------------------------------------------------------------
  // End, renewal and snapshot.

  /** The reservation that ends: what it still held, or what had come back if that is more, becomes its unused
      capacity and its underuse score; the counters stay. */
  predicate Ended(r: Reservation, after: Reservation, target: ReservationState, reserved: nat, used: nat) {
    && after == r.(state := target, unusedCapacity := after.unusedCapacity, underuseScore := after.unusedCapacity)
    && after.unusedCapacity >= r.unusedCapacity
    && after.unusedCapacity + used >= reserved
    && (after.unusedCapacity == r.unusedCapacity || after.unusedCapacity + used == reserved)
  }

  /** Ending: at once in the state asked for, never from another ended state, and only if the plugin lets go. */
  lemma EndOfReservation(e: Entry, target: ReservationState, plugin: Status, reserved: nat, used: nat)
    requires Counted(e.res, reserved, used)
    ensures var (status, after) := Transition(e, target, plugin);
            && status == (if e.res.state == target then OK
                          else if e.res.state != Active then Err(State)
                          else PluginSays(e.policy, plugin))
            && (if status == OK && e.res.state != target then
                  Ended(e.res, after.res, target, reserved, used) && after == e.(res := after.res)
                else after == e)
  {
  }

  /** Renewal counts the time to live from the given time. */
  lemma RenewalExact(e: Entry, now: u64, ttl: u64)
    ensures Renew(e, now, ttl)
         == if ttl == 0 then (Err(Inval), e)
            else if e.res.state != Active then (Err(State), e)
            else if now + ttl > U64_MAX then (Err(Inval), e)
            else (OK, e.(res := e.res.(expiresAtNs := now + ttl)))
  {
  }

  /** A time is the latest of the log: of every charge and every return, whichever window it counts in. */
  ghost predicate Latest(log: Log, time: nat) {
    && (forall ev :: ev in log && ev.consumedSet ==> ev.consumed.eventTimeNs <= time)
    && (forall ev :: ev in log && ev.returned.Some? ==> ev.returned.value.eventTimeNs <= time)
    && (time == 0
        || (exists ev :: ev in log && ev.consumedSet && ev.consumed.eventTimeNs == time)
        || (exists ev :: ev in log && ev.returned.Some? && ev.returned.value.eventTimeNs == time))
  }

  lemma {:induction false} LatestIsLatest(log: Log)
    ensures Latest(log, LatestTime(log))
  {
    if |log| != 0 {
      var front, last := log[..|log| - 1], log[|log| - 1];
      LatestIsLatest(front);
      assert log == front + [last];
    }
  }

  /** The snapshot shows the counters, and for rate what the window of the latest event, or of the clock, holds. */
  lemma SnapshotExact(e: Entry, now: u64, latest: u64)
    requires Latest(e.log, latest)
    ensures var shown, r := GetUsage(e, now), e.res;
            && shown.creditsReserved == r.creditsReserved && shown.creditsConsumed == r.creditsConsumed
            && shown.rateReserved == r.rateReserved
            && shown.rateConsumed
               == (if r.rateReserved == 0 then r.rateConsumed
                   else RateWindowConsumed(e, if latest > 0 then latest else now))
            && shown.estimatedTotalNs == r.estimatedTotalNs && shown.actualTotalNs == r.actualTotalNs
            && (if r.creditsConsumed <= r.creditsReserved
                then shown.remainingCredits + r.creditsConsumed == r.creditsReserved else shown.remainingCredits == 0)
            && (if shown.rateConsumed <= r.rateReserved
                then shown.remainingRate + shown.rateConsumed == r.rateReserved else shown.remainingRate == 0)
  {
    LatestIsLatest(e.log);
    LatestIsUnique(e.log, latest, LatestTime(e.log));
    hide RateWindowConsumed, LatestTime, Latest;
  }

  lemma LatestIsUnique(log: Log, a: nat, b: nat)
    requires Latest(log, a) && Latest(log, b)
    ensures a == b
  {
  }
}
