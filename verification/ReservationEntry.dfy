/**
 A reservation as the object the source keeps: counters, an ordered list of usage nodes, a table from task id
 to node, and a table of measured records (src/qhw_usage.c). A node is shared by list and table, so a return
 stored through the table changes the middle of the list. Every method is proved against its function in
 UsageModel.
 */
module ReservationEntries {
  import opened CheckedMath
  import opened Metadata
  import opened Records
  import opened Policies
  import opened UsageLog
  import opened UsageModel

  class UsageNode {
    const consumed: Usage
    const decision: Decision
    const consumedSet: bool
    var returned: Option<Usage>

    function Event(): UsageEvent
      reads this
    {
      UsageEvent(consumed, returned, decision, consumedSet)
    }

    constructor Charge(usage: Usage, decision: Decision, consumedSet: bool)
      ensures Event() == UsageEvent(usage, None, decision, consumedSet)
    {
      this.consumed, this.decision, this.consumedSet, this.returned := usage, decision, consumedSet, None;
    }

    constructor AnonymousReturn(usage: Usage)
      ensures Event() == UsageEvent(BLANK_USAGE, Some(usage), BLANK_DECISION, false)
    {
      this.consumed, this.decision, this.consumedSet := BLANK_USAGE, BLANK_DECISION, false;
      this.returned := Some(usage);
    }

    method StoreReturn(usage: Usage)
      modifies this
      ensures returned == Some(usage)
    {
      returned := Some(usage);
    }

    method ClearReturn()
      modifies this
      ensures returned == None
    {
      returned := None;
    }
  }

  class ReservationEntry {
    var reservation: Reservation
    const policy: Policy
    const rateWindowNs: u64
    var usageEventList: seq<UsageNode>
    var usageEvents: map<u64, UsageNode>
    var actualEvents: map<u64, ActualEvent>
    /** Where in the list the table's nodes stand. */
    ghost var positions: map<u64, nat>

    ghost function Repr(): set<object>
      reads this
    {
      {this} + set n: object | n in usageEventList
    }

    ghost function Events(): Log
      reads this, usageEventList
    {
      seq(|usageEventList|, i requires 0 <= i < |usageEventList| reads this, usageEventList => usageEventList[i].Event())
    }

    ghost function Model(): Entry
      reads this, usageEventList
    {
      Entry(reservation, policy, rateWindowNs, Events(), positions, actualEvents)
    }

    /** The list holds no node twice, and the table finds in it exactly the nodes with a task id. */
    ghost predicate Valid()
      reads this, usageEventList
    {
      && (forall i, j :: 0 <= i < j < |usageEventList| ==> usageEventList[i] != usageEventList[j])
      && positions.Keys == usageEvents.Keys
      && (forall t :: t in usageEvents ==>
            positions[t] < |usageEventList| && usageEventList[positions[t]] == usageEvents[t])
      && Indexed(Model())
    }

    constructor (reservation: Reservation, policy: Policy, rateWindowNs: u64)
      ensures Valid() && fresh(Repr())
      ensures Model() == Entry(reservation, policy, rateWindowNs, [], map[], map[])
    {
      this.reservation, this.policy, this.rateWindowNs := reservation, policy, rateWindowNs;
      usageEventList, usageEvents, actualEvents, positions := [], map[], map[], map[];
    }

    /** The fold over the list of nodes, with the overflow guard of the source. */
    method RateWindowConsumed(time: u64) returns (consumed: u64)
      requires Valid()
      ensures consumed == UsageModel.RateWindowConsumed(Model(), time)
    {
      hide Indexed, Fold, StaysWithin, Metered;
      if rateWindowNs == 0 {
        return reservation.rateConsumed;
      }
      var rr, w := reservation.rateReserved, rateWindowNs;
      var window := WindowOf(time, w);
      ghost var log := Events();
      MeterEnds(rr, w, log, window);
      consumed := 0;
      for i := 0 to |usageEventList|
        invariant consumed == Fold(rr, w, log[..i], window)
        invariant StaysWithin(rr, w, log[..i], window, U64_MAX)
      {
        var event := usageEventList[i];
        assert event.Event() == log[i];
        FoldStep(rr, w, log, i, window);
        if event.consumedSet {
          if WindowOf(event.consumed.eventTimeNs, w) == window {
            var sum := Add(consumed, RateUnits(rr, event.consumed));
            if sum.Failure? {
              OverflowEndsFold(rr, w, log, i, window);
              return U64_MAX;
            }
            consumed := sum.value;
          }
        }
        assert log[..i + 1] == log[..i] + [log[i]];
        StaysWithinAppend(rr, w, log[..i], log[i], window, U64_MAX);
        if event.returned.Some? {
          var eventTime := if event.consumedSet then event.consumed.eventTimeNs else event.returned.value.eventTimeNs;
          if WindowOf(eventTime, w) == window {
            consumed := SatSub(consumed, RateUnits(rr, event.returned.value));
          }
        }
      }
    }

    method LatestRateEventTime(now: u64) returns (latest: u64)
      requires Valid()
      ensures latest == if LatestTime(Events()) == 0 then now else LatestTime(Events())
    {
      ghost var log := Events();
      latest := 0;
      for i := 0 to |usageEventList|
        invariant latest == LatestTime(log[..i])
      {
        var event := usageEventList[i];
        assert event.Event() == log[i];
        assert log[..i + 1][..i] == log[..i];
        if event.consumedSet && event.consumed.eventTimeNs > latest {
          latest := event.consumed.eventTimeNs;
        }
        if event.returned.Some? && event.returned.value.eventTimeNs > latest {
          latest := event.returned.value.eventTimeNs;
        }
      }
      assert log[..|log|] == log;
      if latest == 0 {
        latest := now;
      }
    }

    static method NormalizeUsage(id: u64, usage: Usage, existingTimeNs: u64, now: u64) returns (r: Result<Usage>)
      ensures r == UsageModel.NormalizeUsage(id, usage, existingTimeNs, now)
    {
      if usage.reservationId != 0 && usage.reservationId != id {
        return Failure(Inval);
      }
      if usage.taskId != 0 {
        var unique := HasUniqueKeys(usage.metadata);
        if !unique {
          return Failure(Inval);
        }
      }
      var time := usage.eventTimeNs;
      if time == 0 {
        time := if existingTimeNs != 0 then existingTimeNs else now;
      }
      return Success(usage.(reservationId := id, eventTimeNs := time));
    }

    method UsageEqual(a: Usage, b: Usage) returns (equal: bool)
      ensures equal <==> UsageModel.UsageEqual(reservation, a, b)
    {
      if a.reservationId != b.reservationId || a.taskId != b.taskId || a.classId != b.classId
         || a.eventTimeNs != b.eventTimeNs || a.estimatedNs != b.estimatedNs || a.actualNs != b.actualNs {
        return false;
      }
      if reservation.creditsReserved == 0 && reservation.rateReserved == 0 {
        if a.baselineUnits != b.baselineUnits || a.credits != b.credits || a.rateUnits != b.rateUnits {
          return false;
        }
      } else if CreditsOf(reservation, a) != CreditsOf(reservation, b)
                || RateOf(reservation, a) != RateOf(reservation, b) {
        return false;
      }
      equal := MetadataEqual(a.metadata, b.metadata);
    }

    /** The policy's verdict, asked with a copy whose rate counter stands for the window of the event. */
    method PolicyUsageDecision(usage: Usage, plugin: Callback<Decision>) returns (r: Result<Decision>)
      requires Valid()
      ensures r == Verdict(Model(), usage, plugin)
    {
      var seen := reservation;
      if reservation.rateReserved != 0 {
        var windowConsumed := RateWindowConsumed(usage.eventTimeNs);
        seen := seen.(rateConsumed := windowConsumed);
      }
      r := UsageVerdict(policy, seen, usage, DefaultDecision(seen), plugin);
    }

    method AuthorizeUsage(usage: Usage, plugin: Callback<Decision>) returns (status: Status, decision: Option<Decision>)
      requires Valid()
      ensures (status, decision) == Authorize(Model(), usage, plugin)
    {
      if reservation.state != Active {
        return Err(Error.State), None;
      }
      var verdict := PolicyUsageDecision(usage, plugin);
      return verdict.Status(), if verdict.Success? then Some(verdict.value) else None;
    }

    /** Appends a node to the list and enters it into the table under its task id, if it has one. */
    method PublishUsageEvent(event: UsageNode)
      requires Valid() && event !in usageEventList
      requires event.consumed.taskId == 0 || event.consumed.taskId !in usageEvents
      modifies this
      ensures Valid()
      ensures usageEventList == old(usageEventList) + [event] && reservation == old(reservation)
      ensures Model() == Publish(old(Model()), event.Event())
    {
      hide Indexed;
      PublishKeepsIndex(Model(), event.Event());
      if event.consumed.taskId != 0 {
        usageEvents := usageEvents[event.consumed.taskId := event];
        positions := positions[event.consumed.taskId := |usageEventList|];
      }
      usageEventList := usageEventList + [event];
      assert Events() == old(Events()) + [event.Event()];
    }

    method AddUsageUnits(usage: Usage) returns (status: Status)
      modifies this`reservation
      ensures (status, reservation) == AddUnits(old(reservation), usage)
      ensures reservation.reservationId == old(reservation.reservationId)
    {
      var credits := Add(reservation.creditsConsumed, CreditsOf(reservation, usage));
      if credits.Failure? {
        return Err(credits.error);
      }
      reservation := reservation.(creditsConsumed := credits.value);
      var rate := Add(reservation.rateConsumed, RateOf(reservation, usage));
      if rate.Failure? {
        return Err(rate.error);
      }
      reservation := reservation.(rateConsumed := rate.value);
      return OK;
    }

    /** A reservation's terms, and so its log's meaning, do not change with its counters. */
    twostate lemma OnlyCountersChanged()
      requires old(Valid())
      requires unchanged(`usageEventList, `usageEvents, `positions, `actualEvents) && unchanged(usageEventList)
      ensures Valid()
      ensures Model() == old(Model()).(res := reservation)
    {
      assert Events() == old(Events());
    }

    method Consume(usage: Usage, now: u64, plugin: Callback<Decision>)
      returns (status: Status, decision: Option<Decision>)
      requires Valid()
      modifies this
      ensures Valid() && fresh(Repr() - old(Repr()))
      ensures reservation.reservationId == old(reservation.reservationId)
      ensures UsageReply(status, decision, Model()) == UsageModel.Consume(old(Model()), usage, now, plugin)
    {
      hide Indexed, Verdict, UsageModel.ConsumeNew, UsageModel.UsageEqual, UniqueKeys;
      if reservation.state != Active {
        return Err(Error.State), None;
      }
      var known := usage.taskId != 0 && usage.taskId in usageEvents;
      var existing := if known then usageEvents[usage.taskId].consumed.eventTimeNs else 0;
      var normalized := NormalizeUsage(reservation.reservationId, usage, existing, now);
      if normalized.Failure? {
        return Err(normalized.error), None;
      }
      if known {
        var event := usageEvents[usage.taskId];
        var equal := UsageEqual(event.consumed, normalized.value);
        if !equal {
          return Err(Error.State), None;
        }
        return OK, Some(event.decision);
      }
      status, decision := ConsumeNew(normalized.value, plugin);
    }

    method ConsumeNew(usage: Usage, plugin: Callback<Decision>) returns (status: Status, decision: Option<Decision>)
      requires Valid()
      requires usage.taskId == 0 || usage.taskId !in usageEvents
      modifies this
      ensures Valid() && fresh(Repr() - old(Repr()))
      ensures reservation.reservationId == old(reservation.reservationId)
      ensures UsageReply(status, decision, Model()) == UsageModel.ConsumeNew(old(Model()), usage, plugin)
    {
      hide Indexed, Verdict, AddUnits;
      var verdict := PolicyUsageDecision(usage, plugin);
      if verdict.Failure? {
        return Err(verdict.error), None;
      }
      if verdict.value.kind == Accepted {
        var event := new UsageNode.Charge(usage, verdict.value, true);
        status := AddUsageUnits(usage);
        OnlyCountersChanged();
        if status.Err? {
          return status, None;
        }
        PublishUsageEvent(event);
      } else {
        var event := new UsageNode.Charge(usage, verdict.value, false);
        PublishUsageEvent(event);
        label published:
        reservation := reservation.(overuseCount := Increment(reservation.overuseCount));
        OnlyCountersChanged@published();
      }
      return OK, Some(verdict.value);
    }

    method SubtractUsageUnits(usage: Usage) returns (status: Status)
      modifies this`reservation
      ensures status == if ReturnFits(old(reservation), usage) then OK else Err(Inval)
      ensures reservation == if status == OK then SubtractUnits(old(reservation), usage) else old(reservation)
    {
      var credits, rate := CreditsOf(reservation, usage), RateOf(reservation, usage);
      if credits > reservation.creditsConsumed || rate > reservation.rateConsumed {
        return Err(Inval);
      }
      var returned := Add(reservation.unusedCapacity, if credits != 0 then credits else rate);
      if returned.Failure? {
        return Err(returned.error);
      }
      reservation := reservation.(
        creditsConsumed := reservation.creditsConsumed - credits,
        rateConsumed := reservation.rateConsumed - rate,
        unusedCapacity := returned.value);
      return OK;
    }

    method ValidateReturnUnits(usage: Usage) returns (status: Status)
      ensures status == if ReturnFits(reservation, usage) then OK else Err(Inval)
    {
      var credits, rate := CreditsOf(reservation, usage), RateOf(reservation, usage);
      if credits > reservation.creditsConsumed || rate > reservation.rateConsumed {
        return Err(Inval);
      }
      var returned := Add(reservation.unusedCapacity, if credits != 0 then credits else rate);
      return returned.Status();
    }

    /** One node of the list took a return; everything that finds the node through the table sees it too. */
    twostate lemma ReturnStored(task: u64)
      requires old(Valid()) && task in usageEvents
      requires unchanged(`usageEventList, `usageEvents, `positions, `actualEvents)
      requires usageEvents[task].returned.Some?
      requires forall n :: n in usageEventList && n != usageEvents[task] ==> n.returned == old(n.returned)
      ensures Valid()
      ensures Model() == old(Model()).(
                res := reservation, log := WithReturn(old(Events()), positions[task], usageEvents[task].returned.value))
    {
      var usage := usageEvents[task].returned.value;
      forall i | 0 <= i < |usageEventList|
        ensures Events()[i] == WithReturn(old(Events()), positions[task], usage)[i]
      {
        assert usageEventList[i] in usageEventList;
        assert i != positions[task] ==> usageEventList[i] != usageEvents[task];
      }
      assert Events() == WithReturn(old(Events()), positions[task], usage);
    }

    /** A return of a charged task, kept in the charge's own node; a failing callback leaves no trace. */
    method ReturnOfTask(event: UsageNode, usage: Usage, plugin: Status) returns (status: Status)
      requires Valid() && usage.taskId in usageEvents && usageEvents[usage.taskId] == event
      requires event.returned == None
      modifies this, event
      ensures Valid() && usageEventList == old(usageEventList) && usageEvents == old(usageEvents)
      ensures reservation.reservationId == old(reservation.reservationId)
      ensures UsageReply(status, None, Model())
           == UsageModel.ReturnOfTask(old(Model()), positions[usage.taskId], usage, plugin)
    {
      hide Indexed;
      ghost var at := positions[usage.taskId];
      ghost var log := Events();
      assert event.Event() == log[at];
      if CreditsOf(reservation, usage) > CreditsOf(reservation, event.consumed)
         || RateOf(reservation, usage) > RateOf(reservation, event.consumed) {
        return Err(Inval);
      }
      status := ValidateReturnUnits(usage);
      if status.Err? {
        return;
      }
      event.StoreReturn(usage);
      status := CallbackStatus(policy, plugin);
      if status.Err? {
        event.ClearReturn();
        assert Events() == log;
        return;
      }
      status := SubtractUsageUnits(usage);
      ReturnStored(usage.taskId);
    }

    /** A return without a task id; rate units are bounded by their window and become a node of their own. */
    method ReturnAnonymous(usage: Usage, plugin: Status) returns (status: Status)
      requires Valid() && usage.taskId == 0
      modifies this
      ensures Valid() && fresh(Repr() - old(Repr()))
      ensures reservation.reservationId == old(reservation.reservationId)
      ensures UsageReply(status, None, Model()) == UsageModel.ReturnAnonymous(old(Model()), usage, plugin)
    {
      hide Indexed, UsageModel.RateWindowConsumed, Publish;
      var rateUnits := RateOf(reservation, usage);
      if rateUnits != 0 {
        var windowConsumed := RateWindowConsumed(usage.eventTimeNs);
        if rateUnits > windowConsumed {
          return Err(Inval);
        }
      }
      status := ValidateReturnUnits(usage);
      if status.Err? {
        return;
      }
      status := CallbackStatus(policy, plugin);
      if status.Err? {
        return;
      }
      status := SubtractUsageUnits(usage);
      OnlyCountersChanged();
      if rateUnits != 0 {
        var event := new UsageNode.AnonymousReturn(usage);
        PublishUsageEvent(event);
      }
    }

    method ReturnUsage(usage: Usage, now: u64, plugin: Status) returns (status: Status)
      requires Valid()
      modifies Repr()
      ensures Valid() && fresh(Repr() - old(Repr()))
      ensures reservation.reservationId == old(reservation.reservationId)
      ensures UsageReply(status, None, Model()) == UsageModel.ReturnUsage(old(Model()), usage, now, plugin)
    {
      hide Indexed, UsageModel.ReturnOfTask, UsageModel.ReturnAnonymous, UsageModel.UsageEqual, UniqueKeys;
      if reservation.state != Active {
        return Err(Error.State);
      }
      var known := usage.taskId != 0 && usage.taskId in usageEvents;
      var existing := if known then usageEvents[usage.taskId].consumed.eventTimeNs else 0;
      var normalized := NormalizeUsage(reservation.reservationId, usage, existing, now);
      if normalized.Failure? {
        return Err(normalized.error);
      }
      assert known ==> usageEvents[usage.taskId].Event() == Events()[positions[usage.taskId]];
      if known && usageEvents[usage.taskId].returned.Some? {
        var equal := UsageEqual(usageEvents[usage.taskId].returned.value, normalized.value);
        return if equal then OK else Err(Error.State);
      }
      if normalized.value.taskId != 0 && (!known || !usageEvents[usage.taskId].consumedSet) {
        return Err(Error.State);
      }
      if known {
        status := ReturnOfTask(usageEvents[usage.taskId], normalized.value, plugin);
      } else {
        status := ReturnAnonymous(normalized.value, plugin);
      }
    }

    method GetUsage(now: u64) returns (usage: UsageState)
      requires Valid()
      ensures usage == UsageModel.GetUsage(Model(), now)
    {
      var rateConsumed := reservation.rateConsumed;
      if reservation.rateReserved != 0 {
        var latest := LatestRateEventTime(now);
        rateConsumed := RateWindowConsumed(latest);
      }
      usage := UsageState(
        reservation.creditsReserved, reservation.creditsConsumed, reservation.rateReserved, rateConsumed,
        reservation.estimatedTotalNs, reservation.actualTotalNs,
        SatSub(reservation.creditsReserved, reservation.creditsConsumed),
        SatSub(reservation.rateReserved, rateConsumed));
    }

    method ActualEqual(a: ActualUsage, b: ActualUsage) returns (equal: bool)
      ensures equal <==> UsageModel.ActualEqual(a, b)
    {
      if a.reservationId != b.reservationId || a.taskId != b.taskId || a.observedDeviceNs != b.observedDeviceNs
         || a.observedCompileNs != b.observedCompileNs || a.observedTransferNs != b.observedTransferNs
         || a.observedControlOverheadNs != b.observedControlOverheadNs {
        return false;
      }
      equal := MetadataEqual(a.metadata, b.metadata);
    }

    method NormalizeActual(actual: ActualUsage) returns (r: Result<ActualUsage>)
      ensures r == UsageModel.NormalizeActual(reservation.reservationId, actual)
    {
      if actual.reservationId != 0 && actual.reservationId != reservation.reservationId {
        return Failure(Inval);
      }
      if actual.taskId != 0 {
        var unique := HasUniqueKeys(actual.metadata);
        if !unique {
          return Failure(Inval);
        }
      }
      return Success(actual.(reservationId := reservation.reservationId));
    }

    /** The measured total, added up in 64 bits: it fails exactly when the exact sum does not fit. */
    method AddActualUnits(actual: ActualUsage) returns (status: Status)
      modifies this`reservation
      ensures status == if old(reservation.actualTotalNs) + ActualNs(actual) <= U64_MAX then OK else Err(Inval)
      ensures reservation
           == if status == OK then
                old(reservation).(actualTotalNs := old(reservation.actualTotalNs) + ActualNs(actual))
              else old(reservation)
    {
      var total := Add(actual.observedDeviceNs, actual.observedCompileNs);
      if total.Failure? {
        return Err(total.error);
      }
      total := Add(total.value, actual.observedTransferNs);
      if total.Failure? {
        return Err(total.error);
      }
      total := Add(total.value, actual.observedControlOverheadNs);
      if total.Failure? {
        return Err(total.error);
      }
      total := Add(reservation.actualTotalNs, total.value);
      if total.Failure? {
        return Err(total.error);
      }
      reservation := reservation.(actualTotalNs := total.value);
      return OK;
    }

    /** A reservation none of whose objects changed stands for what it stood for. */
    twostate lemma Untouched()
      requires old(Valid())
      requires forall o :: o in old(Repr()) ==> unchanged(o)
      ensures Repr() == old(Repr()) && Valid() && Model() == old(Model())
      ensures reservation == old(reservation)
    {
      hide Indexed;
      assert this in old(Repr());
      forall n | n in usageEventList
        ensures n.returned == old(n.returned)
      {
        assert n in old(Repr());
      }
      assert Events() == old(Events());
    }

    /** Neither the log nor the table changed. */
    twostate lemma LogUntouched()
      requires old(Valid())
      requires unchanged(`usageEventList, `usageEvents, `positions) && unchanged(usageEventList)
      ensures Valid()
      ensures Model() == old(Model()).(res := reservation, actuals := actualEvents)
    {
      assert Events() == old(Events());
    }

    /** The record is entered before the counter is tried, and taken out again when that overflows. */
    method RecordActual(actual: ActualUsage, feedback: Option<Status>)
      returns (status: Status, fed: Option<ActualUsage>)
      requires Valid()
      modifies this
      ensures Valid() && usageEventList == old(usageEventList)
      ensures reservation.reservationId == old(reservation.reservationId)
      ensures RecordReply(status, Model(), fed) == UsageModel.RecordActual(old(Model()), actual, feedback)
    {
      hide Indexed, UsageModel.ActualEqual, UsageModel.NormalizeActual, ActualNs;
      if reservation.state != Active {
        return Err(Error.State), None;
      }
      var normalized := NormalizeActual(actual);
      if normalized.Failure? {
        return Err(normalized.error), None;
      }
      var record := normalized.value;
      if record.taskId != 0 && record.taskId in actualEvents {
        var known := actualEvents[record.taskId];
        var equal := ActualEqual(known.actual, record);
        if !equal {
          return Err(Error.State), None;
        }
        if !known.feedbackPending {
          return OK, None;
        }
        status, fed := FeedbackStatus(feedback), Fed(feedback, known.actual);
        if status == OK {
          actualEvents := actualEvents[record.taskId := known.(feedbackPending := false)];
        }
        LogUntouched();
        return;
      }
      ghost var before := actualEvents;
      if record.taskId != 0 {
        actualEvents := actualEvents[record.taskId := ActualEvent(record, false)];
      }
      status := AddActualUnits(record);
      if status.Err? {
        if record.taskId != 0 {
          actualEvents := actualEvents - {record.taskId};
        }
        assert actualEvents == before;
        LogUntouched();
        return status, None;
      }
      status, fed := FeedbackStatus(feedback), Fed(feedback, record);
      if record.taskId != 0 && status != OK {
        actualEvents := actualEvents[record.taskId := ActualEvent(record, true)];
      }
      LogUntouched();
    }

    method FinalizeUnusedCapacity()
      modifies this`reservation
      ensures reservation == Finalized(old(reservation))
    {
      var unused := SatSub(CapacityUnits(reservation), ConsumedUnits(reservation));
      if unused > reservation.unusedCapacity {
        reservation := reservation.(unusedCapacity := unused);
      }
      reservation := reservation.(underuseScore := reservation.unusedCapacity);
    }

    /**
     Release, cancel and expiry: the state and the two figures changed ahead of the callback are put back if it
     fails.
     */
    method Transition(target: ReservationState, release: Status) returns (status: Status)
      requires Valid()
      modifies this`reservation
      ensures Valid()
      ensures reservation.reservationId == old(reservation.reservationId)
      ensures (status, Model()) == UsageModel.Transition(old(Model()), target, release)
    {
      if reservation.state == target {
        return OK;
      }
      if reservation.state != Active {
        return Err(Error.State);
      }
      var before := reservation;
      FinalizeUnusedCapacity();
      reservation := reservation.(state := target);
      status := CallbackStatus(policy, release);
      if status.Err? {
        reservation := reservation.(
          state := before.state, unusedCapacity := before.unusedCapacity, underuseScore := before.underuseScore);
      }
      OnlyCountersChanged();
    }

    method Renew(now: u64, ttl: u64) returns (status: Status)
      requires Valid() && ttl != 0
      modifies this`reservation
      ensures Valid()
      ensures reservation.reservationId == old(reservation.reservationId)
      ensures (status, Model()) == UsageModel.Renew(old(Model()), now, ttl)
    {
      if reservation.state != Active {
        return Err(Error.State);
      }
      var expires := Add(now, ttl);
      if expires.Success? {
        reservation := reservation.(expiresAtNs := expires.value);
      }
      OnlyCountersChanged();
      return expires.Status();
    }
  }
}
