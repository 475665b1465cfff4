/**
 One reservation and the operations on it, as functions from one state to the next
 (src/qhw_usage.c, and the transitions of src/qhw_reservation.c that touch a single entry).
 The clock and every plugin answer are arguments.
 */
module UsageModel {
  import opened CheckedMath
  import opened Metadata
  import opened Records
  import opened Policies
  import opened UsageLog

  datatype ActualEvent = ActualEvent(actual: ActualUsage, feedbackPending: bool)

  /** A reservation with its usage log, the index from task id to log position, and the measured records. */
  datatype Entry = Entry(
    res: Reservation,
    policy: Policy,
    rateWindowNs: u64,
    log: Log,
    index: map<u64, nat>,
    actuals: map<u64, ActualEvent>)

  /** The index and the log agree: each nonzero task id has exactly one charging or declined node. */
  ghost predicate Indexed(e: Entry) {
    && (forall t :: t in e.index ==> t != 0 && e.index[t] < |e.log| && e.log[e.index[t]].consumed.taskId == t)
    && (forall i :: 0 <= i < |e.log| && e.log[i].consumed.taskId != 0 ==>
          e.log[i].consumed.taskId in e.index && e.index[e.log[i].consumed.taskId] == i)
  }

  function CapacityUnits(r: Reservation): u64 {
    if r.creditsReserved != 0 then r.creditsReserved else r.rateReserved
  }

  function ConsumedUnits(r: Reservation): u64 {
    if r.creditsReserved != 0 then r.creditsConsumed
    else if r.rateReserved != 0 then r.rateConsumed
    else 0
  }

  function CreditsOf(r: Reservation, u: Usage): u64 {
    CreditUnits(r.creditsReserved, u)
  }

  function RateOf(r: Reservation, u: Usage): u64 {
    RateUnits(r.rateReserved, u)
  }

  /** Two normalized usages that stand for the same event. */
  predicate UsageEqual(r: Reservation, a: Usage, b: Usage) {
    && a.reservationId == b.reservationId
    && a.taskId == b.taskId
    && a.classId == b.classId
    && a.eventTimeNs == b.eventTimeNs
    && a.estimatedNs == b.estimatedNs
    && a.actualNs == b.actualNs
    && (if r.creditsReserved == 0 && r.rateReserved == 0 then
          a.baselineUnits == b.baselineUnits && a.credits == b.credits && a.rateUnits == b.rateUnits
        else
          CreditsOf(r, a) == CreditsOf(r, b) && RateOf(r, a) == RateOf(r, b))
    && SameMetadata(a.metadata, b.metadata)
  }

  predicate ActualEqual(a: ActualUsage, b: ActualUsage) {
    && a.reservationId == b.reservationId
    && a.taskId == b.taskId
    && a.observedDeviceNs == b.observedDeviceNs
    && a.observedCompileNs == b.observedCompileNs
    && a.observedTransferNs == b.observedTransferNs
    && a.observedControlOverheadNs == b.observedControlOverheadNs
    && SameMetadata(a.metadata, b.metadata)
  }

  /** Fills in the reservation id and the event time; a zero time takes the charge's time or the clock. */
  function NormalizeUsage(id: u64, u: Usage, existingTimeNs: u64, now: u64): Result<Usage> {
    if (u.reservationId != 0 && u.reservationId != id) || (u.taskId != 0 && !UniqueKeys(u.metadata)) then
      Failure(Inval)
    else
      var time := if u.eventTimeNs != 0 then u.eventTimeNs else if existingTimeNs != 0 then existingTimeNs else now;
      Success(u.(reservationId := id, eventTimeNs := time))
  }

  function NormalizeActual(id: u64, a: ActualUsage): Result<ActualUsage> {
    if (a.reservationId != 0 && a.reservationId != id) || (a.taskId != 0 && !UniqueKeys(a.metadata)) then
      Failure(Inval)
    else
      Success(a.(reservationId := id))
  }

  /** Rate units consumed in the window of a time; without windows, over the whole life. */
  function RateWindowConsumed(e: Entry, time: u64): u64 {
    if e.rateWindowNs == 0 then e.res.rateConsumed
    else Metered(e.res.rateReserved, e.rateWindowNs, e.log, WindowOf(time, e.rateWindowNs))
  }

  /** The reservation as a policy sees it: its rate counter stands for the window of the event. */
  function PolicyView(r: Reservation, windowConsumed: u64): Reservation {
    if r.rateReserved != 0 then r.(rateConsumed := windowConsumed) else r
  }

  function DefaultDecision(r: Reservation): Decision {
    BLANK_DECISION.(
      kind := Accepted,
      reservationId := r.reservationId,
      deviceId := r.deviceId,
      scopeId := r.scopeId,
      reason := AcceptedReason,
      action := Allow,
      capacityAvailable := SatSub(CapacityUnits(r), ConsumedUnits(r)))
  }

  function VerdictOn(policy: Policy, seen: Reservation, u: Usage, plugin: Callback<Decision>): Result<Decision> {
    UsageVerdict(policy, seen, u, DefaultDecision(seen), plugin)
  }

  function Verdict(e: Entry, u: Usage, plugin: Callback<Decision>): Result<Decision> {
    VerdictOn(e.policy, PolicyView(e.res, RateWindowConsumed(e, u.eventTimeNs)), u, plugin)
  }

  /** Where the log keeps the task, if it does. */
  function Position(e: Entry, task: u64): Option<nat> {
    if task != 0 && task in e.index then Some(e.index[task]) else None
  }

  function Publish(e: Entry, ev: UsageEvent): Entry {
    e.(log := e.log + [ev],
       index := if ev.consumed.taskId != 0 then e.index[ev.consumed.taskId := |e.log|] else e.index)
  }

  /** Adds the units of a usage; the credit counter is already written when the rate counter overflows. */
  function AddUnits(r: Reservation, u: Usage): (Status, Reservation) {
    var credits := Add(r.creditsConsumed, CreditsOf(r, u));
    if credits.Failure? then (Err(credits.error), r)
    else
      var charged := r.(creditsConsumed := credits.value);
      var rate := Add(r.rateConsumed, RateOf(r, u));
      if rate.Failure? then (Err(rate.error), charged)
      else (OK, charged.(rateConsumed := rate.value))
  }

  /** Units of a return that go to the unused capacity. */
  function ReturnedUnits(r: Reservation, u: Usage): u64 {
    if CreditsOf(r, u) != 0 then CreditsOf(r, u) else RateOf(r, u)
  }

  predicate ReturnFits(r: Reservation, u: Usage) {
    && CreditsOf(r, u) <= r.creditsConsumed
    && RateOf(r, u) <= r.rateConsumed
    && r.unusedCapacity + ReturnedUnits(r, u) <= U64_MAX
  }

  function SubtractUnits(r: Reservation, u: Usage): Reservation
    requires ReturnFits(r, u)
  {
    r.(creditsConsumed := r.creditsConsumed - CreditsOf(r, u),
       rateConsumed := r.rateConsumed - RateOf(r, u),
       unusedCapacity := r.unusedCapacity + ReturnedUnits(r, u))
  }

  datatype UsageReply = UsageReply(status: Status, decision: Option<Decision>, entry: Entry)

  /** Asks the policy about a normalized usage without recording anything. */
  function Authorize(e: Entry, n: Usage, plugin: Callback<Decision>): (Status, Option<Decision>) {
    if e.res.state != Active then (Err(State), None)
    else
      var d := Verdict(e, n, plugin);
      (d.Status(), if d.Success? then Some(d.value) else None)
  }

  ghost function Consume(e: Entry, u: Usage, now: u64, plugin: Callback<Decision>): UsageReply
    requires Indexed(e)
  {
    if e.res.state != Active then UsageReply(Err(State), None, e)
    else
      var at := Position(e, u.taskId);
      var existing := if at.Some? then e.log[at.value].consumed.eventTimeNs else 0;
      match NormalizeUsage(e.res.reservationId, u, existing, now)
      case Failure(err) => UsageReply(Err(err), None, e)
      case Success(n) =>
        if at.Some? then
          if UsageEqual(e.res, e.log[at.value].consumed, n) then UsageReply(OK, Some(e.log[at.value].decision), e)
          else UsageReply(Err(State), None, e)
        else
          ConsumeNew(e, n, plugin)
  }

  /** A usage whose task is not in the log yet. */
  function ConsumeNew(e: Entry, n: Usage, plugin: Callback<Decision>): UsageReply {
    match Verdict(e, n, plugin)
    case Failure(err) => UsageReply(Err(err), None, e)
    case Success(d) =>
      if d.kind == Accepted then
        var (status, charged) := AddUnits(e.res, n);
        if status.Err? then UsageReply(status, None, e.(res := charged))
        else UsageReply(OK, Some(d), Publish(e.(res := charged), UsageEvent(n, None, d, true)))
      else
        UsageReply(OK, Some(d), Publish(
          e.(res := e.res.(overuseCount := Increment(e.res.overuseCount))), UsageEvent(n, None, d, false)))
  }

  ghost function ReturnUsage(e: Entry, u: Usage, now: u64, plugin: Status): UsageReply
    requires Indexed(e)
  {
    if e.res.state != Active then UsageReply(Err(State), None, e)
    else
      var at := Position(e, u.taskId);
      var existing := if at.Some? then e.log[at.value].consumed.eventTimeNs else 0;
      match NormalizeUsage(e.res.reservationId, u, existing, now)
      case Failure(err) => UsageReply(Err(err), None, e)
      case Success(n) =>
        if at.Some? && e.log[at.value].returned.Some? then
          UsageReply(if UsageEqual(e.res, e.log[at.value].returned.value, n) then OK else Err(State), None, e)
        else if n.taskId != 0 && (at.None? || !e.log[at.value].consumedSet) then
          UsageReply(Err(State), None, e)
        else if at.Some? then
          ReturnOfTask(e, at.value, n, plugin)
        else
          ReturnAnonymous(e, n, plugin)
  }

  /** A first return of a charged task: bounded by the charge, stored in the charge's node. */
  function ReturnOfTask(e: Entry, i: nat, n: Usage, plugin: Status): UsageReply
    requires i < |e.log|
  {
    if CreditsOf(e.res, n) > CreditsOf(e.res, e.log[i].consumed)
       || RateOf(e.res, n) > RateOf(e.res, e.log[i].consumed)
       || !ReturnFits(e.res, n) then
      UsageReply(Err(Inval), None, e)
    else
      var status := CallbackStatus(e.policy, plugin);
      if status.Err? then UsageReply(status, None, e)
      else UsageReply(OK, None, e.(res := SubtractUnits(e.res, n), log := WithReturn(e.log, i, n)))
  }

  /** A return without a task id: rate units are bounded by their window and become a node of their own. */
  function ReturnAnonymous(e: Entry, n: Usage, plugin: Status): UsageReply {
    if (RateOf(e.res, n) != 0 && RateOf(e.res, n) > RateWindowConsumed(e, n.eventTimeNs)) || !ReturnFits(e.res, n) then
      UsageReply(Err(Inval), None, e)
    else
      var status := CallbackStatus(e.policy, plugin);
      if status.Err? then UsageReply(status, None, e)
      else
        var settled := e.(res := SubtractUnits(e.res, n));
        UsageReply(OK, None,
          if RateOf(e.res, n) != 0 then Publish(settled, UsageEvent(BLANK_USAGE, Some(n), BLANK_DECISION, false))
          else settled)
  }

  function ActualNs(a: ActualUsage): nat {
    a.observedDeviceNs + a.observedCompileNs + a.observedTransferNs + a.observedControlOverheadNs
  }

  /** Result of recording a measurement; fed tells which record the estimator's feedback was called with, if any. */
  datatype RecordReply = RecordReply(status: Status, entry: Entry, fed: Option<ActualUsage>)

  /** The feedback call: an estimator without the capability is not called and counts as success. */
  function FeedbackStatus(feedback: Option<Status>): Status {
    if feedback.Some? then feedback.value else OK
  }

  function Fed(feedback: Option<Status>, a: ActualUsage): Option<ActualUsage> {
    if feedback.Some? then Some(a) else None
  }

  function RecordActual(e: Entry, a: ActualUsage, feedback: Option<Status>): RecordReply {
    if e.res.state != Active then RecordReply(Err(State), e, None)
    else
      match NormalizeActual(e.res.reservationId, a)
      case Failure(err) => RecordReply(Err(err), e, None)
      case Success(n) =>
        if n.taskId != 0 && n.taskId in e.actuals then
          var known := e.actuals[n.taskId];
          if !ActualEqual(known.actual, n) then RecordReply(Err(State), e, None)
          else if !known.feedbackPending then RecordReply(OK, e, None)
          else
            var status := FeedbackStatus(feedback);
            RecordReply(status,
              if status == OK then e.(actuals := e.actuals[n.taskId := known.(feedbackPending := false)]) else e,
              Fed(feedback, known.actual))
        else if e.res.actualTotalNs + ActualNs(n) > U64_MAX then
          RecordReply(Err(Inval), e, None)
        else
          var status := FeedbackStatus(feedback);
          var summed := e.(res := e.res.(actualTotalNs := e.res.actualTotalNs + ActualNs(n)));
          RecordReply(status,
            if n.taskId != 0 then summed.(actuals := e.actuals[n.taskId := ActualEvent(n, status != OK)]) else summed,
            Fed(feedback, n))
  }

  /** Unused capacity at the end of a reservation, never below what was explicitly returned. */
  function Finalized(r: Reservation): Reservation {
    var unused := SatSub(CapacityUnits(r), ConsumedUnits(r));
    var final := if unused > r.unusedCapacity then unused else r.unusedCapacity;
    r.(unusedCapacity := final, underuseScore := final)
  }

  /** Release, cancel and expiry: leaves the entry as it was unless the policy's release succeeds. */
  function Transition(e: Entry, target: ReservationState, plugin: Status): (Status, Entry) {
    if e.res.state == target then (OK, e)
    else if e.res.state != Active then (Err(State), e)
    else
      var status := CallbackStatus(e.policy, plugin);
      if status.Err? then (status, e) else (OK, e.(res := Finalized(e.res).(state := target)))
  }

  function Renew(e: Entry, now: u64, ttl: u64): (Status, Entry) {
    if ttl == 0 then (Err(Inval), e)
    else if e.res.state != Active then (Err(State), e)
    else
      var expires := Add(now, ttl);
      if expires.Failure? then (Err(expires.error), e) else (OK, e.(res := e.res.(expiresAtNs := expires.value)))
  }

  datatype UsageState = UsageState(
    creditsReserved: u64,
    creditsConsumed: u64,
    rateReserved: u64,
    rateConsumed: u64,
    estimatedTotalNs: u64,
    actualTotalNs: u64,
    remainingCredits: u64,
    remainingRate: u64)

  /** The usage snapshot; its rate figure is that of the window of the latest event. */
  function GetUsage(e: Entry, now: u64): UsageState {
    var latest := LatestTime(e.log);
    var rate := if e.res.rateReserved != 0 then RateWindowConsumed(e, if latest == 0 then now else latest)
                else e.res.rateConsumed;
    UsageState(
      e.res.creditsReserved, e.res.creditsConsumed, e.res.rateReserved, rate,
      e.res.estimatedTotalNs, e.res.actualTotalNs,
      SatSub(e.res.creditsReserved, e.res.creditsConsumed), SatSub(e.res.rateReserved, rate))
  }

  // ---------------------------------------------------------------------------
  // The life of one reservation as a sequence of operations on it.

  datatype UsageOp =
    | ConsumeOp(usage: Usage, now: u64, verdict: Callback<Decision>)
    | ReturnOp(usage: Usage, now: u64, status: Status)
    | RecordOp(actual: ActualUsage, feedback: Option<Status>)
    | TransitionOp(target: ReservationState, release: Status)
    | RenewOp(now: u64, ttl: u64)

  lemma PublishKeepsIndex(e: Entry, ev: UsageEvent)
    requires Indexed(e)
    requires ev.consumed.taskId == 0 || ev.consumed.taskId !in e.index
    ensures Indexed(Publish(e, ev))
  {
  }

  lemma IndexIgnoresCounters(e: Entry, r: Reservation)
    requires Indexed(e)
    ensures Indexed(e.(res := r))
  {
  }

  lemma ConsumeKeepsIndex(e: Entry, u: Usage, now: u64, plugin: Callback<Decision>)
    requires Indexed(e)
    ensures Indexed(Consume(e, u, now, plugin).entry)
  {
    hide Indexed, Verdict, AddUnits, UniqueKeys, UsageEqual, Publish;
    var n := NormalizeUsage(e.res.reservationId, u, 0, now);
    if n.Success? && Position(e, u.taskId).None? {
      var d := Verdict(e, n.value, plugin);
      if d.Success? && d.value.kind == Accepted {
        IndexIgnoresCounters(e, AddUnits(e.res, n.value).1);
        PublishKeepsIndex(e.(res := AddUnits(e.res, n.value).1), UsageEvent(n.value, None, d.value, true));
      } else if d.Success? {
        IndexIgnoresCounters(e, e.res.(overuseCount := Increment(e.res.overuseCount)));
        PublishKeepsIndex(
          e.(res := e.res.(overuseCount := Increment(e.res.overuseCount))), UsageEvent(n.value, None, d.value, false));
      }
    }
  }

  lemma ReturnKeepsIndex(e: Entry, u: Usage, now: u64, plugin: Status)
    requires Indexed(e)
    ensures Indexed(ReturnUsage(e, u, now, plugin).entry)
  {
    hide UniqueKeys, UsageEqual, RateWindowConsumed, Publish;
    var n := NormalizeUsage(e.res.reservationId, u, 0, now);
    if n.Success? && Position(e, u.taskId).None? && ReturnFits(e.res, n.value) {
      PublishKeepsIndex(
        e.(res := SubtractUnits(e.res, n.value)), UsageEvent(BLANK_USAGE, Some(n.value), BLANK_DECISION, false));
    }
  }

  ghost function Apply(e: Entry, op: UsageOp): (after: Entry)
    requires Indexed(e)
    ensures Indexed(after)
  {
    match op
    case ConsumeOp(u, now, verdict) => ConsumeKeepsIndex(e, u, now, verdict); Consume(e, u, now, verdict).entry
    case ReturnOp(u, now, status) => ReturnKeepsIndex(e, u, now, status); ReturnUsage(e, u, now, status).entry
    case RecordOp(a, feedback) => RecordActual(e, a, feedback).entry
    case TransitionOp(target, release) => Transition(e, target, release).1
    case RenewOp(now, ttl) => Renew(e, now, ttl).1
  }

  ghost function Run(e: Entry, ops: seq<UsageOp>): (after: Entry)
    requires Indexed(e)
    ensures Indexed(after)
  {
    if |ops| == 0 then e else Apply(Run(e, ops[..|ops| - 1]), ops[|ops| - 1])
  }

  /** An entry as reserve creates it: nothing consumed, returned, measured or logged. */
  predicate Fresh(e: Entry) {
    && e.res.state == Active
    && e.res.creditsConsumed == 0
    && e.res.rateConsumed == 0
    && e.res.actualTotalNs == 0
    && e.res.unusedCapacity == 0
    && e.res.overuseCount == 0
    && e.res.underuseScore == 0
    && e.log == []
    && e.index == map[]
    && e.actuals == map[]
  }
}
