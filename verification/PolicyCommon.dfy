/** What the credit and the rate policy do alike. */
module PolicyCommon {
  import opened CheckedMath
  import opened Records

  const OPT_CREDIT_RESERVATION_TTL_NS: u64 := 1001
  const OPT_CREDIT_ALLOW_OVERCOMMIT: u64 := 1002
  const OPT_CREDIT_OVERCOMMIT_CREDITS: u64 := 1003
  const OPT_CREDIT_OVERCOMMIT_PPM: u64 := 1004
  const OPT_RATE_RESERVATION_TTL_NS: u64 := 2001
  const OPT_RATE_SLICE: u64 := 2002

  /** Core availability, further limited by what an external limit leaves to the scope. */
  function CappedAvailable(core: u64, externalLimit: u64, scopedReserved: u64): u64 {
    if externalLimit == 0 then core
    else if scopedReserved >= externalLimit then 0
    else Min(core, externalLimit - scopedReserved)
  }

  function RetryAfter(view: CapacityView): u64 {
    if view.nextAvailableNs <= view.nowNs then 0 else view.nextAvailableNs - view.nowNs
  }

  /** The decision for a device that is not available. */
  function BlockedDecision(request: Request, view: CapacityView): (d: Decision)
    ensures d.kind != Accepted
  {
    var d := BLANK_DECISION.(
      requestId := request.requestId,
      deviceId := request.deviceId,
      scopeId := request.scopeId,
      reason := DeviceUnavailable);
    if view.deviceState.Draining? then
      d.(kind := Delayed, action := Delay, retryAfterNs := RetryAfter(view))
    else if view.deviceState.Maintenance? || view.deviceState.Unavailable? then
      d.(kind := Rejected, action := Reject)
    else
      d.(kind := Rejected, action := Reject, reason := InvalidRequest)
  }

  function WithVerdict(d: Decision, kind: DecisionKind, reason: Reason, action: ComplianceAction): Decision {
    d.(kind := kind, reason := reason, action := action)
  }

  /** Wall time left for quantum work; fails when classical time and overhead leave none. */
  function QuantumBudget(request: Request): (r: Result<u64>)
    ensures r.Success? <==> request.classicalRuntimeNs + request.overheadNs < request.walltimeNs
    ensures r.Success? ==> r.value + request.classicalRuntimeNs + request.overheadNs == request.walltimeNs
    ensures r.Success? ==> r.value > 0
    ensures r.Failure? ==> r.error == Inval
  {
    var reserved :- Add(request.classicalRuntimeNs, request.overheadNs);
    if request.walltimeNs <= reserved then Failure(Inval) else Success(request.walltimeNs - reserved)
  }

  /** The verdict on one usage event against the units of one kind a reservation holds. */
  function UsageDecision(
    reservation: Reservation, reserved: u64, consumed: u64, requested: u64, d: Decision): Decision
  {
    var filled := d.(
      reservationId := reservation.reservationId,
      deviceId := reservation.deviceId,
      scopeId := reservation.scopeId,
      capacityAvailable := SatSub(reserved, consumed));
    if SatAdd(consumed, requested) > reserved then
      WithVerdict(filled, Rejected, OverLimit, Reject)
    else
      WithVerdict(filled, Accepted, AcceptedReason, Allow)
  }
}
