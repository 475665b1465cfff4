/**
 The public records of include/qhw_admission/qhw_admission_types.h that carry numbers the
 admission and usage logic depends on.
 */
module Records {
  import opened CheckedMath
  import opened Metadata

  datatype Baseline = Baseline(
    qubitCount: u32,
    depth: u64,
    oneQGateCount: u64,
    twoQGateCount: u64,
    shots: u64,
    measurementCount: u64)

  datatype Timing = Timing(
    oneQGateNs: u64,
    twoQGateNs: u64,
    measurementNs: u64,
    oneQGateTransferNs: u64,
    twoQGateTransferNs: u64,
    measurementTransferNs: u64,
    compileNs: u64,
    controlOverheadNs: u64,
    providerOverheadNs: u64)

  datatype Profile = Profile(
    deviceId: u64,
    timeSpanNs: u64,
    baseline: Baseline,
    maxQubits: u32,
    maxShots: u64,
    timing: Timing,
    totalCredits: u64,
    deviceRate: u64,
    concurrentJobs: u32,
    defaultTtlNs: u64)

  datatype TaskClass = TaskClass(
    count: u64,
    qubitCount: u32,
    oneQGateCount: u64,
    twoQGateCount: u64,
    shots: u64,
    measurementCount: u64,
    metadata: seq<KeyValue>)

  datatype Estimate = Estimate(
    executionNs: u64,
    measurementNs: u64,
    compileNs: u64,
    transferNs: u64,
    controlOverheadNs: u64,
    totalNs: u64,
    baselineUnits: u64,
    confidencePpm: u32)

  datatype DeviceState = Available | Unavailable | Draining | Maintenance | InvalidState

  datatype WorkloadKind = QuantumJob | HybridJob | InvalidKind

  datatype DecisionKind = Undecided | Accepted | Delayed | Rejected

  datatype Reason =
    | NoReason
    | AcceptedReason
    | DeviceNotFound
    | DeviceUnavailable
    | InvalidRequest
    | EstimatorFailed
    | PolicyFailed
    | InsufficientCredits
    | InsufficientRate
    | RequestTooLarge
    | WalltimeInfeasible
    | OverLimit
    | ObjectExists
    | OtherReason(code: u64)

  datatype ComplianceAction = NoAction | Allow | Delay | Reject | Throttle | Terminate

  datatype Request = Request(
    requestId: u64,
    deviceId: u64,
    userId: u64,
    jobId: u64,
    scopeId: u64,
    reservationId: u64,
    workloadKind: WorkloadKind,
    walltimeNs: u64,
    ttlNs: u64,
    classicalRuntimeNs: u64,
    overheadNs: u64,
    taskClasses: seq<TaskClass>)

  datatype Snapshot = Snapshot(
    deviceState: DeviceState,
    nowNs: u64,
    nextAvailableNs: u64,
    activeReservationCount: u64,
    externalCreditLimit: u64,
    externalRateLimit: u64,
    confidencePpm: u32)

  datatype CapacityView = CapacityView(
    deviceState: DeviceState,
    nowNs: u64,
    nextAvailableNs: u64,
    activeReservationCount: u64,
    totalCredits: u64,
    creditsReserved: u64,
    creditsConsumed: u64,
    creditsReturned: u64,
    coreAvailableCredits: u64,
    externalCreditLimit: u64,
    scopedReservedCredits: u64,
    effectiveAvailableCredits: u64,
    totalRate: u64,
    rateReserved: u64,
    rateConsumed: u64,
    rateReturned: u64,
    coreAvailableRate: u64,
    externalRateLimit: u64,
    scopedReservedRate: u64,
    effectiveAvailableRate: u64,
    confidencePpm: u32)

  datatype Decision = Decision(
    kind: DecisionKind,
    requestId: u64,
    deviceId: u64,
    scopeId: u64,
    reservationId: u64,
    reason: Reason,
    creditsRequired: u64,
    rateRequired: u64,
    capacityAvailable: u64,
    estimatedTotalNs: u64,
    estimatedStartNs: u64,
    estimatedFinishNs: u64,
    quantumBudgetNs: u64,
    capacityGranted: u64,
    action: ComplianceAction,
    retryAfterNs: u64,
    confidencePpm: u32)

  /** A decision record with every byte zero. */
  const BLANK_DECISION := Decision(
    Undecided, 0, 0, 0, 0, NoReason, 0, 0, 0, 0, 0, 0, 0, 0, NoAction, 0, 0)

  datatype Grant = Grant(
    deviceId: u64,
    scopeId: u64,
    creditsGranted: u64,
    rateGranted: u64,
    baselineUnitsGranted: u64,
    ttlNs: u64)

  datatype Usage = Usage(
    reservationId: u64,
    taskId: u64,
    classId: u64,
    eventTimeNs: u64,
    estimatedNs: u64,
    actualNs: u64,
    baselineUnits: u64,
    credits: u64,
    rateUnits: u64,
    metadata: seq<KeyValue>)

  const BLANK_USAGE := Usage(0, 0, 0, 0, 0, 0, 0, 0, 0, [])

  datatype ActualUsage = ActualUsage(
    reservationId: u64,
    taskId: u64,
    observedDeviceNs: u64,
    observedCompileNs: u64,
    observedTransferNs: u64,
    observedControlOverheadNs: u64,
    metadata: seq<KeyValue>)

  datatype ReservationState = Active | Released | Expired | Cancelled

  datatype Reservation = Reservation(
    reservationId: u64,
    requestId: u64,
    deviceId: u64,
    scopeId: u64,
    userId: u64,
    jobId: u64,
    workloadKind: WorkloadKind,
    state: ReservationState,
    creditsReserved: u64,
    creditsConsumed: u64,
    rateReserved: u64,
    rateConsumed: u64,
    quantumBudgetNs: u64,
    profileVersion: u64,
    policyVersion: u64,
    estimatorVersion: u64,
    estimatedTotalNs: u64,
    actualTotalNs: u64,
    unusedCapacity: u64,
    overuseCount: u64,
    underuseScore: u64,
    createdAtNs: u64,
    expiresAtNs: u64)

  /** The answer of a plugin callback, which is an input of a step; a callback may also be missing. */
  datatype Callback<+T> = Absent | Fails(error: Error) | Answers(value: T)
}
