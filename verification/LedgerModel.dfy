/**
 The admission context as a value, and every public step as a function on it (src/qhw_reservation.c,
 src/qhw_device.c, src/qhw_policy.c, src/qhw_estimator.c, src/qhw_config.c). The clock, the capacity
 snapshot and all plugin answers are inputs of a step.
 */
module LedgerModel {
  import opened CheckedMath
  import opened Metadata
  import opened Records
  import opened PolicyCommon
  import CreditPolicy
  import RatePolicy
  import opened Policies
  import opened BaselineEstimator
  import opened UsageLog
  import opened UsageModel
  import opened ActiveCapacity
  import opened PluginRegistry

  datatype EstimatorKind = BuiltIn | PluginEstimator(feedback: bool)

  datatype PolicyKind = CreditKind | RateKind | CustomKind(capacity: bool)

  datatype Device = Device(
    profile: Profile,
    profileVersion: u64,
    estimator: EstimatorKind,
    estimatorVersion: u64,
    policy: Option<Policy>,
    policyVersion: u64)

  datatype Ledger = Ledger(
    devices: map<u64, Device>,
    reservations: map<u64, Entry>,
    nextId: u64,
    policies: map<string, PolicyKind>,
    estimators: map<string, EstimatorKind>,
    policyPaths: seq<string>,
    estimatorPaths: seq<string>)

  const BUILT_IN_NAME: string := "baseline"

  const EMPTY_LEDGER := Ledger(map[], map[], 1, map[], map[BUILT_IN_NAME := BuiltIn], [], [])

  // ---------------------------------------------------------------------------
  // Totals and the capacity view.

  datatype EstimatorAnswers = EstimatorAnswers(
    request: Result<Estimate>,
    baselineForCredits: Result<Estimate>,
    baselineForRate: Result<Estimate>)

  /** Everything one evaluate or reserve call reads from outside. */
  datatype AdmissionInputs = AdmissionInputs(
    now: u64,
    laterNow: u64,
    snapshot: Option<Result<Snapshot>>,
    estimator: EstimatorAnswers,
    policy: PolicyReply,
    capacity: Result<CapacityView>)

  function BaselineAnswer(dev: Device, plugin: Result<Estimate>): Result<Estimate> {
    if dev.estimator.BuiltIn? then EstimateBaseline(dev.profile) else plugin
  }

  function DeriveTotalCredits(dev: Device, plugin: Result<Estimate>): Result<u64> {
    if dev.profile.totalCredits != 0 then Success(dev.profile.totalCredits)
    else if dev.profile.timeSpanNs == 0 then Success(0)
    else
      var e := BaselineAnswer(dev, plugin);
      if e.Failure? || e.value.totalNs == 0 then Failure(Error.Estimator)
      else
        DivisionFacts(dev.profile.timeSpanNs, e.value.totalNs);
        Success(dev.profile.timeSpanNs / e.value.totalNs)
  }

  function DeriveTotalRate(dev: Device, plugin: Result<Estimate>): Result<u64> {
    if dev.profile.deviceRate != 0 then Success(dev.profile.deviceRate)
    else if dev.profile.timeSpanNs == 0 then Success(0)
    else
      var e := BaselineAnswer(dev, plugin);
      if e.Failure? || e.value.totalNs == 0 then Failure(Error.Estimator)
      else CeilDiv(dev.profile.timeSpanNs, e.value.totalNs)
  }

  const DEFAULT_SNAPSHOT := Snapshot(Available, 0, 0, 0, 0, 0, FULL_CONFIDENCE_PPM)

  function TakeSnapshot(inputs: AdmissionInputs): Result<Snapshot> {
    match inputs.snapshot
    case None => Success(DEFAULT_SNAPSHOT.(nowNs := inputs.now))
    case Some(answer) => answer
  }

  /** The core's capacity view: every figure is the exact sum, cut off at the largest number. */
  ghost function CoreView(
    s: Ledger, dev: Device, scope: u64, snap: Snapshot, laterNow: u64, totalCredits: u64, totalRate: u64): CapacityView
  {
    ViewFrom(FiguresOf(s.reservations, dev.profile.deviceId, scope), snap, laterNow, totalCredits, totalRate)
  }

  ghost function BuildView(s: Ledger, dev: Device, scope: u64, inputs: AdmissionInputs): Result<CapacityView> {
    var snap :- TakeSnapshot(inputs);
    var totalCredits :- DeriveTotalCredits(dev, inputs.estimator.baselineForCredits);
    var totalRate :- DeriveTotalRate(dev, inputs.estimator.baselineForRate);
    Success(CoreView(s, dev, scope, snap, inputs.laterNow, totalCredits, totalRate))
  }

  /** The view after the policy's capacity callback. */
  ghost function PolicyAdjustedView(
    s: Ledger, dev: Device, policy: Policy, scope: u64, inputs: AdmissionInputs): Result<CapacityView>
  {
    var core :- BuildView(s, dev, scope, inputs);
    var adjusted := CapacityCallback(policy, core, inputs.capacity);
    if adjusted.Failure? then Failure(Error.Policy) else adjusted
  }

  // ---------------------------------------------------------------------------
  // Evaluate and reserve.

  predicate ValidRequest(r: Request) {
    && r.deviceId != 0
    && r.walltimeNs != 0
    && |r.taskClasses| != 0
    && !r.workloadKind.InvalidKind?
    && forall i :: 0 <= i < |r.taskClasses| ==>
         r.taskClasses[i].count != 0 && r.taskClasses[i].qubitCount != 0 && r.taskClasses[i].shots != 0
  }

  function RejectedDecision(r: Request, reason: Reason): Decision {
    BLANK_DECISION.(
      kind := Rejected, reason := reason, requestId := r.requestId, deviceId := r.deviceId, scopeId := r.scopeId)
  }

  function EstimateRequest(dev: Device, r: Request, plugin: Result<Estimate>): Result<Estimate> {
    if dev.estimator.BuiltIn? then EstimateTasks(dev.profile, r.taskClasses) else plugin
  }

  datatype Prepared =
    | Unprepared(error: Error, decision: Decision)
    | Prepared(device: Device, policy: Policy, estimate: Estimate, view: CapacityView, budget: u64)

  /** Everything that precedes the policy's decision, the same for evaluate and reserve. */
  ghost function Prepare(s: Ledger, r: Request, inputs: AdmissionInputs): Prepared {
    if !ValidRequest(r) then Unprepared(Inval, RejectedDecision(r, InvalidRequest))
    else if r.deviceId !in s.devices then Unprepared(NotFound, RejectedDecision(r, DeviceNotFound))
    else
      var dev := s.devices[r.deviceId];
      if dev.policy.None? then Unprepared(NotFound, RejectedDecision(r, PolicyFailed))
      else
        var budget := QuantumBudget(r);
        if budget.Failure? then Unprepared(budget.error, RejectedDecision(r, WalltimeInfeasible))
        else
          var estimate := EstimateRequest(dev, r, inputs.estimator.request);
          if estimate.Failure? then Unprepared(estimate.error, RejectedDecision(r, EstimatorFailed))
          else
            var view := PolicyAdjustedView(s, dev, dev.policy.value, r.scopeId, inputs);
            if view.Failure? then Unprepared(view.error, RejectedDecision(r, PolicyFailed))
            else Prepared(dev, dev.policy.value, estimate.value, view.value, budget.value)
  }

  function Decorate(d: Decision, r: Request, e: Estimate, view: CapacityView, budget: u64): Decision {
    d.(requestId := r.requestId,
       deviceId := r.deviceId,
       scopeId := r.scopeId,
       estimatedTotalNs := e.totalNs,
       estimatedStartNs := view.nextAvailableNs,
       estimatedFinishNs := SatAdd(view.nextAvailableNs, e.totalNs),
       quantumBudgetNs := budget,
       confidencePpm := e.confidencePpm)
  }

  /** The dry run: a status and a decision, no new state. */
  ghost function Evaluate(s: Ledger, r: Request, inputs: AdmissionInputs): (Status, Decision) {
    match Prepare(s, r, inputs)
    case Unprepared(error, decision) => (Err(error), decision)
    case Prepared(dev, policy, estimate, view, budget) =>
      var reply := EvaluateCallback(policy, dev.profile, r, estimate, view, inputs.policy);
      if reply.status.Err? then (reply.status, reply.decision)
      else (OK, Decorate(reply.decision, r, estimate, view, budget))
  }

  /** The least unused id from a starting point on. */
  function FirstFree(reservations: map<u64, Entry>, from: nat): (r: Option<u64>)
    ensures r.Some? ==> from <= r.value && r.value !in reservations
    ensures r.Some? ==> forall id :: from <= id < r.value ==> id in reservations
    ensures r.None? ==> forall id: u64 :: from <= id ==> id in reservations
    decreases U64_MAX + 1 - from
  {
    if from > U64_MAX then None
    else if from !in reservations then Some(from)
    else FirstFree(reservations, from + 1)
  }

  /** An id and the next automatic candidate; zero as candidate means that the ids are exhausted. */
  function AllocateId(s: Ledger, requested: u64): Result<(u64, u64)> {
    if requested != 0 then
      if requested in s.reservations then Failure(Exists) else Success((requested, s.nextId))
    else if s.nextId == 0 then Failure(State)
    else
      match FirstFree(s.reservations, s.nextId)
      case None => Failure(State)
      case Some(id) => Success((id, Increment(id)))
  }

  /** The core's own check of a policy's grant. */
  predicate GrantValid(r: Request, view: CapacityView, e: Estimate, g: Grant) {
    && g.deviceId == r.deviceId
    && g.scopeId == r.scopeId
    && g.baselineUnitsGranted == e.baselineUnits
    && (view.totalCredits != 0 || view.externalCreditLimit != 0 ==> g.creditsGranted <= view.effectiveAvailableCredits)
    && (view.totalRate != 0 || view.externalRateLimit != 0 ==> g.rateGranted <= view.effectiveAvailableRate)
  }

  function SelectTtl(r: Request, p: Profile, g: Grant): u64 {
    if g.ttlNs != 0 then g.ttlNs
    else if r.ttlNs != 0 then r.ttlNs
    else if r.walltimeNs != 0 then r.walltimeNs
    else p.defaultTtlNs
  }

  function CreateEntry(
    dev: Device, policy: Policy, r: Request, e: Estimate, view: CapacityView, g: Grant, id: u64, budget: u64)
    : Result<Entry>
  {
    var ttl := SelectTtl(r, dev.profile, g);
    var expires :- if ttl != 0 then Add(view.nowNs, ttl) else Success(0);
    Success(Entry(
      Reservation(
        id, r.requestId, r.deviceId, r.scopeId, r.userId, r.jobId, r.workloadKind, Active,
        g.creditsGranted, 0, g.rateGranted, 0, budget,
        dev.profileVersion, dev.policyVersion, dev.estimatorVersion,
        e.totalNs, 0, 0, 0, 0, view.nowNs, expires),
      policy, dev.profile.timeSpanNs, [], map[], map[]))
  }

  function GrantUnits(g: Grant): u64 {
    if g.creditsGranted != 0 then g.creditsGranted
    else if g.rateGranted != 0 then g.rateGranted
    else g.baselineUnitsGranted
  }

  /** The id is the reservation published, if one was. */
  datatype ReserveReply = ReserveReply(status: Status, decision: Decision, ledger: Ledger, published: Option<u64>)

  ghost function Reserve(s: Ledger, r: Request, inputs: AdmissionInputs): ReserveReply {
    match Prepare(s, r, inputs)
    case Unprepared(error, decision) => ReserveReply(Err(error), decision, s, None)
    case Prepared(dev, policy, estimate, view, budget) =>
      match AllocateId(s, r.reservationId)
      case Failure(error) => ReserveReply(Err(error), RejectedDecision(r, ObjectExists), s, None)
      case Success((id, next)) =>
        ReserveWithId(s.(nextId := next), r, dev, policy, estimate, view, budget, id, inputs)
  }

  /** The part of reserve after an id is taken; an automatic id stays consumed whatever follows. */
  ghost function ReserveWithId(
    s: Ledger, r: Request, dev: Device, policy: Policy, estimate: Estimate, view: CapacityView, budget: u64, id: u64,
    inputs: AdmissionInputs): ReserveReply
  {
    var reply := ReserveCallback(policy, dev.profile, r, estimate, view, inputs.policy);
    var decorated := Decorate(reply.decision, r, estimate, view, budget);
    if reply.status.Err? then ReserveReply(reply.status, decorated, s, None)
    else if reply.decision.kind != Accepted then ReserveReply(OK, decorated, s, None)
    else if !GrantValid(r, view, estimate, reply.grant) then
      ReserveReply(Err(Error.Policy), RejectedDecision(r, PolicyFailed), s, None)
    else
      match CreateEntry(dev, policy, r, estimate, view, reply.grant, id, budget)
      case Failure(error) => ReserveReply(Err(error), reply.decision, s, None)
      case Success(entry) =>
        ReserveReply(
          OK,
          decorated.(reservationId := id, capacityGranted := GrantUnits(reply.grant)),
          s.(reservations := s.reservations[id := entry]),
          Some(id))
  }

  // ---------------------------------------------------------------------------
  // Ending, renewing and using a reservation.

  function Stored(s: Ledger, id: u64, e: Entry): Ledger {
    s.(reservations := s.reservations[id := e])
  }

  function TransitionReservation(s: Ledger, id: u64, target: ReservationState, release: Status): (Status, Ledger) {
    if id !in s.reservations then (Err(NotFound), s)
    else
      var (status, e) := Transition(s.reservations[id], target, release);
      (status, Stored(s, id, e))
  }

  function EndReservation(s: Ledger, id: u64, target: ReservationState, release: Status): (Status, Ledger) {
    if id == 0 then (Err(Inval), s) else TransitionReservation(s, id, target, release)
  }

  function RenewReservation(s: Ledger, id: u64, now: u64, clock: u64, ttl: u64): (Status, Ledger) {
    if id == 0 || ttl == 0 then (Err(Inval), s)
    else if id !in s.reservations then (Err(NotFound), s)
    else
      var (status, e) := Renew(s.reservations[id], if now == 0 then clock else now, ttl);
      (status, Stored(s, id, e))
  }

  /** An active reservation with an expiry time that has come. */
  predicate Due(e: Entry, now: u64) {
    e.res.state == Active && e.res.expiresAtNs != 0 && e.res.expiresAtNs <= now
  }

  /** The expiry scan in a given order; it stops at the first release callback that fails. */
  function ExpireOver(s: Ledger, order: seq<u64>, now: u64, release: u64 -> Status): (Status, Ledger, nat) {
    if |order| == 0 then (OK, s, 0)
    else
      var (status, before, count) := ExpireOver(s, order[..|order| - 1], now, release);
      var id := order[|order| - 1];
      if status.Err? || id !in before.reservations || !Due(before.reservations[id], now) then (status, before, count)
      else
        var (ended, after) := TransitionReservation(before, id, Expired, release(id));
        (ended, after, if ended == OK then count + 1 else count)
  }

  /** Authorization looks at the usage first and then at the reservation. */
  function AuthorizeOn(s: Ledger, id: u64, u: Usage, now: u64, plugin: Callback<Decision>): (Status, Option<Decision>) {
    var n := NormalizeUsage(id, u, 0, now);
    if n.Failure? then (Err(n.error), None)
    else if id == 0 then (Err(Inval), None)
    else if id !in s.reservations then (Err(NotFound), None)
    else Authorize(s.reservations[id], n.value, plugin)
  }

  /** Finding the reservation comes first, then its state, both before the usage is looked at. */
  ghost function ConsumeOn(s: Ledger, id: u64, u: Usage, now: u64, plugin: Callback<Decision>)
    : (Status, Option<Decision>, Ledger)
    requires forall i :: i in s.reservations ==> Indexed(s.reservations[i])
  {
    if id == 0 then (Err(Inval), None, s)
    else if id !in s.reservations then (Err(NotFound), None, s)
    else
      var r := Consume(s.reservations[id], u, now, plugin);
      (r.status, r.decision, Stored(s, id, r.entry))
  }

  ghost function ReturnOn(s: Ledger, id: u64, u: Usage, now: u64, plugin: Status): (Status, Ledger)
    requires forall i :: i in s.reservations ==> Indexed(s.reservations[i])
  {
    if id == 0 then (Err(Inval), s)
    else if id !in s.reservations then (Err(NotFound), s)
    else
      var r := ReturnUsage(s.reservations[id], u, now, plugin);
      (r.status, Stored(s, id, r.entry))
  }

  /** Whether, and with what answer, the estimator of the reservation's device takes feedback. */
  function FeedbackOf(s: Ledger, e: Entry, answer: Status): Option<Status> {
    if e.res.deviceId in s.devices && s.devices[e.res.deviceId].estimator.PluginEstimator?
       && s.devices[e.res.deviceId].estimator.feedback
    then Some(answer) else None
  }

  function RecordOn(s: Ledger, id: u64, a: ActualUsage, answer: Status): (Status, Option<ActualUsage>, Ledger) {
    if id == 0 then (Err(Inval), None, s)
    else if id !in s.reservations then (Err(NotFound), None, s)
    else
      var e := s.reservations[id];
      var r := RecordActual(e, a, FeedbackOf(s, e, answer));
      (r.status, r.fed, Stored(s, id, r.entry))
  }

  // ---------------------------------------------------------------------------
  // Devices.

  function NewDevice(p: Profile): Device {
    Device(p, 1, BuiltIn, 1, None, 0)
  }

  ghost function RegisterDevice(s: Ledger, p: Profile): (Status, Ledger) {
    if !ValidProfile(p) then (Err(Inval), s)
    else if p.deviceId !in s.devices then (OK, s.(devices := s.devices[p.deviceId := NewDevice(p)]))
    else if HasActive(s.reservations, p.deviceId) then (Err(State), s)
    else
      var version := Increment(s.devices[p.deviceId].profileVersion);
      (OK, s.(devices := s.devices[p.deviceId := NewDevice(p).(profileVersion := version)]))
  }

  ghost function UnregisterDevice(s: Ledger, id: u64): (Status, Ledger) {
    if id == 0 then (Err(Inval), s)
    else if id !in s.devices then (Err(NotFound), s)
    else if HasActive(s.reservations, id) then (Err(State), s)
    else (OK, s.(devices := s.devices - {id}))
  }

  ghost function SetBaseline(s: Ledger, id: u64, b: Baseline): (Status, Ledger) {
    if id == 0 || !ValidBaseline(b) then (Err(Inval), s)
    else if id !in s.devices then (Err(NotFound), s)
    else if HasActive(s.reservations, id) then (Err(State), s)
    else if !BaselineFits(s.devices[id].profile, b) then (Err(Inval), s)
    else (OK, s.(devices := s.devices[id := WithBaseline(s.devices[id], b)]))
  }

  function WithBaseline(dev: Device, b: Baseline): Device {
    dev.(profile := dev.profile.(baseline := b), profileVersion := Increment(dev.profileVersion))
  }

  /** What plugin initialisation answers, and the plugin estimator's baseline when a rate is derived. */
  datatype SetupInputs = SetupInputs(policyInit: Status, estimatorInit: Status, baseline: Result<Estimate>)

  const RATE_POLICY_NAME: string := "rate"

  /** The last slice option counts; a slice of the wrong type is an error wherever it stands. */
  function RateSliceOption(options: seq<KeyValue>): Result<u64> {
    if |options| == 0 then Success(0)
    else
      var before :- RateSliceOption(options[..|options| - 1]);
      var last := options[|options| - 1];
      if last.key != OPT_RATE_SLICE then Success(before)
      else if !last.value.payload.U64? then Failure(Inval)
      else Success(last.value.payload.u64)
  }

  function RateOptionsStatus(dev: Device, name: string, options: seq<KeyValue>, plugin: Result<Estimate>): Status {
    if name != RATE_POLICY_NAME then OK
    else
      var slice := RateSliceOption(options);
      if slice.Failure? then Err(slice.error)
      else if slice.value == 0 then OK
      else
        var total := DeriveTotalRate(dev, plugin);
        if total.Failure? then Err(total.error)
        else if slice.value > total.value then Err(Inval)
        else OK
  }

  function InitPolicy(kind: PolicyKind, p: Profile, options: seq<KeyValue>, plugin: Status): Result<Policy> {
    match kind
    case CreditKind =>
      var state :- CreditPolicy.Init(p, options);
      Success(Credit(state))
    case RateKind =>
      var state :- RatePolicy.Init(p, options);
      Success(Rate(state))
    case CustomKind(capacity) => if plugin.Err? then Failure(plugin.error) else Success(Custom(capacity))
  }

  function SetDevicePolicy(
    dev: Device, plugin: Option<Plugin<PolicyKind>>, options: seq<KeyValue>, setup: SetupInputs): Result<Device>
  {
    if plugin.None? then Failure(Inval)
    else
      var status := RateOptionsStatus(dev, plugin.value.name, options, setup.baseline);
      if status.Err? then Failure(status.error)
      else
        var policy :- InitPolicy(plugin.value.kind, dev.profile, options, setup.policyInit);
        Success(dev.(policy := Some(policy), policyVersion := Increment(dev.policyVersion)))
  }

  function SetDeviceEstimator(dev: Device, plugin: Option<Plugin<EstimatorKind>>, setup: SetupInputs): Result<Device> {
    if plugin.None? then Failure(Inval)
    else if plugin.value.kind.PluginEstimator? && setup.estimatorInit.Err? then Failure(setup.estimatorInit.error)
    else Success(dev.(estimator := plugin.value.kind, estimatorVersion := Increment(dev.estimatorVersion)))
  }

  ghost function SetPolicy(
    s: Ledger, id: u64, name: string, options: seq<KeyValue>, load: (string, string) -> LoadOutcome<PolicyKind>,
    setup: SetupInputs): (Status, Ledger)
  {
    if id !in s.devices then (Err(NotFound), s)
    else if HasActive(s.reservations, id) then (Err(State), s)
    else
      var search := FindOrLoad(s.policies, name, [], s.policyPaths, load);
      var known := s.(policies := search.registry);
      if search.found.Failure? || search.found.value.None? then (Err(NotFound), known)
      else
        var dev := SetDevicePolicy(s.devices[id], search.found.value, options, setup);
        if dev.Failure? then (Err(dev.error), known)
        else (OK, known.(devices := s.devices[id := dev.value]))
  }

  ghost function SetEstimator(
    s: Ledger, id: u64, name: string, load: (string, string) -> LoadOutcome<EstimatorKind>, setup: SetupInputs)
    : (Status, Ledger)
  {
    if id !in s.devices then (Err(NotFound), s)
    else if HasActive(s.reservations, id) then (Err(State), s)
    else
      var search := FindOrLoad(s.estimators, name, [], s.estimatorPaths, load);
      var known := s.(estimators := search.registry);
      if search.found.Failure? || search.found.value.None? then (Err(NotFound), known)
      else
        var dev := SetDeviceEstimator(s.devices[id], search.found.value, setup);
        if dev.Failure? then (Err(dev.error), known)
        else (OK, known.(devices := s.devices[id := dev.value]))
  }

  // ---------------------------------------------------------------------------
  // Configuration load, from an already parsed configuration.

  datatype ConfigDevice = ConfigDevice(
    profile: Profile,
    estimatorName: Option<string>,
    policyName: Option<string>,
    policyOptions: seq<KeyValue>)

  datatype Config = Config(devices: seq<ConfigDevice>, estimatorPaths: seq<string>, policyPaths: seq<string>)

  datatype ConfigMode = Merge | Replace | InvalidMode

  datatype ConfigInputs = ConfigInputs(
    loadPolicy: (string, string) -> LoadOutcome<PolicyKind>,
    loadEstimator: (string, string) -> LoadOutcome<EstimatorKind>,
    setup: nat -> SetupInputs)

  predicate Configures(c: Config, id: u64) {
    exists i :: 0 <= i < |c.devices| && c.devices[i].profile.deviceId == id
  }

  datatype Registries = Registries(policies: map<string, PolicyKind>, estimators: map<string, EstimatorKind>)

  /** One configured device with the estimator and policy it names, and the registries after loading them. */
  datatype StagedDevice = StagedDevice(outcome: Result<Device>, registries: Registries)

  function StageEstimator(
    s: Ledger, c: Config, i: nat, dev: Device, known: Registries, inputs: ConfigInputs): StagedDevice
    requires i < |c.devices|
  {
    match c.devices[i].estimatorName
    case None => StagedDevice(Success(dev), known)
    case Some(name) =>
      var search := FindOrLoad(known.estimators, name, c.estimatorPaths, s.estimatorPaths, inputs.loadEstimator);
      var loaded := known.(estimators := search.registry);
      if search.found.Failure? then StagedDevice(Failure(search.found.error), loaded)
      else StagedDevice(SetDeviceEstimator(dev, search.found.value, inputs.setup(i)), loaded)
  }

  function StagePolicy(
    s: Ledger, c: Config, i: nat, dev: Device, known: Registries, inputs: ConfigInputs): StagedDevice
    requires i < |c.devices|
  {
    match c.devices[i].policyName
    case None => StagedDevice(Success(dev), known)
    case Some(name) =>
      var search := FindOrLoad(known.policies, name, c.policyPaths, s.policyPaths, inputs.loadPolicy);
      var loaded := known.(policies := search.registry);
      if search.found.Failure? then StagedDevice(Failure(search.found.error), loaded)
      else StagedDevice(SetDevicePolicy(dev, search.found.value, c.devices[i].policyOptions, inputs.setup(i)), loaded)
  }

  ghost function StageDevice(s: Ledger, c: Config, i: nat, known: Registries, inputs: ConfigInputs): StagedDevice
    requires i < |c.devices|
  {
    var p := c.devices[i].profile;
    if p.deviceId in s.devices && HasActive(s.reservations, p.deviceId) then StagedDevice(Failure(State), known)
    else if !ValidProfile(p) then StagedDevice(Failure(Inval), known)
    else
      var staged := StageEstimator(s, c, i, NewDevice(p), known, inputs);
      if staged.outcome.Failure? then staged
      else StagePolicy(s, c, i, staged.outcome.value, staged.registries, inputs)
  }

  datatype StagedConfig = StagedConfig(outcome: Result<map<u64, Device>>, registries: Registries)

  /** The first n configured devices, staged in order until one fails. */
  ghost function StageDevices(s: Ledger, c: Config, n: nat, inputs: ConfigInputs): StagedConfig
    requires n <= |c.devices|
  {
    if n == 0 then StagedConfig(Success(map[]), Registries(s.policies, s.estimators))
    else
      var before := StageDevices(s, c, n - 1, inputs);
      if before.outcome.Failure? then before
      else
        var staged := StageDevice(s, c, n - 1, before.registries, inputs);
        if staged.outcome.Failure? then StagedConfig(Failure(staged.outcome.error), staged.registries)
        else
          StagedConfig(
            Success(before.outcome.value[c.devices[n - 1].profile.deviceId := staged.outcome.value]), staged.registries)
  }

  ghost predicate OmitsActive(s: Ledger, c: Config) {
    exists id :: id in s.devices && !Configures(c, id) && HasActive(s.reservations, id)
  }

  /** Devices the configuration does not mention, which a merge keeps as they are. */
  function KeptDevices(s: Ledger, c: Config): map<u64, Device> {
    map id | id in s.devices && !Configures(c, id) :: s.devices[id]
  }

  function NewPaths(mode: ConfigMode, current: seq<string>, configured: seq<string>): seq<string> {
    if mode.Merge? then current + configured else configured
  }

  /** The load as one transaction: on success the new maps, on failure the old state in full. */
  ghost function LoadConfig(s: Ledger, c: Config, mode: ConfigMode, inputs: ConfigInputs): (Status, Ledger) {
    if mode.InvalidMode? || (exists i :: 0 <= i < |c.devices| && !ValidProfile(c.devices[i].profile)) then
      (Err(Inval), s)
    else if mode.Replace? && OmitsActive(s, c) then (Err(State), s)
    else
      var staged := StageDevices(s, c, |c.devices|, inputs);
      match staged.outcome
      case Failure(error) => (Err(error), s)
      case Success(configured) =>
        (OK, s.(
          devices := if mode.Merge? then KeptDevices(s, c) + configured else configured,
          policies := staged.registries.policies,
          estimators := staged.registries.estimators,
          policyPaths := NewPaths(mode, s.policyPaths, c.policyPaths),
          estimatorPaths := NewPaths(mode, s.estimatorPaths, c.estimatorPaths)))
  }
}
