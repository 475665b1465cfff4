/**
 Contexts that are reached. The guarantees about active credit and rate reservations speak of states that exist,
 and so do the promises that fail: every witness here starts from an empty context.
 */
module LedgerExample {
  import opened CheckedMath
  import opened Metadata
  import opened Records
  import opened PolicyCommon
  import CreditPolicy
  import RatePolicy
  import opened Policies
  import opened BaselineEstimator
  import opened UsageLog
  import opened UsageModel
  import UsageTheorems
  import UsageOnce
  import opened PluginRegistry
  import opened ActiveCapacity
  import opened LedgerModel
  import opened LedgerInvariants
  import opened LedgerSteps
  import opened LedgerGuarantees
  import opened LedgerAdmission

  // ---------------------------------------------------------------------------
  // A context with one configured device.

  /** The policy, estimator and profile of the device. */
  datatype Setting = Setting(policy: PolicyKind, estimator: EstimatorKind, profile: Profile) {
    predicate Small() {
      estimator.BuiltIn? && profile == SmallProfile(profile.deviceRate)
    }
  }

  function Small(policy: PolicyKind, rate: u64): Setting {
    Setting(policy, BuiltIn, SmallProfile(rate))
  }

  const ONE_SHOT := Baseline(1, 1, 0, 0, 1, 1)

  /** Ten baseline runs of one nanosecond fit the span. */
  function SmallProfile(rate: u64): Profile {
    Profile(1, 10, ONE_SHOT, 1, 0, Timing(1, 1, 1, 0, 0, 0, 0, 0, 0), 0, rate, 1, 0)
  }

  function PolicyName(kind: PolicyKind): string {
    match kind
    case CreditKind => "credit"
    case RateKind => RATE_POLICY_NAME
    case CustomKind(_) => "custom"
  }

  function SmallPolicy(kind: PolicyKind): Policy {
    match kind
    case CreditKind => Credit(CreditPolicy.INITIAL_STATE)
    case RateKind => Rate(RatePolicy.INITIAL_STATE)
    case CustomKind(capacity) => Custom(capacity)
  }

  function SmallConfig(g: Setting): Config {
    Config(
      [ConfigDevice(
         g.profile, if g.estimator.BuiltIn? then None else Some("other"), Some(PolicyName(g.policy)), [])],
      ["plugins"], ["plugins"])
  }

  function Loading(g: Setting): ConfigInputs {
    ConfigInputs(
      (path, name) => Loads(name, g.policy),
      (path, name) => Loads(name, g.estimator),
      i => SetupInputs(OK, OK, Failure(Error.Estimator)))
  }

  function SmallDevice(g: Setting): Device {
    Device(
      g.profile, 1, g.estimator, if g.estimator.BuiltIn? then 1 else 2, Some(SmallPolicy(g.policy)), 1)
  }

  lemma DeviceIsStaged(g: Setting, known: Registries)
    requires known == Registries(map[], map[BUILT_IN_NAME := BuiltIn])
    requires ValidProfile(g.profile) && g.profile.timeSpanNs != 0
    ensures StageDevice(EMPTY_LEDGER, SmallConfig(g), 0, known, Loading(g)).outcome == Success(SmallDevice(g))
  {
    var c, inputs := SmallConfig(g), Loading(g);
    assert TryPaths(known.policies, PolicyName(g.policy), ["plugins"], inputs.loadPolicy, NotFound).found
        == Success(Some(Plugin(PolicyName(g.policy), g.policy)));
    assert TryPaths(known.estimators, "other", ["plugins"], inputs.loadEstimator, NotFound).found
        == Success(Some(Plugin("other", g.estimator)));
    hide TryPaths, HasActive, ValidProfile;
    assert InitPolicy(g.policy, g.profile, [], OK) == Success(SmallPolicy(g.policy));
    hide InitPolicy;
    StagedEstimator(g, known);
  }

  lemma StagedEstimator(g: Setting, known: Registries)
    requires known == Registries(map[], map[BUILT_IN_NAME := BuiltIn])
    requires TryPaths(known.estimators, "other", ["plugins"], Loading(g).loadEstimator, NotFound).found
          == Success(Some(Plugin("other", g.estimator)))
    ensures var staged := StageEstimator(EMPTY_LEDGER, SmallConfig(g), 0, NewDevice(g.profile), known, Loading(g));
            && staged.outcome
               == Success(NewDevice(g.profile).(
                    estimator := g.estimator, estimatorVersion := if g.estimator.BuiltIn? then 1 else 2))
            && staged.registries.policies == map[]
  {
    hide TryPaths;
  }

  ghost function SmallLedger(g: Setting): Ledger {
    LoadConfig(EMPTY_LEDGER, SmallConfig(g), Replace, Loading(g)).1
  }

  lemma SmallLedgerIsReached(g: Setting)
    requires ValidProfile(g.profile) && g.profile.timeSpanNs != 0
    ensures Reachable(SmallLedger(g))
    ensures SmallLedger(g).devices == map[g.profile.deviceId := SmallDevice(g)] && SmallLedger(g).reservations == map[]
  {
    ConfigIsLoaded(g);
    EmptyIsReachable();
    hide Reachable, Inv, LoadConfig, SmallDevice, ValidProfile;
    hide SmallConfig, Loading;
    LoadIsReached(EMPTY_LEDGER, SmallConfig(g), Loading(g));
  }

  lemma LoadIsReached(s: Ledger, c: Config, inputs: ConfigInputs)
    requires Reachable(s)
    ensures Reachable(LoadConfig(s, c, Replace, inputs).1)
  {
    hide Reachable, Inv, LoadConfig;
    ReachableGoesOn(s, ConfigStep(c, Replace, inputs));
  }

  lemma ConfigIsLoaded(g: Setting)
    requires ValidProfile(g.profile) && g.profile.timeSpanNs != 0
    ensures SmallLedger(g).devices == map[g.profile.deviceId := SmallDevice(g)] && SmallLedger(g).reservations == map[]
  {
    var c := SmallConfig(g);
    DeviceIsStaged(g, Registries(map[], map[BUILT_IN_NAME := BuiltIn]));
    assert ValidProfile(c.devices[0].profile);
    hide StageDevice, HasActive, SmallDevice, ValidProfile;
    assert c.devices[0].profile == g.profile;
    assert StageDevices(EMPTY_LEDGER, c, 0, Loading(g)).outcome == Success(map[]);
    assert StageDevices(EMPTY_LEDGER, c, 1, Loading(g)).outcome == Success(map[g.profile.deviceId := SmallDevice(g)]);
  }

  // ---------------------------------------------------------------------------
  // One request of one baseline run.

  function OneRun(device: u64, id: u64, walltimeNs: u64): Request {
    Request(0, device, 0, 0, 0, id, QuantumJob, walltimeNs, 0, 0, 0, [Copies(ONE_SHOT, 1)])
  }

  function SmallRequest(id: u64): Request {
    OneRun(1, id, 10)
  }

  /** A call at time zero: the provider's limit on credits, and what estimator and policy plugins answer. */
  function Inputs(
    limit: u64, answer: Result<Estimate>, reply: PolicyReply, view: Result<CapacityView>): AdmissionInputs
  {
    AdmissionInputs(
      0, 0, Some(Success(DEFAULT_SNAPSHOT.(externalCreditLimit := limit))), EstimatorAnswers(answer, answer, answer),
      reply, view)
  }

  const NO_REPLY := PolicyReply(OK, BLANK_GRANT, BLANK_DECISION)

  const NO_VIEW: Result<CapacityView> := Failure(Error.Policy)

  function GrantOf(credits: u64, units: u64): PolicyReply {
    PolicyReply(OK, Grant(1, 0, credits, 0, units, 0), BLANK_DECISION.(kind := Accepted))
  }

  lemma Nothing(a: nat, b: nat)
    requires a == 0 || b == 0
    ensures a * b == 0
  {
  }

  lemma OneRunTakesOneNs(t: TaskClass, timing: Timing)
    requires t.oneQGateCount == 0 && t.twoQGateCount == 0 && t.measurementCount == 1 && t.shots == 1 && t.count == 1
    requires timing == SmallProfile(0).timing
    ensures ShapeTotalNs(t, timing) == 1
  {
    Nothing(t.oneQGateCount, timing.oneQGateNs);
    Nothing(t.twoQGateCount, timing.twoQGateNs);
    Nothing(t.oneQGateCount, timing.oneQGateTransferNs);
    Nothing(t.twoQGateCount, timing.twoQGateTransferNs);
    assert GatesPerShot(t, timing) == 0;
    assert MeasurePerShot(t, timing) == 1;
    assert TransferPerRun(t, timing) == 0;
    hide GatesPerShot, MeasurePerShot, TransferPerRun;
    assert ExecutionPerRun(t, timing) == 1;
    hide ExecutionPerRun;
    assert NsPerRun(t, timing) == 1;
  }

  lemma TotalOfShape(p: Profile, t: TaskClass, timing: Timing)
    requires ValidShape(p, t) && ShapeTotalNs(t, timing) <= U64_MAX
    ensures EstimateShape(p, t, timing).Success?
    ensures EstimateShape(p, t, timing).value.totalNs == ShapeTotalNs(t, timing)
  {
    hide ShapeTotalNs, ExecutionPerRun, MeasurePerShot, TransferPerRun, NsPerRun, ValidShape;
  }

  lemma SmallUnit(p: Profile)
    requires p == SmallProfile(p.deviceRate)
    ensures UnitNs(p) == Some(1)
  {
    hide ShapeTotalNs, EstimateShape;
    var task := BaselineTask(p.baseline);
    OneRunTakesOneNs(task, p.timing);
    TotalOfShape(p, task, p.timing);
  }

  lemma SmallEstimate(p: Profile, r: Request)
    requires p == SmallProfile(p.deviceRate) && r == SmallRequest(r.reservationId)
    ensures EstimateTasks(p, r.taskClasses).Success?
    ensures EstimateTasks(p, r.taskClasses).value.baselineUnits == 1
  {
    hide EstimateTask, EstimateTasks, UnitNs;
    SmallUnit(p);
    CopiesOfBaselineCostExactly(p, 1);
    SingleTask(p, Copies(p.baseline, 1));
    assert r.taskClasses == [Copies(p.baseline, 1)];
  }

  /** The estimate of a request with a single task class is that of the task, save for the confidence. */
  lemma SingleTask(p: Profile, task: TaskClass)
    requires EstimateTask(p, task).Success?
    ensures var e, r := EstimateTask(p, task).value, EstimateTasks(p, [task]);
            r.Success? && r.value.baselineUnits == e.baselineUnits && r.value.totalNs == e.totalNs
  {
    hide EstimateTask;
    assert [task][..0] == [];
    assert EstimateTasks(p, []) == Success(NO_ESTIMATE);
  }

  /** With a baseline of one nanosecond the derived totals are the time span. */
  lemma TotalsOfOneNs(dev: Device, plugin: Result<Estimate>)
    requires BaselineAnswer(dev, plugin).Success? && BaselineAnswer(dev, plugin).value.totalNs == 1
    requires dev.profile.totalCredits == 0 && dev.profile.timeSpanNs != 0
    ensures DeriveTotalCredits(dev, plugin) == Success(dev.profile.timeSpanNs)
    ensures DeriveTotalRate(dev, plugin)
         == Success(if dev.profile.deviceRate != 0 then dev.profile.deviceRate else dev.profile.timeSpanNs)
  {
    hide BaselineAnswer;
  }

  lemma BaselineOfOneNs(dev: Device, plugin: Result<Estimate>)
    requires if dev.estimator.BuiltIn? then UnitNs(dev.profile) == Some(1)
             else plugin.Success? && plugin.value.totalNs == 1
    ensures BaselineAnswer(dev, plugin).Success? && BaselineAnswer(dev, plugin).value.totalNs == 1
  {
    hide EstimateBaseline;
  }

  lemma SmallTotals(dev: Device, plugin: Result<Estimate>)
    requires dev.profile == SmallProfile(dev.profile.deviceRate) && dev.estimator.BuiltIn?
    ensures DeriveTotalCredits(dev, plugin) == Success(10)
    ensures DeriveTotalRate(dev, plugin) == Success(if dev.profile.deviceRate != 0 then dev.profile.deviceRate else 10)
  {
    hide BaselineAnswer, UnitNs, DeriveTotalCredits, DeriveTotalRate;
    SmallUnit(dev.profile);
    BaselineOfOneNs(dev, plugin);
    TotalsOfOneNs(dev, plugin);
  }

  /** The view of the small device, before a plugin's own capacity callback. */
  lemma SmallView(s: Ledger, dev: Device, inputs: AdmissionInputs, limit: u64)
    requires dev.profile == SmallProfile(dev.profile.deviceRate) && dev.estimator.BuiltIn?
    requires inputs == Inputs(limit, NO_ANSWER, inputs.policy, inputs.capacity)
    ensures BuildView(s, dev, 0, inputs)
         == Success(ViewFrom(
              FiguresOf(s.reservations, 1, 0), DEFAULT_SNAPSHOT.(externalCreditLimit := limit), 0, 10,
              if dev.profile.deviceRate != 0 then dev.profile.deviceRate else 10))
  {
    SmallTotals(dev, inputs.estimator.baselineForCredits);
    hide FiguresOf, DeriveTotalCredits, DeriveTotalRate, ViewFrom;
  }

  /** One run is prepared with whatever the estimator answers and whatever view the policy leaves. */
  lemma OneRunIsPrepared(s: Ledger, g: Setting, r: Request, inputs: AdmissionInputs)
    requires s.devices == map[g.profile.deviceId := SmallDevice(g)]
    requires g.profile.deviceId != 0 && r.walltimeNs != 0
    requires r == OneRun(g.profile.deviceId, r.reservationId, r.walltimeNs)
    requires EstimateRequest(SmallDevice(g), r, inputs.estimator.request).Success?
    requires PolicyAdjustedView(s, SmallDevice(g), SmallPolicy(g.policy), 0, inputs).Success?
    ensures var p := Prepare(s, r, inputs);
            && p.Prepared?
            && p.device == SmallDevice(g) && p.policy == SmallPolicy(g.policy) && p.budget == r.walltimeNs
            && Success(p.estimate) == EstimateRequest(SmallDevice(g), r, inputs.estimator.request)
            && Success(p.view) == PolicyAdjustedView(s, SmallDevice(g), SmallPolicy(g.policy), 0, inputs)
  {
    hide EstimateRequest, PolicyAdjustedView;
    assert ValidRequest(r);
  }

  lemma SmallRequestIsPrepared(s: Ledger, g: Setting, r: Request, inputs: AdmissionInputs)
    requires s.devices == map[g.profile.deviceId := SmallDevice(g)] && g.Small()
    requires r == SmallRequest(r.reservationId)
    requires PolicyAdjustedView(s, SmallDevice(g), SmallPolicy(g.policy), 0, inputs).Success?
    ensures var p := Prepare(s, r, inputs);
            && p.Prepared?
            && p.device == SmallDevice(g) && p.policy == SmallPolicy(g.policy)
            && p.estimate.baselineUnits == 1
            && Success(p.view) == PolicyAdjustedView(s, SmallDevice(g), SmallPolicy(g.policy), 0, inputs)
  {
    hide EstimateTasks, PolicyAdjustedView, Prepare;
    SmallEstimate(g.profile, r);
    OneRunIsPrepared(s, g, r, inputs);
  }

  /**
   A prepared request under a new id whose policy accepts with a valid grant, and whose expiry fits, is published
   as a fresh reservation with that grant.
   */
  lemma AcceptedIsPublished(
    s: Ledger, r: Request, inputs: AdmissionInputs, p: Prepared, reply: PolicyReply)
    returns (t: Ledger, e: Entry)
    requires Reachable(s) && p.Prepared? && Prepare(s, r, inputs) == p
    requires r.reservationId != 0 && r.reservationId !in s.reservations
    requires reply == ReserveCallback(p.policy, p.device.profile, r, p.estimate, p.view, inputs.policy)
    requires reply.status == OK && reply.decision.kind == Accepted
    requires GrantValid(r, p.view, p.estimate, reply.grant) && ExpiryFits(r, p.device.profile, p.view, reply.grant)
    ensures Reachable(t) && t.devices == s.devices && t.reservations == s.reservations[r.reservationId := e]
    ensures Reserve(s, r, inputs).ledger == t && Reserve(s, r, inputs).published == Some(r.reservationId)
    ensures Fresh(e) && e.policy == p.policy && e.rateWindowNs == p.device.profile.timeSpanNs
    ensures e.res.deviceId == r.deviceId && e.res.scopeId == r.scopeId
    ensures e.res.creditsReserved == reply.grant.creditsGranted && e.res.rateReserved == reply.grant.rateGranted
  {
    hide Reachable, Inv, Prepare, ReserveCallback, GrantValid, ExpiryFits, CreateEntry, Decorate, Fresh;
    ReachableGoesOn(s, ReserveStep(r, inputs));
    CreateEntryIff(
      p.device, p.policy, r, p.estimate, p.view, reply.grant, r.reservationId, p.budget);
    CreatedEntryFacts(
      p.device, p.policy, r, p.estimate, p.view, reply.grant, r.reservationId, p.budget);
    e := CreateEntry(p.device, p.policy, r, p.estimate, p.view, reply.grant, r.reservationId, p.budget).value;
    t := Reserve(s, r, inputs).ledger;
  }

  function TotalRate(g: Setting): u64 {
    if g.profile.deviceRate != 0 then g.profile.deviceRate else 10
  }

  /** An available device whose whole totals are on offer. */
  predicate WholeOffer(kind: PolicyKind, credits: u64, rate: u64, view: CapacityView) {
    && view.deviceState == Available && view.nowNs == 0
    && view.totalCredits == credits && view.totalRate == rate
    && (kind.CreditKind? ==> view.effectiveAvailableCredits == credits)
    && (kind.RateKind? ==> view.effectiveAvailableRate == rate)
  }

  /** On a device without reservations the shipped policies offer the whole totals. */
  lemma IdleView(s: Ledger, dev: Device, kind: PolicyKind, answer: Result<Estimate>, credits: u64, rate: u64)
    requires s.reservations == map[] && !kind.CustomKind? && credits != 0 && rate != 0
    requires DeriveTotalCredits(dev, answer) == Success(credits)
    requires DeriveTotalRate(dev, answer) == Success(rate)
    ensures var view := PolicyAdjustedView(s, dev, SmallPolicy(kind), 0, Inputs(0, answer, NO_REPLY, NO_VIEW));
            view.Success? && WholeOffer(kind, credits, rate, view.value)
  {
    NoReservationsNoFigures(dev.profile.deviceId, 0);
    hide FiguresOf, DeriveTotalCredits, DeriveTotalRate;
  }

  /** The rate policy hands out the only slice there is, which does the work. */
  lemma OnlySliceIsGranted(state: RatePolicy.RateState, p: Profile, r: Request, e: Estimate, view: CapacityView)
    requires state == RatePolicy.INITIAL_STATE && p.concurrentJobs == 1 && p.timeSpanNs == 10
    requires view.totalRate >= 10 && QuantumBudget(r) == Success(10)
    requires 1 <= e.baselineUnits <= 10 && view.deviceState == Available
    requires view.effectiveAvailableRate == view.totalRate
    ensures var (d, rate) := RatePolicy.Evaluate(state, p, r, e, view);
            d.kind == Accepted && rate == view.totalRate
  {
    var total := view.totalRate;
    WholeSlice(state, p, view);
    hide RatePolicy.Evaluate, RatePolicy.DefaultSlice, QuantumBudget;
    assert RatePolicy.CoversDemand(p, e, 10, 1 * total);
    RatePolicy.SomeSliceIsAccepted(state, p, r, e, view, 1);
    RatePolicy.GrantIsLeastCoveringSlice(state, p, r, e, view);
    var rate := RatePolicy.Evaluate(state, p, r, e, view).1;
    var k: nat :| rate == k * total;
    OnlyMultiple(rate, k, total);
  }

  lemma WholeSlice(state: RatePolicy.RateState, p: Profile, view: CapacityView)
    requires state.rateSlice == 0 && p.concurrentJobs == 1 && view.totalRate != 0
    ensures RatePolicy.DefaultSlice(state, p, view) == view.totalRate
  {
  }

  lemma OnlyMultiple(rate: nat, k: nat, total: nat)
    requires rate == k * total && 1 <= rate <= total
    ensures rate == total
  {
    if k >= 2 {
      MulMonotone(total, 2, k);
    }
  }

  /** A context with one fresh active reservation, under the credit or the rate policy, is reached. */
  lemma ShippedReservationIsReached(g: Setting) returns (t: Ledger, e: Entry)
    requires g.Small() && !g.policy.CustomKind? && TotalRate(g) >= 10
    ensures Reachable(t) && t.devices == map[g.profile.deviceId := SmallDevice(g)] && t.reservations == map[1 := e]
    ensures Fresh(e) && e.policy == SmallPolicy(g.policy) && e.rateWindowNs == 10 && e.res.deviceId == 1
    ensures e.res.creditsReserved == if g.policy.CreditKind? then 1 else 0
    ensures e.res.rateReserved == if g.policy.RateKind? then TotalRate(g) else 0
  {
    hide Reachable, Fresh, Reserve, Prepare, PolicyAdjustedView, SmallLedger, RatePolicy.Evaluate;
    SmallLedgerIsReached(g);
    var s, r, inputs := SmallLedger(g), SmallRequest(1), Inputs(0, NO_ANSWER, NO_REPLY, NO_VIEW);
    SmallTotals(SmallDevice(g), NO_ANSWER);
    IdleView(s, SmallDevice(g), g.policy, NO_ANSWER, 10, TotalRate(g));
    SmallRequestIsPrepared(s, g, r, inputs);
    var p := Prepare(s, r, inputs);
    if g.policy.RateKind? {
      OnlySliceIsGranted(RatePolicy.INITIAL_STATE, p.device.profile, r, p.estimate, p.view);
    }
    var reply := ReserveCallback(p.policy, p.device.profile, r, p.estimate, p.view, inputs.policy);
    ShippedGrantsPassGuard(p.policy, p.device.profile, r, p.estimate, p.view, inputs.policy);
    t, e := AcceptedIsPublished(s, r, inputs, p, reply);
  }

  /** A context with an active credit reservation and one with an active rate reservation can be reached. */
  lemma ActiveReservationIsReachable(rate: bool) returns (s: Ledger, id: u64)
    ensures Reachable(s) && id in s.reservations && s.reservations[id].res.state == Active
    ensures s.reservations[id].res.deviceId == 1
    ensures if rate then RateDevice(s, 1) && s.reservations[id].res.rateReserved > 0
            else CreditDevice(s, 1) && s.reservations[id].res.creditsReserved > 0
  {
    hide Reachable;
    var e;
    s, e := ShippedReservationIsReached(Small(if rate then RateKind else CreditKind, 0));
    id := 1;
  }

  /** A plugin policy's grant of credits, on any reservations, as far as the core lets it pass. */
  lemma CustomGrantIsPublished(s: Ledger, g: Setting, id: u64, limit: u64, credits: u64, view: Result<CapacityView>)
    returns (t: Ledger, e: Entry)
    requires Reachable(s) && s.devices == map[g.profile.deviceId := SmallDevice(g)]
    requires g.policy.CustomKind? && g.Small()
    requires id != 0 && id !in s.reservations
    requires g.policy.capacity ==> view == Success(NO_LIMITS)
    requires !g.policy.capacity ==>
      credits <= CappedAvailable(
                   SatSub(10, Clipped(s.reservations, 1, None, CreditsReserved)), limit,
                   Clipped(s.reservations, 1, Some(0), CreditsReserved))
    ensures Reachable(t) && t.devices == s.devices && t.reservations == s.reservations[id := e]
    ensures Reserve(s, SmallRequest(id), Inputs(limit, NO_ANSWER, GrantOf(credits, 1), view)).ledger == t
    ensures Reserve(s, SmallRequest(id), Inputs(limit, NO_ANSWER, GrantOf(credits, 1), view)).published == Some(id)
    ensures Fresh(e) && e.res.creditsReserved == credits && e.res.deviceId == 1 && e.res.scopeId == 0
  {
    hide Reachable, Fresh, Reserve, Prepare, Clipped;
    var r, inputs := SmallRequest(id), Inputs(limit, NO_ANSWER, GrantOf(credits, 1), view);
    SmallView(s, SmallDevice(g), inputs, limit);
    hide BuildView;
    assert PolicyAdjustedView(s, SmallDevice(g), SmallPolicy(g.policy), 0, inputs).Success?;
    SmallRequestIsPrepared(s, g, r, inputs);
    var p := Prepare(s, r, inputs);
    t, e := AcceptedIsPublished(s, r, inputs, p, GrantOf(credits, 1));
  }

  /** The view a plugin's capacity callback may put in place of the core's: no totals, no limits. */
  const NO_LIMITS: CapacityView :=
    CapacityView(Available, 0, 0, 0, 0, 0, 0, 0, 0, 0, 0, 0, 0, 0, 0, 0, 0, 0, 0, 0, FULL_CONFIDENCE_PPM)

  // ---------------------------------------------------------------------------
  // Operations on a reservation of a reached context.

  predicate IsUsage(op: UsageOp) {
    op.ConsumeOp? || op.ReturnOp?
  }

  function UsageStep(id: u64, op: UsageOp): Step
    requires IsUsage(op)
  {
    match op
    case ConsumeOp(u, now, verdict) => ConsumeStep(id, u, now, verdict)
    case ReturnOp(u, now, status) => ReturnStep(id, u, now, status)
  }

  lemma UsageStepApplies(s: Ledger, id: u64, op: UsageOp)
    requires Inv(s) && id in s.reservations && IsUsage(op)
    ensures Indexed(s.reservations[id])
    ensures DoStep(s, UsageStep(id, op)) == Stored(s, id, Apply(s.reservations[id], op))
  {
    hide Inv, Indexed, Consume, ReturnUsage;
    EntryIsIndexed(s, id);
  }

  lemma EntryIsIndexed(s: Ledger, id: u64)
    requires Inv(s) && id in s.reservations
    ensures id != 0 && Indexed(s.reservations[id])
  {
    hide DevicesValid, ActiveBacked, CapsHold;
    SoundMeansIndexed(s);
    assert SoundAt(id, s.reservations[id]);
  }

  /** Whatever a run of consumes and returns makes of a reservation, a context with that is reached. */
  lemma {:induction false} UsageRunIsReached(s: Ledger, id: u64, ops: seq<UsageOp>) returns (t: Ledger)
    requires Reachable(s) && id in s.reservations
    requires forall i :: 0 <= i < |ops| ==> IsUsage(ops[i])
    ensures Indexed(s.reservations[id])
    ensures Reachable(t) && t == Stored(s, id, Run(s.reservations[id], ops))
  {
    hide Reachable, Inv, Apply, DoStep, Indexed;
    ReachableIsGood(s);
    if |ops| == 0 {
      EntryIsIndexed(s, id);
      assert s.reservations[id := s.reservations[id]] == s.reservations;
      t := s;
    } else {
      var front, last := ops[..|ops| - 1], ops[|ops| - 1];
      var before := UsageRunIsReached(s, id, front);
      ReachableGoesOn(before, UsageStep(id, last));
      UsageStepApplies(before, id, last);
      t := DoStep(before, UsageStep(id, last));
    }
  }

  // ---------------------------------------------------------------------------
  // Reached contexts in which a reservation's bookkeeping fails what one might expect.

  /** A window of a rate reservation meters a unit that the lifetime counter no longer shows. */
  lemma MixedReturnsAreReached() returns (s: Ledger)
    ensures Reachable(s) && RateDevice(s, 1) && 1 in s.reservations && s.reservations[1].rateWindowNs == 10
    ensures var e := s.reservations[1];
            && e.res.rateConsumed == 0
            && Fold(e.res.rateReserved, e.rateWindowNs, e.log, WindowOf(1, e.rateWindowNs)) == 1
  {
    hide Reachable, Run, Fold;
    var t, e := ShippedReservationIsReached(Small(RateKind, 0));
    var ops := UsageTheorems.MixedOps(1);
    UsageTheorems.MixedReturnsExceedLifetime(e);
    s := UsageRunIsReached(t, 1, ops);
    UsageTheorems.RunKeepsTerms(e, ops);
  }

  /** A device with the largest rate has a reservation whose window fold overflows. */
  lemma OverflowIsReached() returns (s: Ledger)
    ensures Reachable(s) && RateDevice(s, 1) && 1 in s.reservations && s.reservations[1].rateWindowNs == 10
    ensures var e := s.reservations[1];
            !StaysWithin(e.res.rateReserved, e.rateWindowNs, e.log, WindowOf(1, e.rateWindowNs), U64_MAX)
  {
    hide Reachable, Run, StaysWithin;
    var t, e := ShippedReservationIsReached(Small(RateKind, U64_MAX));
    var ops := UsageTheorems.OverflowOps();
    UsageTheorems.LargestRateOverflows(e);
    s := UsageRunIsReached(t, 1, ops);
    UsageTheorems.RunKeepsTerms(e, ops);
  }

  /** A consume on a reached credit reservation errors and has raised its credit counter all the same. */
  lemma HalfChargeIsReached() returns (s: Ledger)
    ensures Reachable(s) && CreditDevice(s, 1) && 1 in s.reservations && Indexed(s.reservations[1])
    ensures var e := s.reservations[1];
            var failed := Consume(e, UsageOnce.BOTH_UNITS, 0, Absent);
            failed.status == Err(Inval) && failed.entry.res.creditsConsumed == e.res.creditsConsumed + 1
  {
    hide Reachable, Consume, Apply;
    var t, e := ShippedReservationIsReached(Small(CreditKind, 0));
    UsageOnce.HalfChargeIsReachable(e);
    var op := ConsumeOp(UsageOnce.RATE_FILLER, 0, Absent);
    s := UsageRunIsReached(t, 1, [op]);
    assert Run(e, []) == e && [op][..0] == [];
  }

  /**
   A repeated call is refused on a reached reservation: with a NaN in its metadata at once, without an event time
   once the clock has left zero.
   */
  lemma RefusedRetriesAreReached(now: u64, laterClock: u64) returns (s: Ledger)
    requires laterClock != 0
    ensures Reachable(s) && 1 in s.reservations && Indexed(s.reservations[1])
    ensures UsageOnce.RefusedAgain(s.reservations[1], UsageOnce.NAN_USAGE, now, now)
    ensures UsageOnce.RefusedAgain(s.reservations[1], UsageOnce.UNTIMED_USAGE, 0, laterClock)
  {
    hide Reachable, Consume, Fresh, Indexed, Inv, UsageOnce.RefusedAgain;
    var e;
    s, e := ShippedReservationIsReached(Small(CreditKind, 0));
    ReachableIsGood(s);
    EntryIsIndexed(s, 1);
    UsageOnce.NaNRetryIsRefused(e, now);
    UsageOnce.DriftingRetryIsRefused(e, laterClock);
  }

  // ---------------------------------------------------------------------------
  // Reached contexts in which a limit does not hold.

  lemma NoCreditsYet(device: u64, scope: u64)
    ensures Clipped(map[], device, None, CreditsReserved) == 0
    ensures Clipped(map[], device, Some(scope), CreditsReserved) == 0
    ensures Total(map[], device, None, CreditsReserved) == 0
    ensures Total(map[], device, Some(scope), CreditsReserved) == 0
  {
    NothingActiveNothingSummed(map[], device, None, CreditsReserved);
    NothingActiveNothingSummed(map[], device, Some(scope), CreditsReserved);
  }

  lemma OneReservation(id: u64, e: Entry, scope: Option<u64>)
    requires Fresh(e) && (scope.Some? ==> e.res.scopeId == scope.value)
    ensures Total(map[id := e], e.res.deviceId, scope, CreditsReserved) == e.res.creditsReserved
  {
    NothingActiveNothingSummed(map[], e.res.deviceId, scope, CreditsReserved);
    TotalUpdate(map[], id, e, e.res.deviceId, scope, CreditsReserved);
    assert map[][id := e] == map[id := e];
  }

  /**
   A successful reserve leaves its scope beyond a nonzero external limit: five credits are held, the provider
   then lowers its limit to one, and a plugin policy grants a request no credits.
   */
  lemma ScopeBeyondLimitIsReached() returns (s: Ledger, r: Request, inputs: AdmissionInputs)
    ensures Reachable(s) && Reserve(s, r, inputs).published.Some?
    ensures TakeSnapshot(inputs).Success? && TakeSnapshot(inputs).value.externalCreditLimit == 1
    ensures Total(Reserve(s, r, inputs).ledger.reservations, r.deviceId, Some(r.scopeId), CreditsReserved) == 5
  {
    hide Reachable, Total, Reserve, SmallLedger, Fresh, CappedAvailable;
    var g := Small(CustomKind(false), 0);
    SmallLedgerIsReached(g);
    NoCreditsYet(1, 0);
    CappedWithoutLimit();
    var e, t, f;
    s, e := CustomGrantIsPublished(SmallLedger(g), g, 1, 0, 5, NO_VIEW);
    t, f := CustomGrantIsPublished(s, g, 2, 1, 0, NO_VIEW);
    r, inputs := SmallRequest(2), Inputs(1, NO_ANSWER, GrantOf(0, 1), NO_VIEW);
    OneReservation(1, e, Some(0));
    TotalUpdate(s.reservations, 2, f, 1, Some(0), CreditsReserved);
    assert map[][1 := e] == map[1 := e];
  }

  lemma CappedWithoutLimit()
    ensures CappedAvailable(10, 0, 0) == 10
  {
  }

  /**
   A plugin policy's own capacity callback leads past the core's guard: eleven credits are granted on a device
   whose total is ten.
   */
  lemma CapacityCallbackPassesGuard() returns (s: Ledger)
    ensures Reachable(s) && 1 in s.devices && s.devices[1].policy == Some(Custom(true))
    ensures FixedCredits(s.devices[1]) == Some(10)
    ensures Total(s.reservations, 1, None, CreditsReserved) == 11
  {
    hide Reachable, Total, Reserve, SmallLedger, Fresh;
    var g := Small(CustomKind(true), 0);
    SmallLedgerIsReached(g);
    var e;
    s, e := CustomGrantIsPublished(SmallLedger(g), g, 1, 0, 11, Success(NO_LIMITS));
    OneReservation(1, e, None);
    assert map[][1 := e] == map[1 := e];
    TenCredits(SmallDevice(g));
  }

  /** In every reachable context the device's own nonzero totals bound a plugin policy of one kind. */
  ghost predicate GuardBounds(kind: Policy) {
    forall s: Ledger, id: u64 ::
      Reachable(s) && id in s.devices && s.devices[id].policy == Some(kind) ==>
        WithinTotals(s.reservations, id, s.devices[id])
  }

  ghost predicate WithinTotals(reservations: map<u64, Entry>, id: u64, dev: Device) {
    && (FixedCredits(dev).Some? && FixedCredits(dev).value != 0 ==>
          Total(reservations, id, None, CreditsReserved) <= FixedCredits(dev).value)
    && (FixedRate(dev).Some? && FixedRate(dev).value != 0 ==>
          Total(reservations, id, None, RateReserved) <= FixedRate(dev).value)
  }

  /** The core's guard bounds plugin policies exactly when they have no capacity callback. */
  lemma GuardBoundsIff(capacity: bool)
    ensures GuardBounds(Custom(capacity)) <==> !capacity
  {
    hide Reachable, Total, FixedCredits, FixedRate;
    if capacity {
      var s := CapacityCallbackPassesGuard();
      assert !WithinTotals(s.reservations, 1, s.devices[1]);
    } else {
      forall s: Ledger, id: u64 | Reachable(s) && id in s.devices && s.devices[id].policy == Some(Custom(false))
        ensures WithinTotals(s.reservations, id, s.devices[id])
      {
        GuardBoundsAnyPolicy(s, id);
      }
    }
  }

  lemma TenCredits(dev: Device)
    requires dev.profile == SmallProfile(0) && dev.estimator.BuiltIn?
    ensures FixedCredits(dev) == Some(10)
  {
    hide BaselineAnswer, UnitNs, DeriveTotalCredits, DeriveTotalRate;
    SmallUnit(dev.profile);
    BaselineOfOneNs(dev, NO_ANSWER);
    TotalsOfOneNs(dev, NO_ANSWER);
  }

  lemma OneRateReservation(id: u64, e: Entry)
    requires Fresh(e)
    ensures Total(map[id := e], e.res.deviceId, None, RateReserved) == e.res.rateReserved
  {
    NothingActiveNothingSummed(map[], e.res.deviceId, None, RateReserved);
    TotalUpdate(map[], id, e, e.res.deviceId, None, RateReserved);
    assert map[][id := e] == map[id := e];
  }
}
