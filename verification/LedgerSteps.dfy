/**
 The admission context as a state machine: every public call is one step, and a run is any sequence of steps.
 The invariant holds in every reachable state, and each reservation in it has lived a run of its own.
 */
module LedgerSteps {
  import opened CheckedMath
  import opened Metadata
  import opened Records
  import opened Policies
  import RatePolicy
  import opened BaselineEstimator
  import opened UsageModel
  import opened UsageInvariants
  import opened UsageTheorems
  import opened UsageOnce
  import opened PluginRegistry
  import opened ActiveCapacity
  import opened LedgerModel
  import opened LedgerInvariants

  datatype Step =
    | RegisterStep(profile: Profile)
    | UnregisterStep(device: u64)
    | BaselineStep(device: u64, baseline: Baseline)
    | PolicyStep(
        device: u64, name: string, options: seq<KeyValue>, loadPolicy: (string, string) -> LoadOutcome<PolicyKind>,
        setup: SetupInputs)
    | EstimatorStep(
        device: u64, name: string, loadEstimator: (string, string) -> LoadOutcome<EstimatorKind>, setup: SetupInputs)
    | ConfigStep(config: Config, mode: ConfigMode, configInputs: ConfigInputs)
    | ReserveStep(request: Request, inputs: AdmissionInputs)
    | EndStep(id: u64, target: ReservationState, release: Status)
    | RenewStep(id: u64, now: u64, clock: u64, ttl: u64)
    | ExpireStep(order: seq<u64>, now: u64, releases: u64 -> Status)
    | ConsumeStep(id: u64, usage: Usage, now: u64, verdict: Callback<Decision>)
    | ReturnStep(id: u64, usage: Usage, now: u64, answer: Status)
    | RecordStep(id: u64, actual: ActualUsage, answer: Status)

  lemma SoundMeansIndexed(s: Ledger)
    requires ReservationsSound(s)
    ensures forall i :: i in s.reservations ==> Indexed(s.reservations[i])
  {
    forall i | i in s.reservations
      ensures Indexed(s.reservations[i])
    {
      assert SoundAt(i, s.reservations[i]);
    }
  }

  ghost function DoStep(s: Ledger, step: Step): Ledger
    requires Inv(s)
  {
    SoundMeansIndexed(s);
    match step
    case RegisterStep(p) => RegisterDevice(s, p).1
    case UnregisterStep(id) => UnregisterDevice(s, id).1
    case BaselineStep(id, b) => SetBaseline(s, id, b).1
    case PolicyStep(id, name, options, load, setup) => SetPolicy(s, id, name, options, load, setup).1
    case EstimatorStep(id, name, load, setup) => SetEstimator(s, id, name, load, setup).1
    case ConfigStep(c, mode, inputs) => LoadConfig(s, c, mode, inputs).1
    case ReserveStep(r, inputs) => LedgerModel.Reserve(s, r, inputs).ledger
    case EndStep(id, target, release) => EndReservation(s, id, target, release).1
    case RenewStep(id, now, clock, ttl) => RenewReservation(s, id, now, clock, ttl).1
    case ExpireStep(order, now, releases) => ExpireOver(s, order, now, releases).1
    case ConsumeStep(id, u, now, verdict) => ConsumeOn(s, id, u, now, verdict).2
    case ReturnStep(id, u, now, answer) => ReturnOn(s, id, u, now, answer).1
    case RecordStep(id, a, answer) => RecordOn(s, id, a, answer).2
  }

  // ---------------------------------------------------------------------------
  // Steps on devices.

  predicate IsDeviceStep(step: Step) {
    step.RegisterStep? || step.UnregisterStep? || step.BaselineStep? || step.PolicyStep? || step.EstimatorStep?
    || step.ConfigStep?
  }

  lemma NewDeviceValid(p: Profile, version: u64)
    requires ValidProfile(p)
    ensures ValidDevice(p.deviceId, NewDevice(p).(profileVersion := version))
    ensures ValidDevice(p.deviceId, NewDevice(p))
  {
  }

  lemma PolicyKeepsValid(
    id: u64, dev: Device, plugin: Option<Plugin<PolicyKind>>, options: seq<KeyValue>, setup: SetupInputs)
    requires ValidDevice(id, dev)
    requires SetDevicePolicy(dev, plugin, options, setup).Success?
    ensures ValidDevice(id, SetDevicePolicy(dev, plugin, options, setup).value)
  {
    hide ValidProfile, RateOptionsStatus;
  }

  lemma EstimatorKeepsValid(id: u64, dev: Device, plugin: Option<Plugin<EstimatorKind>>, setup: SetupInputs)
    requires ValidDevice(id, dev)
    requires SetDeviceEstimator(dev, plugin, setup).Success?
    ensures ValidDevice(id, SetDeviceEstimator(dev, plugin, setup).value)
  {
    hide ValidProfile;
  }

  lemma BaselineKeepsValid(id: u64, dev: Device, b: Baseline)
    requires ValidDevice(id, dev) && ValidBaseline(b) && BaselineFits(dev.profile, b)
    ensures ValidDevice(id, WithBaseline(dev, b))
  {
  }

  /** Only devices without active reservations change, and only to valid ones; reservations stay as they are. */
  ghost predicate OnlyIdleDevicesChange(s: Ledger, t: Ledger) {
    && t.reservations == s.reservations
    && t.nextId == s.nextId
    && (forall id :: HasActive(s.reservations, id) ==>
          (id in t.devices <==> id in s.devices) && (id in s.devices ==> t.devices[id] == s.devices[id]))
    && (forall id :: id in t.devices ==> ValidDevice(id, t.devices[id]))
  }

  lemma PuttingIdleDevice(s: Ledger, t: Ledger, id: u64, dev: Device)
    requires DevicesValid(s) && !HasActive(s.reservations, id) && ValidDevice(id, dev)
    requires t.reservations == s.reservations && t.nextId == s.nextId && t.devices == s.devices[id := dev]
    ensures OnlyIdleDevicesChange(s, t)
  {
    hide ValidDevice, HasActive;
  }

  lemma RegisterIsIdle(s: Ledger, p: Profile)
    requires Inv(s)
    ensures OnlyIdleDevicesChange(s, RegisterDevice(s, p).1)
  {
    hide HasActive, ValidDevice, ValidProfile, ReservationsSound, CapsHold;
    var reply := RegisterDevice(s, p);
    if reply.0 == OK {
      var version := if p.deviceId in s.devices then Increment(s.devices[p.deviceId].profileVersion) else 1;
      NewDeviceValid(p, version);
      if HasActive(s.reservations, p.deviceId) {
        ActiveDeviceRegistered(s, p.deviceId);
      }
      PuttingIdleDevice(s, reply.1, p.deviceId, NewDevice(p).(profileVersion := version));
    }
  }

  lemma BaselineIsIdle(s: Ledger, id: u64, b: Baseline)
    requires Inv(s)
    ensures OnlyIdleDevicesChange(s, SetBaseline(s, id, b).1)
  {
    hide HasActive, ValidDevice, ValidBaseline, BaselineFits, WithBaseline;
    var reply := SetBaseline(s, id, b);
    if reply.0 == OK {
      BaselineKeepsValid(id, s.devices[id], b);
      PuttingIdleDevice(s, reply.1, id, WithBaseline(s.devices[id], b));
    }
  }

  lemma PolicyIsIdle(
    s: Ledger, id: u64, name: string, options: seq<KeyValue>, load: (string, string) -> LoadOutcome<PolicyKind>,
    setup: SetupInputs)
    requires Inv(s)
    ensures OnlyIdleDevicesChange(s, SetPolicy(s, id, name, options, load, setup).1)
  {
    hide HasActive, ValidDevice, SetDevicePolicy;
    var reply := SetPolicy(s, id, name, options, load, setup);
    if reply.0 == OK {
      var plugin := FindOrLoad(s.policies, name, [], s.policyPaths, load).found.value;
      PolicyKeepsValid(id, s.devices[id], plugin, options, setup);
      PuttingIdleDevice(s, reply.1, id, SetDevicePolicy(s.devices[id], plugin, options, setup).value);
    }
  }

  lemma EstimatorIsIdle(
    s: Ledger, id: u64, name: string, load: (string, string) -> LoadOutcome<EstimatorKind>, setup: SetupInputs)
    requires Inv(s)
    ensures OnlyIdleDevicesChange(s, SetEstimator(s, id, name, load, setup).1)
  {
    hide HasActive, ValidDevice, SetDeviceEstimator;
    var reply := SetEstimator(s, id, name, load, setup);
    if reply.0 == OK {
      var plugin := FindOrLoad(s.estimators, name, [], s.estimatorPaths, load).found.value;
      EstimatorKeepsValid(id, s.devices[id], plugin, setup);
      PuttingIdleDevice(s, reply.1, id, SetDeviceEstimator(s.devices[id], plugin, setup).value);
    }
  }

  /** A staged device belongs to its configuration entry, is valid and was idle. */
  lemma StagedDeviceValid(s: Ledger, c: Config, i: nat, known: Registries, inputs: ConfigInputs)
    requires i < |c.devices|
    requires StageDevice(s, c, i, known, inputs).outcome.Success?
    ensures ValidDevice(c.devices[i].profile.deviceId, StageDevice(s, c, i, known, inputs).outcome.value)
    ensures c.devices[i].profile.deviceId in s.devices ==> !HasActive(s.reservations, c.devices[i].profile.deviceId)
  {
    hide HasActive, ValidDevice, ValidProfile, SetDevicePolicy, SetDeviceEstimator;
    var p := c.devices[i].profile;
    NewDeviceValid(p, 1);
    var staged := StageEstimator(s, c, i, NewDevice(p), known, inputs);
    if c.devices[i].estimatorName.Some? {
      var search := FindOrLoad(
        known.estimators, c.devices[i].estimatorName.value, c.estimatorPaths, s.estimatorPaths, inputs.loadEstimator);
      EstimatorKeepsValid(p.deviceId, NewDevice(p), search.found.value, inputs.setup(i));
    }
    if c.devices[i].policyName.Some? {
      var search := FindOrLoad(
        staged.registries.policies, c.devices[i].policyName.value, c.policyPaths, s.policyPaths, inputs.loadPolicy);
      PolicyKeepsValid(
        p.deviceId, staged.outcome.value, search.found.value, c.devices[i].policyOptions, inputs.setup(i));
    }
  }

  lemma {:induction false} StagedDevicesValid(s: Ledger, c: Config, n: nat, inputs: ConfigInputs)
    requires n <= |c.devices|
    requires StageDevices(s, c, n, inputs).outcome.Success?
    ensures var staged := StageDevices(s, c, n, inputs).outcome.value;
            forall id :: id in staged ==>
              && ValidDevice(id, staged[id])
              && (id in s.devices ==> !HasActive(s.reservations, id))
              && exists i :: 0 <= i < n && c.devices[i].profile.deviceId == id
    ensures forall i :: 0 <= i < n ==> c.devices[i].profile.deviceId in StageDevices(s, c, n, inputs).outcome.value
  {
    hide HasActive, ValidDevice, StageDevice;
    if n != 0 {
      StagedDevicesValid(s, c, n - 1, inputs);
      StagedDeviceValid(s, c, n - 1, StageDevices(s, c, n - 1, inputs).registries, inputs);
      assert c.devices[n - 1].profile.deviceId == c.devices[n - 1].profile.deviceId;
    }
  }

  lemma ConfigIsIdle(s: Ledger, c: Config, mode: ConfigMode, inputs: ConfigInputs)
    requires Inv(s)
    ensures OnlyIdleDevicesChange(s, LoadConfig(s, c, mode, inputs).1)
  {
    hide HasActive, ValidDevice, StageDevices, ReservationsSound, CapsHold, ValidProfile;
    var reply := LoadConfig(s, c, mode, inputs);
    if reply.0 == OK {
      StagedDevicesValid(s, c, |c.devices|, inputs);
      var staged := StageDevices(s, c, |c.devices|, inputs).outcome.value;
      var t := reply.1;
      forall id | HasActive(s.reservations, id)
        ensures (id in t.devices <==> id in s.devices) && (id in s.devices ==> t.devices[id] == s.devices[id])
      {
        ActiveDeviceRegistered(s, id);
        assert id !in staged;
        assert !Configures(c, id);
        assert mode.Merge?;
        assert id in KeptDevices(s, c);
      }
    }
  }

  lemma UnregisterIsIdle(s: Ledger, id: u64)
    requires Inv(s)
    ensures OnlyIdleDevicesChange(s, UnregisterDevice(s, id).1)
  {
    hide HasActive, ValidDevice;
  }

  lemma DeviceStepIsIdle(s: Ledger, step: Step)
    requires Inv(s) && IsDeviceStep(step)
    ensures OnlyIdleDevicesChange(s, DoStep(s, step))
  {
    hide Inv, OnlyIdleDevicesChange, RegisterDevice, UnregisterDevice, SetBaseline, SetPolicy, SetEstimator, LoadConfig;
    match step
    case RegisterStep(p) => RegisterIsIdle(s, p);
    case UnregisterStep(id) => UnregisterIsIdle(s, id);
    case BaselineStep(id, b) => BaselineIsIdle(s, id, b);
    case PolicyStep(id, name, options, load, setup) => PolicyIsIdle(s, id, name, options, load, setup);
    case EstimatorStep(id, name, load, setup) => EstimatorIsIdle(s, id, name, load, setup);
    case ConfigStep(c, mode, inputs) => ConfigIsIdle(s, c, mode, inputs);
    case _ => assert false;
  }

  // ---------------------------------------------------------------------------
  // Steps on reservations.

  /** One state of a reservation is reached from another by operations on it. */
  ghost predicate Continues(e: Entry, f: Entry)
    requires Indexed(e)
  {
    exists ops :: f == Run(e, ops)
  }

  lemma {:induction false} RunInParts(e: Entry, a: seq<UsageOp>, b: seq<UsageOp>)
    requires Indexed(e)
    ensures Run(e, a + b) == Run(Run(e, a), b)
  {
    if b == [] {
      assert a + b == a;
    } else {
      RunInParts(e, a, b[..|b| - 1]);
      assert (a + b)[..|a + b| - 1] == a + b[..|b| - 1];
    }
  }

  lemma ContinuesItself(e: Entry)
    requires Indexed(e)
    ensures Continues(e, e)
  {
    assert e == Run(e, []);
  }

  lemma ContinuesByOne(e: Entry, op: UsageOp)
    requires Indexed(e)
    ensures Continues(e, Apply(e, op))
  {
    assert [op][..0] == [];
    assert Apply(e, op) == Run(e, [op]);
  }

  lemma ContinuesThrough(e: Entry, f: Entry, g: Entry)
    requires Indexed(e) && Continues(e, f) && Indexed(f) && Continues(f, g)
    ensures Continues(e, g)
  {
    var a :| f == Run(e, a);
    var b :| g == Run(f, b);
    RunInParts(e, a, b);
  }

  /** A state some freshly created reservation reaches. */
  ghost predicate Lived(f: Entry) {
    exists e, ops :: Fresh(e) && Indexed(e) && f == Run(e, ops)
  }

  lemma LivedOn(e: Entry, f: Entry)
    requires Lived(e) && Indexed(e) && Continues(e, f)
    ensures Lived(f)
  {
    var first, a :| Fresh(first) && Indexed(first) && e == Run(first, a);
    var b :| f == Run(e, b);
    RunInParts(first, a, b);
  }

  lemma FreshLived(e: Entry)
    requires Fresh(e)
    ensures Lived(e)
  {
    assert e == Run(e, []);
  }

  /** Every reservation is still there, carried on by operations on it; any other started afresh. */
  ghost predicate EntriesContinue(s: Ledger, t: Ledger) {
    && (forall id :: id in s.reservations ==>
          Indexed(s.reservations[id]) && id in t.reservations && Continues(s.reservations[id], t.reservations[id]))
    && (forall id :: id in t.reservations && id !in s.reservations ==> Lived(t.reservations[id]))
  }

  lemma SameEntriesContinue(s: Ledger, t: Ledger)
    requires ReservationsSound(s) && t.reservations == s.reservations
    ensures EntriesContinue(s, t)
  {
    hide Continues;
    forall id | id in s.reservations
      ensures Indexed(s.reservations[id]) && Continues(s.reservations[id], t.reservations[id])
    {
      assert SoundAt(id, s.reservations[id]);
      ContinuesItself(s.reservations[id]);
    }
  }

  lemma NeverReactivated(e: Entry, op: UsageOp)
    requires Indexed(e)
    ensures Apply(e, op).res.state == Active ==> e.res.state == Active
  {
    hide Apply;
    if e.res.state != Active {
      TerminalApply(e, op);
    }
  }

  lemma OperationKeepsInv(s: Ledger, id: u64, op: UsageOp)
    requires Inv(s) && id in s.reservations && Indexed(s.reservations[id])
    ensures Inv(Stored(s, id, Apply(s.reservations[id], op)))
  {
    hide Sound, SameAgreement, Apply, Indexed, Backed, DevicesValid, CapsHold;
    var e := s.reservations[id];
    assert SoundAt(id, e);
    ApplyIsSound(e, op);
    ApplyKeepsTerms(e, op);
    NeverReactivated(e, op);
    EntryChangeKeepsInv(s, id, Apply(e, op));
  }

  lemma OperationContinues(s: Ledger, id: u64, op: UsageOp)
    requires ReservationsSound(s) && id in s.reservations && Indexed(s.reservations[id])
    ensures EntriesContinue(s, Stored(s, id, Apply(s.reservations[id], op)))
  {
    hide Apply, Indexed, SoundAt, Continues;
    SameEntriesContinue(s, s);
    ContinuesByOne(s.reservations[id], op);
  }

  /** What every step guarantees: the invariant, and that reservations only carry on or start afresh. */
  ghost predicate GoodStep(s: Ledger, t: Ledger) {
    Inv(t) && EntriesContinue(s, t)
  }

  lemma OperationOnEntry(s: Ledger, id: u64, op: UsageOp)
    requires Inv(s) && id in s.reservations
    ensures Indexed(s.reservations[id])
    ensures GoodStep(s, Stored(s, id, Apply(s.reservations[id], op)))
  {
    SoundMeansIndexed(s);
    hide Inv, Apply, EntriesContinue, Indexed;
    OperationKeepsInv(s, id, op);
    OperationContinues(s, id, op);
  }

  lemma NothingHappens(s: Ledger)
    requires Inv(s)
    ensures GoodStep(s, s)
  {
    SameEntriesContinue(s, s);
  }

  lemma TransitionStepIsGood(s: Ledger, id: u64, target: ReservationState, release: Status)
    requires Inv(s)
    ensures GoodStep(s, TransitionReservation(s, id, target, release).1)
  {
    hide Inv, GoodStep, Transition, Indexed;
    if id in s.reservations {
      OperationOnEntry(s, id, TransitionOp(target, release));
    } else {
      NothingHappens(s);
    }
  }

  lemma GoodThrough(s: Ledger, t: Ledger, u: Ledger)
    requires GoodStep(s, t) && GoodStep(t, u)
    ensures GoodStep(s, u)
  {
    hide Inv, Indexed, Continues, Lived;
    forall id | id in s.reservations
      ensures Continues(s.reservations[id], u.reservations[id])
    {
      ContinuesThrough(s.reservations[id], t.reservations[id], u.reservations[id]);
    }
    forall id | id in u.reservations && id !in s.reservations
      ensures Lived(u.reservations[id])
    {
      if id in t.reservations {
        LivedOn(t.reservations[id], u.reservations[id]);
      }
    }
  }

  lemma {:induction false} ExpiryIsGood(s: Ledger, order: seq<u64>, now: u64, release: u64 -> Status)
    requires Inv(s)
    ensures GoodStep(s, ExpireOver(s, order, now, release).1)
  {
    hide Inv, EntriesContinue, TransitionReservation;
    if |order| == 0 {
      NothingHappens(s);
    } else {
      var front, id := order[..|order| - 1], order[|order| - 1];
      ExpiryIsGood(s, front, now, release);
      var (status, before, count) := ExpireOver(s, front, now, release);
      TransitionStepIsGood(before, id, Expired, release(id));
      GoodThrough(s, before, TransitionReservation(before, id, Expired, release(id)).1);
    }
  }

  lemma UsageStepIsGood(s: Ledger, step: Step)
    requires Inv(s)
    requires step.ConsumeStep? || step.ReturnStep? || step.RecordStep? || step.RenewStep?
    ensures GoodStep(s, DoStep(s, step))
  {
    hide Inv, GoodStep, Consume, ReturnUsage, RecordActual, Renew, Indexed;
    NothingHappens(s);
    if step.id in s.reservations {
      match step
      case ConsumeStep(id, u, now, verdict) => OperationOnEntry(s, id, ConsumeOp(u, now, verdict));
      case ReturnStep(id, u, now, answer) => OperationOnEntry(s, id, ReturnOp(u, now, answer));
      case RecordStep(id, a, answer) =>
        OperationOnEntry(s, id, RecordOp(a, FeedbackOf(s, s.reservations[id], answer)));
      case RenewStep(id, now, clock, ttl) =>
        OperationOnEntry(s, id, RenewOp(if now == 0 then clock else now, ttl));
      case _ => assert false;
    }
  }

  lemma ReserveContinues(s: Ledger, r: Request, inputs: AdmissionInputs)
    requires Inv(s)
    ensures EntriesContinue(s, Reserve(s, r, inputs).ledger)
  {
    hide Continues, Lived, Indexed, Fresh, CapsHold, ActiveBacked, ReservationsSound;
    SameEntriesContinue(s, s);
    var reply := Reserve(s, r, inputs);
    if reply.published.None? {
      ReserveDeclines(s, r, inputs);
      hide Reserve;
    } else {
      var a := ReserveAdmits(s, r, inputs);
      hide Reserve;
      AdmissionFacts(s, r, inputs, reply.published.value, a);
      FreshLived(a.entry);
    }
  }

  lemma ReserveIsGood(s: Ledger, r: Request, inputs: AdmissionInputs)
    requires Inv(s)
    ensures GoodStep(s, Reserve(s, r, inputs).ledger)
  {
    hide Inv, EntriesContinue, Reserve;
    ReserveKeepsInv(s, r, inputs);
    ReserveContinues(s, r, inputs);
  }

  lemma DeviceStepIsGood(s: Ledger, step: Step)
    requires Inv(s) && IsDeviceStep(step)
    ensures GoodStep(s, DoStep(s, step))
  {
    hide DoStep, HasActive, ValidDevice, ReservationsSound, ActiveBacked, CapsHold, EntriesContinue;
    DeviceStepIsIdle(s, step);
    DeviceChangeKeepsInv(s, DoStep(s, step));
    SameEntriesContinue(s, DoStep(s, step));
  }

  /** Every step keeps the invariant, and every reservation it leaves behind has lived a run of its own. */
  lemma StepIsGood(s: Ledger, step: Step)
    requires Inv(s)
    ensures GoodStep(s, DoStep(s, step))
  {
    hide Inv, GoodStep, LedgerModel.Reserve, RegisterDevice, UnregisterDevice, SetBaseline, SetPolicy, SetEstimator,
         LoadConfig, ConsumeOn, ReturnOn, RecordOn, RenewReservation, Indexed;
    match step
    case ReserveStep(r, inputs) => ReserveIsGood(s, r, inputs);
    case EndStep(id, target, release) =>
      NothingHappens(s);
      TransitionStepIsGood(s, id, target, release);
    case ExpireStep(order, now, releases) => ExpiryIsGood(s, order, now, releases);
    case _ =>
      if IsDeviceStep(step) {
        DeviceStepIsGood(s, step);
      } else {
        UsageStepIsGood(s, step);
      }
  }

  // ---------------------------------------------------------------------------
  // Runs.

  ghost function RunSteps(s: Ledger, steps: seq<Step>): (t: Ledger)
    requires Inv(s)
    ensures Inv(t)
  {
    if |steps| == 0 then s
    else
      var before := RunSteps(s, steps[..|steps| - 1]);
      StepIsGood(before, steps[|steps| - 1]);
      DoStep(before, steps[|steps| - 1])
  }

  /** A whole life of a context, from its creation on. */
  ghost function Life(steps: seq<Step>): Ledger {
    EmptyLedgerInv();
    RunSteps(EMPTY_LEDGER, steps)
  }

  ghost predicate Reachable(s: Ledger) {
    exists steps :: s == Life(steps)
  }

  lemma {:induction false} RunIsGood(s: Ledger, steps: seq<Step>)
    requires Inv(s)
    ensures GoodStep(s, RunSteps(s, steps))
  {
    hide Inv, EntriesContinue, DoStep;
    if |steps| == 0 {
      NothingHappens(s);
    } else {
      var front := steps[..|steps| - 1];
      RunIsGood(s, front);
      StepIsGood(RunSteps(s, front), steps[|steps| - 1]);
      GoodThrough(s, RunSteps(s, front), RunSteps(s, steps));
    }
  }

  /** The invariant holds in every state the context reaches, and every reservation has lived a run of its own. */
  lemma ReachableIsGood(s: Ledger)
    requires Reachable(s)
    ensures Inv(s)
    ensures forall id :: id in s.reservations ==> Lived(s.reservations[id])
  {
    hide Inv, RunSteps, Lived, Continues, Indexed;
    EmptyLedgerInv();
    var steps :| s == Life(steps);
    RunIsGood(EMPTY_LEDGER, steps);
  }

  lemma EmptyIsReachable()
    ensures Reachable(EMPTY_LEDGER)
  {
    assert EMPTY_LEDGER == Life([]);
  }

  lemma ReachableGoesOn(s: Ledger, step: Step)
    requires Reachable(s)
    ensures Inv(s) && Reachable(DoStep(s, step))
  {
    hide Inv, DoStep;
    ReachableIsGood(s);
    EmptyLedgerInv();
    var steps :| s == Life(steps);
    assert (steps + [step])[..|steps|] == steps;
    assert Life(steps + [step]) == DoStep(s, step);
  }
}
