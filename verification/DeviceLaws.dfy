/**
 Devices, plugins and configuration, over the fields of context, device and configuration: when each change is
 allowed, with which error it is refused, and all that it changes.
 */
module DeviceLaws {
  import opened CheckedMath
  import opened Metadata
  import opened Records
  import CreditPolicy
  import RatePolicy
  import opened Policies
  import opened BaselineEstimator
  import opened PluginRegistry
  import opened UsageModel
  import opened ActiveCapacity
  import opened LedgerModel
  import opened PolicyLaws

  /** Some active reservation is on the device. */
  ghost predicate InUse(s: Ledger, device: u64) {
    exists id :: id in s.reservations && s.reservations[id].res.state == Active
                 && s.reservations[id].res.deviceId == device
  }

  lemma InUseIff(s: Ledger, device: u64)
    ensures HasActive(s.reservations, device) <==> InUse(s, device)
  {
    if HasActive(s.reservations, device) {
      var id :| id in s.reservations && ActiveOn(s.reservations[id], device);
    }
    if InUse(s, device) {
      var id :| id in s.reservations && s.reservations[id].res.state == Active
                && s.reservations[id].res.deviceId == device;
      assert ActiveOn(s.reservations[id], device);
    }
  }

  /** A version counts on by one and starts again at zero after the largest number. */
  predicate CountedOn(before: u64, after: u64) {
    if before < U64_MAX then after == before + 1 else after == 0
  }

  // ---------------------------------------------------------------------------
  // Single devices.

  /** A registration: a new device at version one with the built-in estimator and no policy, or an idle device
      replaced by one, its profile version counted on. */
  lemma RegisterExact(s: Ledger, p: Profile)
    ensures var (status, t) := RegisterDevice(s, p);
            && status == (if !ValidProfile(p) then Err(Inval)
                          else if p.deviceId in s.devices && InUse(s, p.deviceId) then Err(State)
                          else OK)
            && (status != OK ==> t == s)
            && (status == OK ==>
                  && p.deviceId in t.devices
                  && t == s.(devices := s.devices[p.deviceId := t.devices[p.deviceId]])
                  && var dev := t.devices[p.deviceId];
                     && dev == Device(p, dev.profileVersion, BuiltIn, 1, None, 0)
                     && (if p.deviceId in s.devices then
                           CountedOn(s.devices[p.deviceId].profileVersion, dev.profileVersion)
                         else dev.profileVersion == 1))
  {
    InUseIff(s, p.deviceId);
    hide HasActive, InUse, ValidProfile;
  }

  lemma UnregisterExact(s: Ledger, id: u64)
    ensures var (status, t) := UnregisterDevice(s, id);
            && status == (if id == 0 then Err(Inval)
                          else if id !in s.devices then Err(NotFound)
                          else if InUse(s, id) then Err(State)
                          else OK)
            && t == (if status != OK then s else s.(devices := map d | d in s.devices && d != id :: s.devices[d]))
  {
    InUseIff(s, id);
    hide HasActive, InUse;
    assert s.devices - {id} == map d | d in s.devices && d != id :: s.devices[d];
  }

  /** A new baseline must be a circuit the device can run. */
  lemma BaselineExact(s: Ledger, id: u64, b: Baseline)
    ensures var (status, t) := SetBaseline(s, id, b);
            && status == (if id == 0 || b.qubitCount == 0 || b.shots == 0 || b.measurementCount == 0 then Err(Inval)
                          else if id !in s.devices then Err(NotFound)
                          else if InUse(s, id) then Err(State)
                          else
                            var p := s.devices[id].profile;
                            if p.maxQubits < b.qubitCount || 0 < p.maxShots < b.shots then Err(Inval) else OK)
            && (status != OK ==> t == s)
            && (status == OK ==>
                  && id in t.devices
                  && t == s.(devices := s.devices[id := t.devices[id]])
                  && var was, dev := s.devices[id], t.devices[id];
                     && dev == was.(profile := was.profile.(baseline := b), profileVersion := dev.profileVersion)
                     && CountedOn(was.profileVersion, dev.profileVersion))
  {
    InUseIff(s, id);
    hide HasActive, InUse;
  }

  // ---------------------------------------------------------------------------
  // Plugins.

  /** The first path that yields a plugin for the name. */
  ghost predicate FirstYield<T>(load: (string, string) -> LoadOutcome<T>, paths: seq<string>, name: string, k: nat) {
    && k < |paths| && load(paths[k], name).Loads?
    && forall j :: 0 <= j < k ==> load(paths[j], name).LoadFails?
  }

  /**
   A search answers from the registry if it knows the name. Otherwise the first path that yields a plugin decides,
   extra paths before own ones: a plugin under a new name is registered, one under a known name is not what was
   looked for. Without any yield the error is that of the last own path.
   */
  lemma SearchExact<T>(
    registry: map<string, T>, name: string, extra: seq<string>, own: seq<string>,
    load: (string, string) -> LoadOutcome<T>)
    ensures var s, paths := FindOrLoad(registry, name, extra, own, load), extra + own;
            && (name in registry ==> s == Search(registry, Success(Some(Plugin(name, registry[name]))), None))
            && (name !in registry ==>
                  && (forall k: nat :: FirstYield(load, paths, name, k) ==>
                        var found := load(paths[k], name);
                        s == if found.name in registry then Search(registry, Success(None), None)
                             else Search(
                               registry[found.name := found.kind], Success(Some(Plugin(found.name, found.kind))),
                               Some(found.name)))
                  && ((forall k :: 0 <= k < |paths| ==> load(paths[k], name).LoadFails?) ==>
                        s == Search(
                          registry,
                          Failure(if own == [] then NotFound
                                  else match load(own[|own| - 1], name) case LoadFails(e) => e case _ => NotFound),
                          None)))
  {
    if name !in registry {
      var s := FindOrLoad(registry, name, extra, own, load);
      var paths := extra + own;
      TryPathsExact(registry, name, extra, load, NotFound);
      TryPathsExact(registry, name, own, load, NotFound);
      hide TryPaths;
      forall k: nat | FirstYield(load, paths, name, k)
        ensures s == YieldOf(registry, name, load(paths[k], name))
      {
        if k < |extra| {
          assert forall j :: 0 <= j <= k ==> paths[j] == extra[j];
          assert FirstYield(load, extra, name, k);
        } else {
          assert forall j :: 0 <= j < |extra| ==> paths[j] == extra[j];
          assert forall j :: 0 <= j <= k - |extra| ==> paths[|extra| + j] == own[j];
          assert FirstYield(load, own, name, k - |extra|);
        }
      }
      if forall k :: 0 <= k < |paths| ==> load(paths[k], name).LoadFails? {
        assert forall j :: 0 <= j < |extra| ==> paths[j] == extra[j];
        assert forall j :: 0 <= j < |own| ==> paths[|extra| + j] == own[j];
      }
    }
  }

  function YieldOf<T>(registry: map<string, T>, name: string, found: LoadOutcome<T>): Search<T>
    requires found.Loads?
  {
    if found.name in registry then
      Search(registry, Success(if name in registry then Some(Plugin(name, registry[name])) else None), None)
    else
      Search(registry[found.name := found.kind], Success(Some(Plugin(found.name, found.kind))), Some(found.name))
  }

  lemma {:induction false} TryPathsExact<T>(
    registry: map<string, T>, name: string, paths: seq<string>, load: (string, string) -> LoadOutcome<T>, last: Error)
    ensures var s := TryPaths(registry, name, paths, load, last);
            && (forall k: nat :: FirstYield(load, paths, name, k) ==>
                  s == YieldOf(registry, name, load(paths[k], name)))
            && ((forall k :: 0 <= k < |paths| ==> load(paths[k], name).LoadFails?) ==>
                  s == Search(
                    registry,
                    Failure(if paths == [] then last
                            else match load(paths[|paths| - 1], name) case LoadFails(e) => e case _ => last),
                    None))
  {
    if paths != [] {
      match load(paths[0], name)
      case LoadFails(e) =>
        var rest := paths[1..];
        TryPathsExact(registry, name, rest, load, e);
        forall k: nat | FirstYield(load, paths, name, k)
          ensures k > 0 && FirstYield(load, rest, name, k - 1)
        {
          assert forall j :: 0 <= j < k - 1 ==> rest[j] == paths[j + 1];
        }
        if forall k :: 0 <= k < |paths| ==> load(paths[k], name).LoadFails? {
          assert forall k :: 0 <= k < |rest| ==> rest[k] == paths[k + 1];
          assert rest != [] ==> rest[|rest| - 1] == paths[|paths| - 1];
        }
      case Loads(own, kind) =>
        assert forall k: nat :: FirstYield(load, paths, name, k) ==> k == 0;
    }
  }

  // ---------------------------------------------------------------------------
  // Policies and estimators of a device.

  /** The slice among the options of a rate policy: the last one counts, and every one must be a number. */
  lemma {:induction false} SliceOptionExact(options: seq<KeyValue>)
    ensures var slice := RateSliceOption(options);
            && (slice.Success? <==> forall o :: o in options && o.key == 2002 ==> o.value.payload.U64?)
            && (slice.Failure? ==> slice.error == Inval)
            && (slice.Success? ==> SetBy(options, {2002}, slice.value))
  {
    if |options| != 0 {
      var front, last := options[..|options| - 1], options[|options| - 1];
      SliceOptionExact(front);
      assert options == front + [last];
      if RateSliceOption(options).Success? {
        SetByOneMore(options, {2002}, RateSliceOption(options).value);
      }
      hide SetBy;
    }
  }

  /** Why a policy found under a name cannot be set up on a device, if it cannot. */
  function PolicyProblem(
    dev: Device, found: Option<Plugin<PolicyKind>>, options: seq<KeyValue>, setup: SetupInputs): Option<Error>
  {
    match found
    case None => Some(Inval)
    case Some(plugin) =>
      var slice := RateSliceOption(options);
      if plugin.name == "rate" && slice.Failure? then Some(Inval)
      else if plugin.name == "rate" && slice.value > 0 && DeriveTotalRate(dev, setup.baseline).Failure? then
        Some(DeriveTotalRate(dev, setup.baseline).error)
      else if plugin.name == "rate" && slice.value > 0 && DeriveTotalRate(dev, setup.baseline).value < slice.value then
        Some(Inval)
      else
        match plugin.kind
        case CreditKind => if CreditPolicy.Init(dev.profile, options).Success? then None else Some(Inval)
        case RateKind => if RatePolicy.Init(dev.profile, options).Success? then None else Some(Inval)
        case CustomKind(_) => match setup.policyInit case OK => None case Err(e) => Some(e)
  }

  /** The policy of a plugin kind with its state from the options. */
  predicate IsPolicy(policy: Policy, kind: PolicyKind, p: Profile, options: seq<KeyValue>) {
    match kind
    case CreditKind => policy.Credit? && CreditPolicy.Init(p, options) == Success(policy.credit)
    case RateKind => policy.Rate? && RatePolicy.Init(p, options) == Success(policy.rate)
    case CustomKind(capacity) => policy == Custom(capacity)
  }

  lemma DevicePolicyExact(
    dev: Device, found: Option<Plugin<PolicyKind>>, options: seq<KeyValue>, setup: SetupInputs)
    ensures var done, problem := SetDevicePolicy(dev, found, options, setup), PolicyProblem(dev, found, options, setup);
            && (problem.Some? ==> done == Failure(problem.value))
            && (problem.None? ==>
                  && done.Success? && found.Some?
                  && done.value == dev.(policy := done.value.policy, policyVersion := done.value.policyVersion)
                  && done.value.policy.Some?
                  && IsPolicy(done.value.policy.value, found.value.kind, dev.profile, options)
                  && CountedOn(dev.policyVersion, done.value.policyVersion))
  {
    SliceOptionExact(options);
    InitialisedIff(dev.profile, options);
    hide RateSliceOption, SetBy, DeriveTotalRate, CreditPolicy.Init, RatePolicy.Init, LetOut, CreditPolicy.Configure,
         RatePolicy.Configure;
  }

  /** Why an estimator found under a name cannot be set up, if it cannot. */
  function EstimatorProblem(found: Option<Plugin<EstimatorKind>>, setup: SetupInputs): Option<Error> {
    match found
    case None => Some(Inval)
    case Some(plugin) =>
      match plugin.kind
      case BuiltIn => None
      case PluginEstimator(_) => match setup.estimatorInit case OK => None case Err(e) => Some(e)
  }

  lemma DeviceEstimatorExact(dev: Device, found: Option<Plugin<EstimatorKind>>, setup: SetupInputs)
    ensures var done, problem := SetDeviceEstimator(dev, found, setup), EstimatorProblem(found, setup);
            && (problem.Some? ==> done == Failure(problem.value))
            && (problem.None? ==>
                  && done.Success? && found.Some?
                  && done.value == dev.(estimator := found.value.kind, estimatorVersion := done.value.estimatorVersion)
                  && CountedOn(dev.estimatorVersion, done.value.estimatorVersion))
  {
  }

  /** Selecting a policy: only on an idle device, all or nothing, but a plugin loaded on the way stays registered. */
  lemma SetPolicyExact(
    s: Ledger, id: u64, name: string, options: seq<KeyValue>, load: (string, string) -> LoadOutcome<PolicyKind>,
    setup: SetupInputs)
    ensures var (status, t) := SetPolicy(s, id, name, options, load, setup);
            if id !in s.devices then status == Err(NotFound) && t == s
            else if InUse(s, id) then status == Err(State) && t == s
            else
              var search := FindOrLoad(s.policies, name, [], s.policyPaths, load);
              var known := s.(policies := search.registry);
              match search.found
              case Failure(_) => status == Err(NotFound) && t == known
              case Success(found) =>
                if found == None then status == Err(NotFound) && t == known
                else
                  match PolicyProblem(s.devices[id], found, options, setup)
                  case Some(problem) => status == Err(problem) && t == known
                  case None =>
                    && status == OK && id in t.devices
                    && t == known.(devices := s.devices[id := t.devices[id]])
                    && Success(t.devices[id]) == SetDevicePolicy(s.devices[id], found, options, setup)
  {
    InUseIff(s, id);
    var search := FindOrLoad(s.policies, name, [], s.policyPaths, load);
    if id in s.devices && search.found.Success? {
      DevicePolicyExact(s.devices[id], search.found.value, options, setup);
    }
    hide HasActive, InUse, PolicyProblem, SetDevicePolicy, IsPolicy, FindOrLoad;
  }

  lemma SetEstimatorExact(
    s: Ledger, id: u64, name: string, load: (string, string) -> LoadOutcome<EstimatorKind>, setup: SetupInputs)
    ensures var (status, t) := SetEstimator(s, id, name, load, setup);
            if id !in s.devices then status == Err(NotFound) && t == s
            else if InUse(s, id) then status == Err(State) && t == s
            else
              var search := FindOrLoad(s.estimators, name, [], s.estimatorPaths, load);
              var known := s.(estimators := search.registry);
              match search.found
              case Failure(_) => status == Err(NotFound) && t == known
              case Success(found) =>
                if found == None then status == Err(NotFound) && t == known
                else
                  match EstimatorProblem(found, setup)
                  case Some(problem) => status == Err(problem) && t == known
                  case None =>
                    && status == OK && id in t.devices
                    && t == known.(devices := s.devices[id := t.devices[id]])
                    && Success(t.devices[id]) == SetDeviceEstimator(s.devices[id], found, setup)
  {
    InUseIff(s, id);
    var search := FindOrLoad(s.estimators, name, [], s.estimatorPaths, load);
    if id in s.devices && search.found.Success? {
      DeviceEstimatorExact(s.devices[id], search.found.value, setup);
    }
    hide HasActive, InUse, EstimatorProblem, SetDeviceEstimator, FindOrLoad;
  }

  // ---------------------------------------------------------------------------
  // Configuration.

  /** The searches for the estimator and the policy a configured device names, with the plugins known so far. */
  function EstimatorSearch(
    s: Ledger, c: Config, name: string, known: Registries, inputs: ConfigInputs): Search<EstimatorKind>
  {
    FindOrLoad(known.estimators, name, c.estimatorPaths, s.estimatorPaths, inputs.loadEstimator)
  }

  function PolicySearch(
    s: Ledger, c: Config, name: string, known: Registries, inputs: ConfigInputs): Search<PolicyKind>
  {
    FindOrLoad(known.policies, name, c.policyPaths, s.policyPaths, inputs.loadPolicy)
  }

  /** The plugins known once the i-th configured device has been looked at. */
  function KnownAfter(s: Ledger, c: Config, i: nat, known: Registries, inputs: ConfigInputs): Registries
    requires i < |c.devices|
  {
    Registries(
      match c.devices[i].policyName
      case None => known.policies
      case Some(name) => PolicySearch(s, c, name, known, inputs).registry,
      match c.devices[i].estimatorName
      case None => known.estimators
      case Some(name) => EstimatorSearch(s, c, name, known, inputs).registry)
  }

  function KnownBefore(s: Ledger, c: Config, i: nat, inputs: ConfigInputs): Registries
    requires i <= |c.devices|
  {
    if i == 0 then Registries(s.policies, s.estimators)
    else KnownAfter(s, c, i - 1, KnownBefore(s, c, i - 1, inputs), inputs)
  }

  /** Why the i-th configured device cannot be set up, if it cannot: it is in use, a name does not resolve, or what
      the name resolves to does not start. */
  ghost function DeviceProblem(s: Ledger, c: Config, i: nat, known: Registries, inputs: ConfigInputs): Option<Error>
    requires i < |c.devices|
  {
    var cd := c.devices[i];
    var estimator := match cd.estimatorName
                     case None => Success(Some(Plugin("", BuiltIn)))
                     case Some(name) => EstimatorSearch(s, c, name, known, inputs).found;
    if cd.profile.deviceId in s.devices && InUse(s, cd.profile.deviceId) then Some(State)
    else if estimator.Failure? then Some(estimator.error)
    else if EstimatorProblem(estimator.value, inputs.setup(i)).Some? then
      EstimatorProblem(estimator.value, inputs.setup(i))
    else
      match cd.policyName
      case None => None
      case Some(name) =>
        match PolicySearch(s, c, name, known, inputs).found
        case Failure(error) => Some(error)
        case Success(found) =>
          PolicyProblem(
            Device(cd.profile, 1, estimator.value.value.kind, 1, None, 0), found, cd.policyOptions, inputs.setup(i))
  }

  /** One configured device with a valid profile is staged exactly when it has no problem. */
  lemma DeviceStagedIff(s: Ledger, c: Config, i: nat, known: Registries, inputs: ConfigInputs)
    requires i < |c.devices| && ValidProfile(c.devices[i].profile)
    ensures var staged, problem := StageDevice(s, c, i, known, inputs), DeviceProblem(s, c, i, known, inputs);
            && (problem.Some? ==> staged.outcome == Failure(problem.value))
            && (problem.None? ==> staged.outcome.Success? && staged.registries == KnownAfter(s, c, i, known, inputs))
  {
    var cd := c.devices[i];
    var dev := NewDevice(cd.profile);
    InUseIff(s, cd.profile.deviceId);
    if cd.estimatorName.Some? {
      var found := EstimatorSearch(s, c, cd.estimatorName.value, known, inputs).found;
      if found.Success? {
        DeviceEstimatorExact(dev, found.value, inputs.setup(i));
      }
    }
    var estimated := StageEstimator(s, c, i, dev, known, inputs);
    if estimated.outcome.Success? && cd.policyName.Some? {
      var found := PolicySearch(s, c, cd.policyName.value, known, inputs).found;
      if found.Success? {
        DevicePolicyExact(estimated.outcome.value, found.value, cd.policyOptions, inputs.setup(i));
        ProblemIgnoresVersions(estimated.outcome.value, found.value, cd.policyOptions, inputs.setup(i));
      }
    }
    hide HasActive, InUse, ValidProfile, FindOrLoad, PolicyProblem, SetDevicePolicy, SetDeviceEstimator, IsPolicy;
  }

  lemma ProblemIgnoresVersions(
    dev: Device, found: Option<Plugin<PolicyKind>>, options: seq<KeyValue>, setup: SetupInputs)
    ensures PolicyProblem(dev, found, options, setup)
         == PolicyProblem(Device(dev.profile, 1, dev.estimator, 1, None, 0), found, options, setup)
  {
    hide RateSliceOption, CreditPolicy.Init, RatePolicy.Init, EstimateBaseline;
  }

  /** The problem of the i-th configured device once those before it have been set up. */
  ghost function ProblemAt(s: Ledger, c: Config, i: nat, inputs: ConfigInputs): Option<Error>
    requires i < |c.devices|
  {
    DeviceProblem(s, c, i, KnownBefore(s, c, i, inputs), inputs)
  }

  ghost predicate NoProblem(s: Ledger, c: Config, n: nat, inputs: ConfigInputs)
    requires n <= |c.devices|
  {
    forall i :: 0 <= i < n ==> ProblemAt(s, c, i, inputs) == None
  }

  /** The i-th configured device is the first with a problem, which is the error. */
  ghost predicate FirstProblem(s: Ledger, c: Config, i: nat, inputs: ConfigInputs, error: Error) {
    i < |c.devices| && NoProblem(s, c, i, inputs) && ProblemAt(s, c, i, inputs) == Some(error)
  }

  /** The devices are staged in order, up to the first problem. */
  lemma {:induction false} StagedUntilProblem(s: Ledger, c: Config, n: nat, inputs: ConfigInputs)
    requires n <= |c.devices| && forall i :: 0 <= i < n ==> ValidProfile(c.devices[i].profile)
    ensures var staged := StageDevices(s, c, n, inputs);
            if NoProblem(s, c, n, inputs) then
              staged.outcome.Success? && staged.registries == KnownBefore(s, c, n, inputs)
            else
              staged.outcome.Failure? && exists i: nat :: i < n && FirstProblem(s, c, i, inputs, staged.outcome.error)
  {
    hide StageDevice, DeviceProblem, ValidProfile, KnownAfter;
    if n > 0 {
      StagedUntilProblem(s, c, n - 1, inputs);
      DeviceStagedIff(s, c, n - 1, KnownBefore(s, c, n - 1, inputs), inputs);
      var staged := StageDevices(s, c, n, inputs);
      if !NoProblem(s, c, n - 1, inputs) {
        var i: nat :| i < n - 1 && FirstProblem(s, c, i, inputs, staged.outcome.error);
        assert ProblemAt(s, c, i, inputs) != None;
      } else if ProblemAt(s, c, n - 1, inputs).Some? {
        assert FirstProblem(s, c, n - 1, inputs, staged.outcome.error);
      }
    }
  }

  /** A replacement would drop a device in use. */
  ghost predicate DropsInUse(s: Ledger, c: Config) {
    exists id :: id in s.devices && InUse(s, id)
                 && forall i :: 0 <= i < |c.devices| ==> c.devices[i].profile.deviceId != id
  }

  /**
   When a load succeeds, and with which error it fails otherwise: first an invalid mode or profile, then in a
   replacement a device in use that is not configured, then the first configured device with a problem.
   */
  lemma LoadSucceedsIff(s: Ledger, c: Config, mode: ConfigMode, inputs: ConfigInputs)
    ensures var (status, t) := LoadConfig(s, c, mode, inputs);
            if mode == InvalidMode || (exists cd :: cd in c.devices && !ValidProfile(cd.profile)) then
              status == Err(Inval)
            else if mode == Replace && DropsInUse(s, c) then status == Err(State)
            else
              && (status == OK <==> NoProblem(s, c, |c.devices|, inputs))
              && (status != OK ==> exists i: nat :: FirstProblem(s, c, i, inputs, status.error))
              && (status == OK ==>
                    && t.policies == KnownBefore(s, c, |c.devices|, inputs).policies
                    && t.estimators == KnownBefore(s, c, |c.devices|, inputs).estimators)
  {
    DropsIff(s, c);
    hide ValidProfile, StageDevices, KnownBefore, NoProblem, FirstProblem, DropsInUse, OmitsActive;
    ValidProfilesIff(c);
    if forall i :: 0 <= i < |c.devices| ==> ValidProfile(c.devices[i].profile) {
      StagedUntilProblem(s, c, |c.devices|, inputs);
    }
  }

  lemma ValidProfilesIff(c: Config)
    ensures (exists cd :: cd in c.devices && !ValidProfile(cd.profile)) <==>
            (exists i :: 0 <= i < |c.devices| && !ValidProfile(c.devices[i].profile))
  {
    hide ValidProfile;
    if cd :| cd in c.devices && !ValidProfile(cd.profile) {
      var i :| 0 <= i < |c.devices| && c.devices[i] == cd;
    }
  }

  lemma DropsIff(s: Ledger, c: Config)
    ensures OmitsActive(s, c) <==> DropsInUse(s, c)
  {
    forall id
      ensures HasActive(s.reservations, id) <==> InUse(s, id)
    {
      InUseIff(s, id);
    }
    hide HasActive, InUse;
    if OmitsActive(s, c) {
      var id :| id in s.devices && !Configures(c, id) && HasActive(s.reservations, id);
      assert InUse(s, id);
    }
    if DropsInUse(s, c) {
      var id :| id in s.devices && InUse(s, id)
                && forall i :: 0 <= i < |c.devices| ==> c.devices[i].profile.deviceId != id;
      assert !Configures(c, id) && HasActive(s.reservations, id);
    }
  }
}
