/**
 The end of reservations: release and cancel, expiry in any scan order, and configuration loads as transactions.
 */
module LedgerLifecycle {
  import opened CheckedMath
  import opened Metadata
  import opened Records
  import opened Policies
  import opened BaselineEstimator
  import opened UsageModel
  import opened UsageInvariants
  import UsageOnce
  import opened PluginRegistry
  import opened ActiveCapacity
  import opened LedgerModel
  import opened LedgerInvariants
  import opened LedgerSteps

  /** Over any run no reservation disappears, and one that is no longer active never changes again. */
  lemma EndedNeverChanges(s: Ledger, steps: seq<Step>, id: u64)
    requires Inv(s) && id in s.reservations
    ensures id in RunSteps(s, steps).reservations
    ensures s.reservations[id].res.state != Active ==> RunSteps(s, steps).reservations[id] == s.reservations[id]
  {
    hide Inv, Indexed;
    RunIsGood(s, steps);
    var e, f := s.reservations[id], RunSteps(s, steps).reservations[id];
    if e.res.state != Active {
      var ops :| f == Run(e, ops);
      UsageOnce.TerminalNeverChanges(e, ops);
    }
  }

  // ---------------------------------------------------------------------------
  // Expiry.

  predicate Distinct(order: seq<u64>) {
    forall i, j :: 0 <= i < j < |order| ==> order[i] != order[j]
  }

  predicate ReleaseFails(e: Entry, now: u64, release: Status) {
    Due(e, now) && CallbackStatus(e.policy, release).Err?
  }

  /** The first position in the scan order whose release callback fails, or the length of the order. */
  function Stop(s: Ledger, order: seq<u64>, now: u64, release: u64 -> Status): (n: nat)
    ensures n <= |order|
    ensures forall i :: 0 <= i < n && order[i] in s.reservations ==>
              !ReleaseFails(s.reservations[order[i]], now, release(order[i]))
    ensures n < |order| ==>
              order[n] in s.reservations && ReleaseFails(s.reservations[order[n]], now, release(order[n]))
  {
    if |order| == 0 then 0
    else
      var n := Stop(s, order[..|order| - 1], now, release);
      var id := order[|order| - 1];
      if n < |order| - 1 || (id in s.reservations && ReleaseFails(s.reservations[id], now, release(id))) then n
      else |order|
  }

  function Retired(e: Entry): Entry {
    e.(res := Finalized(e.res).(state := Expired))
  }

  ghost function DueIds(reservations: map<u64, Entry>, among: seq<u64>, now: u64): set<u64> {
    set id | id in among && id in reservations && Due(reservations[id], now)
  }

  /** Every due reservation among the given ones retired, all others as they are. */
  function RetireDue(reservations: map<u64, Entry>, among: seq<u64>, now: u64): map<u64, Entry> {
    map id | id in reservations ::
      if id in among && Due(reservations[id], now) then Retired(reservations[id]) else reservations[id]
  }

  lemma ExpiryOfNone(s: Ledger, now: u64, release: u64 -> Status)
    ensures ExpireOver(s, [], now, release) == (OK, s, 0)
  {
  }

  /** One more reservation after a scan without failure. */
  lemma ExpiryOfOneMore(s: Ledger, order: seq<u64>, id: u64, now: u64, release: u64 -> Status)
    requires ExpireOver(s, order, now, release).0 == OK
    ensures var (status, t, count) := ExpireOver(s, order, now, release);
            var (ended, after) := TransitionReservation(t, id, Expired, release(id));
            ExpireOver(s, order + [id], now, release)
            == if id in t.reservations && Due(t.reservations[id], now)
               then (ended, after, if ended == OK then count + 1 else count)
               else (OK, t, count)
  {
    assert (order + [id])[..|order + [id]| - 1] == order;
  }

  lemma ExpiryStep(m: map<u64, Entry>, front: seq<u64>, id: u64, now: u64)
    requires id !in front
    ensures id in RetireDue(m, front, now) <==> id in m
    ensures id in m ==> RetireDue(m, front, now)[id] == m[id]
    ensures id in m && Due(m[id], now) ==>
              && RetireDue(m, front + [id], now) == RetireDue(m, front, now)[id := Retired(m[id])]
              && |DueIds(m, front + [id], now)| == |DueIds(m, front, now)| + 1
    ensures !(id in m && Due(m[id], now)) ==>
              && RetireDue(m, front + [id], now) == RetireDue(m, front, now)
              && DueIds(m, front + [id], now) == DueIds(m, front, now)
  {
    hide Retired, Due;
    if id in m && Due(m[id], now) {
      assert DueIds(m, front + [id], now) == DueIds(m, front, now) + {id};
    }
  }

  lemma DueTransition(b: Ledger, id: u64, now: u64, release: Status)
    requires id in b.reservations && Due(b.reservations[id], now)
    ensures TransitionReservation(b, id, Expired, release).0 == OK <==> !ReleaseFails(b.reservations[id], now, release)
    ensures ReleaseFails(b.reservations[id], now, release) ==>
              TransitionReservation(b, id, Expired, release).0 == release
    ensures TransitionReservation(b, id, Expired, release).1
         == if ReleaseFails(b.reservations[id], now, release) then b
            else b.(reservations := b.reservations[id := Retired(b.reservations[id])])
  {
    hide Finalized;
    assert b.reservations[id := b.reservations[id]] == b.reservations;
  }

  /** What the scan does, exactly: it retires what is due up to the first failing callback and counts it. */
  lemma {:induction false} ExpiryExact(s: Ledger, order: seq<u64>, now: u64, release: u64 -> Status)
    requires Distinct(order)
    ensures var (status, t, count) := ExpireOver(s, order, now, release);
            var n := Stop(s, order, now, release);
            && (status == OK <==> n == |order|)
            && t == s.(reservations := RetireDue(s.reservations, order[..n], now))
            && count == |DueIds(s.reservations, order[..n], now)|
  {
    hide Retired, Due, TransitionReservation, CallbackStatus;
    if |order| == 0 {
      hide Distinct;
      assert RetireDue(s.reservations, order[..0], now) == s.reservations;
    } else {
      var front, id := order[..|order| - 1], order[|order| - 1];
      ExpiryExact(s, front, now, release);
      var n := Stop(s, front, now, release);
      assert front[..n] == order[..n];
      if n == |front| {
        assert front[..n] == front && order[..|order|] == order == front + [id];
        assert id !in front;
        hide Distinct;
        ExpiryStep(s.reservations, front, id, now);
        var before := ExpireOver(s, front, now, release).1;
        hide RetireDue, DueIds;
        assert id in before.reservations <==> id in s.reservations;
        if id in s.reservations {
          assert before.reservations[id] == s.reservations[id];
          if Due(s.reservations[id], now) {
            DueTransition(before, id, now, release(id));
          }
        }
      }
    }
  }

  /** An order in which a scan over the whole reservation table may go. */
  ghost predicate ScanOrder(s: Ledger, order: seq<u64>) {
    Distinct(order) && forall id :: id in order <==> id in s.reservations
  }

  /**
   In whatever order the table is scanned, expiry with release callbacks that succeed retires precisely the
   active reservations whose expiry time has come, counts them, and touches nothing else.
   */
  lemma ExpiryRetiresExactlyDue(s: Ledger, order: seq<u64>, now: u64, release: u64 -> Status)
    requires ScanOrder(s, order)
    requires forall id :: id in s.reservations ==> !ReleaseFails(s.reservations[id], now, release(id))
    ensures var (status, t, count) := ExpireOver(s, order, now, release);
            && status == OK
            && count == |set id | id in s.reservations && Due(s.reservations[id], now)|
            && t.reservations.Keys == s.reservations.Keys
            && t == s.(reservations := t.reservations)
            && forall id :: id in s.reservations ==>
                 t.reservations[id] ==
                   if Due(s.reservations[id], now) then Retired(s.reservations[id]) else s.reservations[id]
  {
    hide Retired, Due;
    ExpiryExact(s, order, now, release);
    assert order[..|order|] == order;
    assert DueIds(s.reservations, order, now) == set id | id in s.reservations && Due(s.reservations[id], now);
  }

  /** The error of a scan that stops is the answer of the callback it stopped at. */
  lemma {:induction false} ExpiryStatus(s: Ledger, order: seq<u64>, now: u64, release: u64 -> Status)
    requires Distinct(order)
    ensures var n := Stop(s, order, now, release);
            n < |order| ==> ExpireOver(s, order, now, release).0 == release(order[n]) != OK
  {
    hide Due, TransitionReservation;
    if |order| != 0 {
      var front, id := order[..|order| - 1], order[|order| - 1];
      ExpiryStatus(s, front, now, release);
      ExpiryExact(s, front, now, release);
      assert front[..|front|] == front && order == front + [id];
      if Stop(s, front, now, release) == |front| && id in s.reservations && Due(s.reservations[id], now) {
        ExpiryStep(s.reservations, front, id, now);
        DueTransition(ExpireOver(s, front, now, release).1, id, now, release(id));
      }
    }
  }

  /** Under failing callbacks the expiry succeeds if and only if no due reservation's callback fails. */
  lemma ExpirySucceedsIff(s: Ledger, order: seq<u64>, now: u64, release: u64 -> Status)
    requires ScanOrder(s, order)
    ensures ExpireOver(s, order, now, release).0 == OK <==>
              forall id :: id in s.reservations ==> !ReleaseFails(s.reservations[id], now, release(id))
  {
    hide ExpireOver, ReleaseFails;
    ExpiryExact(s, order, now, release);
  }

  // ---------------------------------------------------------------------------
  // Configuration loads.

  /**
   What a configured name stands for: a plugin registered at the end under its own name. A name known before the
   load stands for what it stood for; another one for what a path yields when asked for it.
   */
  ghost predicate Resolves<T>(
    before: map<string, T>, after: map<string, T>, load: (string, string) -> LoadOutcome<T>, paths: seq<string>,
    name: string, own: string)
  {
    && own in after
    && (name in before ==> own == name && after[own] == before[name])
    && (own == name || LoadsFrom(load, paths, name, own, after[own]))
  }

  /** The device's policy is that of a plugin of the kind, initialised with the profile and options of the entry. */
  predicate HasPolicy(dev: Device, cd: ConfigDevice, own: string, kind: PolicyKind, setup: SetupInputs) {
    && dev.policy.Some? && dev.policyVersion == 1
    && RateOptionsStatus(dev, own, cd.policyOptions, setup.baseline) == OK
    && InitPolicy(kind, cd.profile, cd.policyOptions, setup.policyInit) == Success(dev.policy.value)
  }

  predicate HasEstimator(dev: Device, kind: EstimatorKind, setup: SetupInputs) {
    && dev.estimator == kind && dev.estimatorVersion == 2
    && (kind.PluginEstimator? ==> setup.estimatorInit == OK)
  }

  /** The device a configuration entry describes: a first version of its profile with exactly what it names. */
  ghost predicate AsConfigured(
    s: Ledger, c: Config, i: nat, inputs: ConfigInputs, before: Registries, after: Registries, dev: Device)
    requires i < |c.devices|
  {
    var cd := c.devices[i];
    && dev.profile == cd.profile
    && dev.profileVersion == 1
    && (cd.estimatorName.None? ==> dev.estimator == BuiltIn && dev.estimatorVersion == 1)
    && (cd.policyName.None? ==> dev.policy == None && dev.policyVersion == 0)
    && (cd.estimatorName.Some? ==>
          exists own ::
            && Resolves(
                 before.estimators, after.estimators, inputs.loadEstimator, c.estimatorPaths + s.estimatorPaths,
                 cd.estimatorName.value, own)
            && HasEstimator(dev, after.estimators[own], inputs.setup(i)))
    && (cd.policyName.Some? ==>
          exists own ::
            && Resolves(
                 before.policies, after.policies, inputs.loadPolicy, c.policyPaths + s.policyPaths,
                 cd.policyName.value, own)
            && HasPolicy(dev, cd, own, after.policies[own], inputs.setup(i)))
  }

  lemma FoundResolves<T>(
    registry: map<string, T>, name: string, extra: seq<string>, own: seq<string>,
    load: (string, string) -> LoadOutcome<T>)
    requires var s := FindOrLoad(registry, name, extra, own, load); s.found.Success? && s.found.value.Some?
    ensures var s := FindOrLoad(registry, name, extra, own, load);
            && Resolves(registry, s.registry, load, extra + own, name, s.found.value.value.name)
            && s.registry[s.found.value.value.name] == s.found.value.value.kind
  {
    FindOrLoadFinds(registry, name, extra, own, load);
  }

  lemma StagedHasEstimator(
    s: Ledger, c: Config, i: nat, dev: Device, known: Registries, inputs: ConfigInputs)
    requires i < |c.devices| && c.devices[i].estimatorName.Some? && dev.estimatorVersion == 1
    requires StageEstimator(s, c, i, dev, known, inputs).outcome.Success?
    ensures var staged := StageEstimator(s, c, i, dev, known, inputs);
            exists own ::
              && Resolves(
                   known.estimators, staged.registries.estimators, inputs.loadEstimator,
                   c.estimatorPaths + s.estimatorPaths, c.devices[i].estimatorName.value, own)
              && HasEstimator(staged.outcome.value, staged.registries.estimators[own], inputs.setup(i))
  {
    hide Resolves, FindOrLoad;
    var name := c.devices[i].estimatorName.value;
    var search := FindOrLoad(known.estimators, name, c.estimatorPaths, s.estimatorPaths, inputs.loadEstimator);
    FoundResolves(known.estimators, name, c.estimatorPaths, s.estimatorPaths, inputs.loadEstimator);
    var own := search.found.value.value.name;
    assert HasEstimator(
        StageEstimator(s, c, i, dev, known, inputs).outcome.value, search.registry[own], inputs.setup(i));
  }

  lemma StagedHasPolicy(
    s: Ledger, c: Config, i: nat, dev: Device, known: Registries, inputs: ConfigInputs)
    requires i < |c.devices| && c.devices[i].policyName.Some? && dev.policyVersion == 0
    requires dev.profile == c.devices[i].profile
    requires StagePolicy(s, c, i, dev, known, inputs).outcome.Success?
    ensures var staged := StagePolicy(s, c, i, dev, known, inputs);
            exists own ::
              && Resolves(
                   known.policies, staged.registries.policies, inputs.loadPolicy, c.policyPaths + s.policyPaths,
                   c.devices[i].policyName.value, own)
              && HasPolicy(
                   staged.outcome.value, c.devices[i], own, staged.registries.policies[own], inputs.setup(i))
  {
    hide Resolves, FindOrLoad, InitPolicy;
    var name := c.devices[i].policyName.value;
    var search := FindOrLoad(known.policies, name, c.policyPaths, s.policyPaths, inputs.loadPolicy);
    FoundResolves(known.policies, name, c.policyPaths, s.policyPaths, inputs.loadPolicy);
    var own := search.found.value.value.name;
    assert HasPolicy(
        StagePolicy(s, c, i, dev, known, inputs).outcome.value, c.devices[i], own, search.registry[own],
        inputs.setup(i));
  }

  lemma StagedAsConfigured(s: Ledger, c: Config, i: nat, known: Registries, inputs: ConfigInputs)
    requires i < |c.devices| && StageDevice(s, c, i, known, inputs).outcome.Success?
    ensures var staged := StageDevice(s, c, i, known, inputs);
            AsConfigured(s, c, i, inputs, known, staged.registries, staged.outcome.value)
  {
    hide HasActive, ValidProfile, FindOrLoad, Resolves, HasPolicy, InitPolicy, RateOptionsStatus;
    var dev := NewDevice(c.devices[i].profile);
    var first := StageEstimator(s, c, i, dev, known, inputs);
    if c.devices[i].estimatorName.Some? {
      StagedHasEstimator(s, c, i, dev, known, inputs);
    }
    if c.devices[i].policyName.Some? {
      StagedHasPolicy(s, c, i, first.outcome.value, first.registries, inputs);
    }
  }

  ghost predicate Grown<T>(before: map<string, T>, after: map<string, T>) {
    forall name :: name in before ==> name in after && after[name] == before[name]
  }

  /** What a name resolves to is the same for a smaller registry before and a larger one after. */
  lemma ResolvesWider<T>(
    first: map<string, T>, before: map<string, T>, after: map<string, T>, last: map<string, T>,
    load: (string, string) -> LoadOutcome<T>, paths: seq<string>, name: string, own: string)
    requires Grown(first, before) && Grown(after, last) && Resolves(before, after, load, paths, name, own)
    ensures Resolves(first, last, load, paths, name, own) && last[own] == after[own]
  {
  }

  lemma AsConfiguredWider(
    s: Ledger, c: Config, i: nat, inputs: ConfigInputs, first: Registries, before: Registries, after: Registries,
    last: Registries, dev: Device)
    requires i < |c.devices| && AsConfigured(s, c, i, inputs, before, after, dev)
    requires Grown(first.policies, before.policies) && Grown(first.estimators, before.estimators)
    requires Grown(after.policies, last.policies) && Grown(after.estimators, last.estimators)
    ensures AsConfigured(s, c, i, inputs, first, last, dev)
  {
    hide LoadsFrom, HasPolicy, HasEstimator, Grown;
    var cd := c.devices[i];
    if cd.estimatorName.Some? {
      var own :| Resolves(
          before.estimators, after.estimators, inputs.loadEstimator, c.estimatorPaths + s.estimatorPaths,
          cd.estimatorName.value, own)
        && own in after.estimators && HasEstimator(dev, after.estimators[own], inputs.setup(i));
      ResolvesWider(
        first.estimators, before.estimators, after.estimators, last.estimators, inputs.loadEstimator,
        c.estimatorPaths + s.estimatorPaths, cd.estimatorName.value, own);
    }
    if cd.policyName.Some? {
      var own :| Resolves(
          before.policies, after.policies, inputs.loadPolicy, c.policyPaths + s.policyPaths,
          cd.policyName.value, own)
        && own in after.policies && HasPolicy(dev, cd, own, after.policies[own], inputs.setup(i));
      ResolvesWider(
        first.policies, before.policies, after.policies, last.policies, inputs.loadPolicy,
        c.policyPaths + s.policyPaths, cd.policyName.value, own);
    }
  }

  lemma StageDeviceGrows(s: Ledger, c: Config, i: nat, known: Registries, inputs: ConfigInputs)
    requires i < |c.devices|
    ensures Grown(known.policies, StageDevice(s, c, i, known, inputs).registries.policies)
    ensures Grown(known.estimators, StageDevice(s, c, i, known, inputs).registries.estimators)
  {
    hide HasActive, ValidProfile, SetDevicePolicy, SetDeviceEstimator;
  }

  /** Whatever is newly registered comes from a path, asked for one of the names. */
  ghost predicate NewlyLoaded<T>(
    before: map<string, T>, after: map<string, T>, load: (string, string) -> LoadOutcome<T>, paths: seq<string>,
    asked: set<string>)
  {
    forall own :: own in after && own !in before ==>
      exists name :: name in asked && LoadsFrom(load, paths, name, own, after[own])
  }

  function PolicyNames(c: Config): set<string> {
    set i | 0 <= i < |c.devices| && c.devices[i].policyName.Some? :: c.devices[i].policyName.value
  }

  function EstimatorNames(c: Config): set<string> {
    set i | 0 <= i < |c.devices| && c.devices[i].estimatorName.Some? :: c.devices[i].estimatorName.value
  }

  lemma SearchNewlyLoads<T>(
    registry: map<string, T>, name: string, extra: seq<string>, own: seq<string>,
    load: (string, string) -> LoadOutcome<T>, asked: set<string>)
    requires name in asked
    ensures NewlyLoaded(registry, FindOrLoad(registry, name, extra, own, load).registry, load, extra + own, asked)
  {
    FindOrLoadFinds(registry, name, extra, own, load);
    var s := FindOrLoad(registry, name, extra, own, load);
    hide FindOrLoad, LoadsFrom;
    forall n | n in s.registry && n !in registry
      ensures LoadsFrom(load, extra + own, name, n, s.registry[n])
    {
      assert s.loaded.Some? && n !in s.registry - {s.loaded.value};
    }
  }

  lemma NewlyLoadedThrough<T>(
    first: map<string, T>, middle: map<string, T>, last: map<string, T>, load: (string, string) -> LoadOutcome<T>,
    paths: seq<string>, asked: set<string>)
    requires NewlyLoaded(first, middle, load, paths, asked) && NewlyLoaded(middle, last, load, paths, asked)
    requires Grown(middle, last)
    ensures NewlyLoaded(first, last, load, paths, asked)
  {
    hide LoadsFrom;
  }

  ghost predicate RegistriesFrom(s: Ledger, c: Config, inputs: ConfigInputs, before: Registries, after: Registries) {
    && Grown(before.policies, after.policies) && Grown(before.estimators, after.estimators)
    && NewlyLoaded(
         before.policies, after.policies, inputs.loadPolicy, c.policyPaths + s.policyPaths, PolicyNames(c))
    && NewlyLoaded(
         before.estimators, after.estimators, inputs.loadEstimator, c.estimatorPaths + s.estimatorPaths,
         EstimatorNames(c))
  }

  lemma StageDeviceRegistries(s: Ledger, c: Config, i: nat, known: Registries, inputs: ConfigInputs)
    requires i < |c.devices|
    ensures RegistriesFrom(s, c, inputs, known, StageDevice(s, c, i, known, inputs).registries)
  {
    hide HasActive, ValidProfile, SetDevicePolicy, SetDeviceEstimator, LoadsFrom, FindOrLoad;
    StageDeviceGrows(s, c, i, known, inputs);
    if c.devices[i].estimatorName.Some? {
      assert c.devices[i].estimatorName.value in EstimatorNames(c);
      SearchNewlyLoads(
        known.estimators, c.devices[i].estimatorName.value, c.estimatorPaths, s.estimatorPaths, inputs.loadEstimator,
        EstimatorNames(c));
    }
    if c.devices[i].policyName.Some? {
      assert c.devices[i].policyName.value in PolicyNames(c);
      SearchNewlyLoads(
        known.policies, c.devices[i].policyName.value, c.policyPaths, s.policyPaths, inputs.loadPolicy,
        PolicyNames(c));
    }
  }

  /** No later one of the first n entries has the same device id. */
  predicate LastOfItsId(c: Config, i: nat, n: nat)
    requires i < n <= |c.devices|
  {
    forall j :: i < j < n ==> c.devices[j].profile.deviceId != c.devices[i].profile.deviceId
  }

  /** What the first n staged devices are, and where the plugins registered for them come from. */
  ghost predicate StagedUpTo(s: Ledger, c: Config, n: nat, inputs: ConfigInputs)
    requires n <= |c.devices| && StageDevices(s, c, n, inputs).outcome.Success?
  {
    var staged := StageDevices(s, c, n, inputs);
    var first := Registries(s.policies, s.estimators);
    && RegistriesFrom(s, c, inputs, first, staged.registries)
    && (forall i :: 0 <= i < n ==> c.devices[i].profile.deviceId in staged.outcome.value)
    && (forall i :: 0 <= i < n && LastOfItsId(c, i, n) ==>
          AsConfigured(
            s, c, i, inputs, first, staged.registries, staged.outcome.value[c.devices[i].profile.deviceId]))
    && (forall id :: id in staged.outcome.value ==> exists i :: 0 <= i < n && c.devices[i].profile.deviceId == id)
  }

  lemma RegistriesThrough(
    s: Ledger, c: Config, inputs: ConfigInputs, first: Registries, middle: Registries, last: Registries)
    requires RegistriesFrom(s, c, inputs, first, middle) && RegistriesFrom(s, c, inputs, middle, last)
    ensures RegistriesFrom(s, c, inputs, first, last)
  {
    hide NewlyLoaded, PolicyNames, EstimatorNames;
    NewlyLoadedThrough(
      first.policies, middle.policies, last.policies, inputs.loadPolicy, c.policyPaths + s.policyPaths,
      PolicyNames(c));
    NewlyLoadedThrough(
      first.estimators, middle.estimators, last.estimators, inputs.loadEstimator,
      c.estimatorPaths + s.estimatorPaths, EstimatorNames(c));
  }

  lemma {:induction false} StagedIds(s: Ledger, c: Config, n: nat, inputs: ConfigInputs)
    requires n <= |c.devices| && StageDevices(s, c, n, inputs).outcome.Success?
    ensures var staged := StageDevices(s, c, n, inputs).outcome.value;
            && (forall i :: 0 <= i < n ==> c.devices[i].profile.deviceId in staged)
            && (forall id :: id in staged ==> exists i :: 0 <= i < n && c.devices[i].profile.deviceId == id)
  {
    hide StageDevice;
    if n > 0 {
      StagedIds(s, c, n - 1, inputs);
      assert c.devices[n - 1].profile.deviceId == c.devices[n - 1].profile.deviceId;
    }
  }

  lemma {:induction false} StagedRegistries(s: Ledger, c: Config, n: nat, inputs: ConfigInputs)
    requires n <= |c.devices| && StageDevices(s, c, n, inputs).outcome.Success?
    ensures RegistriesFrom(
              s, c, inputs, Registries(s.policies, s.estimators), StageDevices(s, c, n, inputs).registries)
  {
    hide StageDevice, RegistriesFrom;
    var first := Registries(s.policies, s.estimators);
    if n == 0 {
      NothingRegistered(s, c, inputs, first);
    } else {
      StagedRegistries(s, c, n - 1, inputs);
      var middle := StageDevices(s, c, n - 1, inputs).registries;
      StageDeviceRegistries(s, c, n - 1, middle, inputs);
      RegistriesThrough(s, c, inputs, first, middle, StageDevice(s, c, n - 1, middle, inputs).registries);
    }
  }

  lemma {:induction false} StagedMap(s: Ledger, c: Config, n: nat, inputs: ConfigInputs)
    requires n <= |c.devices|
    requires StageDevices(s, c, n, inputs).outcome.Success?
    ensures StagedUpTo(s, c, n, inputs)
  {
    var first, staged := Registries(s.policies, s.estimators), StageDevices(s, c, n, inputs);
    assert n > 0 ==> StageDevices(s, c, n - 1, inputs).outcome.Success?;
    hide StageDevices, AsConfigured, RegistriesFrom, LastOfItsId;
    StagedIds(s, c, n, inputs);
    StagedRegistries(s, c, n, inputs);
    if n > 0 {
      StagedMap(s, c, n - 1, inputs);
      forall i | 0 <= i < n && LastOfItsId(c, i, n)
        ensures AsConfigured(
                  s, c, i, inputs, first, staged.registries, staged.outcome.value[c.devices[i].profile.deviceId])
      {
        StagedStays(s, c, n, inputs, i);
      }
    }
  }

  lemma NothingRegistered(s: Ledger, c: Config, inputs: ConfigInputs, known: Registries)
    ensures RegistriesFrom(s, c, inputs, known, known)
  {
  }

  lemma LastAmongFewer(c: Config, i: nat, n: nat)
    requires i < n - 1 < |c.devices| && LastOfItsId(c, i, n)
    ensures LastOfItsId(c, i, n - 1) && c.devices[n - 1].profile.deviceId != c.devices[i].profile.deviceId
  {
  }

  lemma StagedAt(s: Ledger, c: Config, n: nat, inputs: ConfigInputs, i: nat)
    requires i < n <= |c.devices| && LastOfItsId(c, i, n)
    requires StageDevices(s, c, n, inputs).outcome.Success? && StagedUpTo(s, c, n, inputs)
    ensures c.devices[i].profile.deviceId in StageDevices(s, c, n, inputs).outcome.value
    ensures AsConfigured(
              s, c, i, inputs, Registries(s.policies, s.estimators), StageDevices(s, c, n, inputs).registries,
              StageDevices(s, c, n, inputs).outcome.value[c.devices[i].profile.deviceId])
  {
    hide StageDevices, AsConfigured, RegistriesFrom, LastOfItsId;
  }

  /** A device staged as configured stays so when one more device, of another id, has been staged. */
  lemma StagedStays(s: Ledger, c: Config, n: nat, inputs: ConfigInputs, i: nat)
    requires i < n <= |c.devices| && LastOfItsId(c, i, n)
    requires StageDevices(s, c, n, inputs).outcome.Success? && StagedUpTo(s, c, n - 1, inputs)
    ensures c.devices[i].profile.deviceId in StageDevices(s, c, n, inputs).outcome.value
    ensures AsConfigured(
              s, c, i, inputs, Registries(s.policies, s.estimators), StageDevices(s, c, n, inputs).registries,
              StageDevices(s, c, n, inputs).outcome.value[c.devices[i].profile.deviceId])
  {
    hide StageDevice, AsConfigured, Grown, RegistriesFrom, LastOfItsId, StagedUpTo;
    var first := Registries(s.policies, s.estimators);
    var before, after := StageDevices(s, c, n - 1, inputs), StageDevices(s, c, n, inputs);
    StageDeviceGrows(s, c, n - 1, before.registries, inputs);
    GrownItself(first);
    GrownItself(after.registries);
    if i < n - 1 {
      LastAmongFewer(c, i, n);
      StagedAt(s, c, n - 1, inputs, i);
      var dev := after.outcome.value[c.devices[i].profile.deviceId];
      AsConfiguredWider(s, c, i, inputs, first, first, before.registries, after.registries, dev);
    } else {
      StagedAsConfigured(s, c, n - 1, before.registries, inputs);
      var dev := after.outcome.value[c.devices[i].profile.deviceId];
      StagedRegistries(s, c, n - 1, inputs);
      FromGrown(s, c, inputs, first, before.registries);
      AsConfiguredWider(s, c, i, inputs, first, before.registries, after.registries, after.registries, dev);
    }
  }

  lemma FromGrown(s: Ledger, c: Config, inputs: ConfigInputs, before: Registries, after: Registries)
    requires RegistriesFrom(s, c, inputs, before, after)
    ensures Grown(before.policies, after.policies) && Grown(before.estimators, after.estimators)
  {
    hide Grown, NewlyLoaded;
  }

  lemma GrownItself(r: Registries)
    ensures Grown(r.policies, r.policies) && Grown(r.estimators, r.estimators)
  {
  }

  /**
   A load is a transaction. Success leaves each configured device with the profile of its entry, the last one of
   its id, and exactly the estimator and policy its names stand for, initialised from the entry's options; the
   others untouched in a merge and gone in a replacement; the paths appended or replaced; every plugin known
   before still registered, and any new one from a path asked for a configured name. Failure changes nothing.
   */
  lemma LoadIsTransaction(s: Ledger, c: Config, mode: ConfigMode, inputs: ConfigInputs)
    ensures var (status, t) := LoadConfig(s, c, mode, inputs);
            var first, last := Registries(s.policies, s.estimators), Registries(t.policies, t.estimators);
            && (status != OK ==> t == s)
            && (status == OK ==>
                  && t == s.(devices := t.devices, policies := t.policies, estimators := t.estimators,
                             policyPaths := t.policyPaths, estimatorPaths := t.estimatorPaths)
                  && (forall i :: 0 <= i < |c.devices| ==> c.devices[i].profile.deviceId in t.devices)
                  && (forall i :: 0 <= i < |c.devices| && LastOfItsId(c, i, |c.devices|) ==>
                        AsConfigured(s, c, i, inputs, first, last, t.devices[c.devices[i].profile.deviceId]))
                  && (forall id :: !Configures(c, id) ==>
                        (id in t.devices <==> mode.Merge? && id in s.devices)
                        && (id in t.devices ==> t.devices[id] == s.devices[id]))
                  && t.policyPaths == (if mode.Merge? then s.policyPaths else []) + c.policyPaths
                  && t.estimatorPaths == (if mode.Merge? then s.estimatorPaths else []) + c.estimatorPaths
                  && RegistriesFrom(s, c, inputs, first, last))
  {
    hide AsConfigured, StageDevices, HasActive, ValidProfile, OmitsActive, RegistriesFrom;
    if LoadConfig(s, c, mode, inputs).0 == OK {
      StagedMap(s, c, |c.devices|, inputs);
      assert [] + c.policyPaths == c.policyPaths && [] + c.estimatorPaths == c.estimatorPaths;
    }
  }
}
