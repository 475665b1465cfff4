/**
 How a configuration load stages its devices one after the other, and how the plugins it loads on the way can
 be taken out again (src/qhw_config.c).
 */
module ConfigStaging {
  import opened CheckedMath
  import opened Records
  import opened BaselineEstimator
  import opened PluginRegistry
  import opened ActiveCapacity
  import opened LedgerModel

  /** Taking the loaded names out of a registry leaves what it was before they were loaded. */
  ghost predicate Restores<T>(registry: map<string, T>, loaded: seq<string>, original: map<string, T>) {
    registry - (set name | name in loaded) == original
  }

  lemma LoadedOneMore<T>(
    before: map<string, T>, loaded: seq<string>, original: map<string, T>, after: map<string, T>, name: Option<string>)
    requires Restores(before, loaded, original)
    requires name.None? ==> after == before
    requires name.Some? ==> name.value !in before && after - {name.value} == before
    ensures Restores(after, Tracked(loaded, name), original)
  {
    if name.Some? {
      var names, more := set n | n in loaded, set n | n in Tracked(loaded, name);
      assert more == names + {name.value};
      assert after - more == after - {name.value} - names;
    }
  }

  lemma NothingLoaded<T>(registry: map<string, T>)
    ensures Restores(registry, [], registry)
  {
    assert registry - (set name | name in []) == registry;
  }

  lemma UnloadedOne<T>(registry: map<string, T>, loaded: seq<string>, original: map<string, T>)
    requires loaded != [] && Restores(registry, loaded, original)
    ensures Restores(registry - {loaded[0]}, loaded[1..], original)
  {
    var names, fewer := set n | n in loaded, set n | n in loaded[1..];
    assert loaded == [loaded[0]] + loaded[1..];
    assert names == fewer + {loaded[0]};
    assert registry - {loaded[0]} - fewer == registry - names;
  }

  function Tracked(loaded: seq<string>, name: Option<string>): seq<string> {
    if name.Some? then loaded + [name.value] else loaded
  }

  lemma {:induction false} StageFailureStays(s: Ledger, c: Config, i: nat, n: nat, inputs: ConfigInputs)
    requires i <= n <= |c.devices| && StageDevices(s, c, i, inputs).outcome.Failure?
    ensures StageDevices(s, c, n, inputs) == StageDevices(s, c, i, inputs)
  {
    if i < n {
      StageFailureStays(s, c, i, n - 1, inputs);
    }
  }

  /** Staging looks at the registries it is given, not at those of the context. */
  lemma StagingIgnoresRegistries(
    s: Ledger, t: Ledger, c: Config, i: nat, known: Registries, inputs: ConfigInputs)
    requires i < |c.devices|
    requires t == s.(policies := t.policies, estimators := t.estimators)
    ensures LedgerModel.StageDevice(t, c, i, known, inputs) == LedgerModel.StageDevice(s, c, i, known, inputs)
  {
    hide HasActive, ValidProfile, FindOrLoad, SetDeviceEstimator, SetDevicePolicy;
  }

  lemma StageOneMore(s: Ledger, c: Config, i: nat, inputs: ConfigInputs)
    requires i < |c.devices| && StageDevices(s, c, i, inputs).outcome.Success?
    ensures var before, after := StageDevices(s, c, i, inputs), StageDevices(s, c, i + 1, inputs);
            var staged := StageDevice(s, c, i, before.registries, inputs);
            && after.registries == staged.registries
            && after.outcome.Status() == staged.outcome.Status()
            && (staged.outcome.Success? ==>
                  after.outcome.value
                  == before.outcome.value[c.devices[i].profile.deviceId := staged.outcome.value])
  {
    hide StageDevice;
  }

  lemma StagingPolicyIgnoresEstimators(
    s: Ledger, t: Ledger, c: Config, i: nat, dev: Device, known: Registries, inputs: ConfigInputs)
    requires i < |c.devices|
    requires t == s.(policies := t.policies, estimators := t.estimators)
    ensures StagePolicy(t, c, i, dev, known, inputs) == StagePolicy(s, c, i, dev, known, inputs)
  {
    hide FindOrLoad, SetDevicePolicy;
  }
}
