/**
 A registered device as the object the source keeps (src/qhw_device.c, src/qhw_policy.c, src/qhw_estimator.c):
 its profile, estimator and policy are replaced in place, and a version counts each replacement.
 */
module DeviceEntries {
  import opened CheckedMath
  import opened Metadata
  import opened Records
  import opened PolicyCommon
  import CreditPolicy
  import RatePolicy
  import opened Policies
  import opened BaselineEstimator
  import opened PluginRegistry
  import opened LedgerModel

  class DeviceEntry {
    var profile: Profile
    var profileVersion: u64
    var estimator: EstimatorKind
    var estimatorVersion: u64
    var policy: Option<Policy>
    var policyVersion: u64

    function Model(): Device
      reads this
    {
      Device(profile, profileVersion, estimator, estimatorVersion, policy, policyVersion)
    }

    constructor (p: Profile)
      ensures Model() == NewDevice(p)
    {
      profile, profileVersion := p, 1;
      estimator, estimatorVersion := BuiltIn, 1;
      policy, policyVersion := None, 0;
    }

    /** Takes over everything from a new entry but counts on from its own profile version. */
    method ReplaceWith(src: DeviceEntry)
      requires src != this
      modifies this
      ensures Model() == src.Model().(profileVersion := Increment(old(profileVersion)))
    {
      var version := Increment(profileVersion);
      profile, estimator, estimatorVersion := src.profile, src.estimator, src.estimatorVersion;
      policy, policyVersion := src.policy, src.policyVersion;
      profileVersion := version;
    }

    method ReplaceBaseline(b: Baseline)
      modifies this
      ensures Model() == WithBaseline(old(Model()), b)
    {
      profile := profile.(baseline := b);
      profileVersion := Increment(profileVersion);
    }

    /** The baseline's time as the device's estimator answers it, in checked arithmetic for the built-in one. */
    method BaselineTime(plugin: Result<Estimate>) returns (time: Result<u64>)
      ensures var e := BaselineAnswer(Model(), plugin);
              time == if e.Failure? || e.value.totalNs == 0 then Failure(Error.Estimator) else Success(e.value.totalNs)
    {
      var e := plugin;
      if estimator.BuiltIn? {
        if !ValidBaseline(profile.baseline) {
          return Failure(Error.Estimator);
        }
        e := EstimateShapeChecked(profile, BaselineTask(profile.baseline), profile.timing);
      }
      if e.Failure? || e.value.totalNs == 0 {
        return Failure(Error.Estimator);
      }
      return Success(e.value.totalNs);
    }

    method DeriveTotalCredits(plugin: Result<Estimate>) returns (total: Result<u64>)
      ensures total == LedgerModel.DeriveTotalCredits(Model(), plugin)
    {
      if profile.totalCredits != 0 {
        return Success(profile.totalCredits);
      }
      if profile.timeSpanNs == 0 {
        return Success(0);
      }
      var time :- BaselineTime(plugin);
      DivisionFacts(profile.timeSpanNs, time);
      return Success(profile.timeSpanNs / time);
    }

    method DeriveTotalRate(plugin: Result<Estimate>) returns (total: Result<u64>)
      ensures total == LedgerModel.DeriveTotalRate(Model(), plugin)
    {
      if profile.deviceRate != 0 {
        return Success(profile.deviceRate);
      }
      if profile.timeSpanNs == 0 {
        return Success(0);
      }
      var time :- BaselineTime(plugin);
      return CeilDiv(profile.timeSpanNs, time);
    }

    method EstimateRequest(r: Request, plugin: Result<Estimate>) returns (e: Result<Estimate>)
      ensures e == LedgerModel.EstimateRequest(Model(), r, plugin)
    {
      if estimator.BuiltIn? {
        e := EstimateTasksChecked(profile, r.taskClasses);
      } else {
        e := plugin;
      }
    }

    /** A slice option of the wrong type is an error wherever it stands; otherwise the last one counts. */
    static method FindRateSliceOption(options: seq<KeyValue>) returns (slice: Result<u64>)
      ensures slice == RateSliceOption(options)
    {
      var found := 0;
      for i := 0 to |options|
        invariant RateSliceOption(options[..i]) == Success(found)
      {
        assert options[..i + 1][..i] == options[..i];
        if options[i].key == OPT_RATE_SLICE {
          if !options[i].value.payload.U64? {
            SliceFailureStays(options, i + 1);
            return Failure(Inval);
          }
          found := options[i].value.payload.u64;
        }
      }
      assert options[..|options|] == options;
      return Success(found);
    }

    method ValidateRateOptions(name: string, options: seq<KeyValue>, plugin: Result<Estimate>) returns (status: Status)
      ensures status == RateOptionsStatus(Model(), name, options, plugin)
    {
      if name != RATE_POLICY_NAME {
        return OK;
      }
      var slice := FindRateSliceOption(options);
      if slice.Failure? || slice.value == 0 {
        return slice.Status();
      }
      var total := DeriveTotalRate(plugin);
      if total.Failure? {
        return total.Status();
      }
      return if slice.value > total.value then Err(Inval) else OK;
    }

    /** Selects a policy; the old one stays, with its version, unless the new one could be initialised. */
    method SetPolicyEntry(plugin: Option<Plugin<PolicyKind>>, options: seq<KeyValue>, setup: SetupInputs)
      returns (status: Status)
      modifies this
      ensures var dev := SetDevicePolicy(old(Model()), plugin, options, setup);
              status == dev.Status() && Model() == if dev.Success? then dev.value else old(Model())
      ensures profile == old(profile)
    {
      if plugin.None? {
        return Err(Inval);
      }
      status := ValidateRateOptions(plugin.value.name, options, setup.baseline);
      if status.Err? {
        return;
      }
      match plugin.value.kind {
        case CreditKind =>
          var state := CreditPolicy.InitState(profile, options);
          if state.Failure? {
            return state.Status();
          }
          policy := Some(Credit(state.value));
        case RateKind =>
          var state := RatePolicy.InitState(profile, options);
          if state.Failure? {
            return state.Status();
          }
          policy := Some(Rate(state.value));
        case CustomKind(capacity) =>
          if setup.policyInit.Err? {
            return setup.policyInit;
          }
          policy := Some(Custom(capacity));
      }
      policyVersion := Increment(policyVersion);
      return OK;
    }

    method SetEstimatorEntry(plugin: Option<Plugin<EstimatorKind>>, setup: SetupInputs) returns (status: Status)
      modifies this
      ensures var dev := SetDeviceEstimator(old(Model()), plugin, setup);
              status == dev.Status() && Model() == if dev.Success? then dev.value else old(Model())
      ensures profile == old(profile)
    {
      if plugin.None? {
        return Err(Inval);
      }
      if plugin.value.kind.PluginEstimator? && setup.estimatorInit.Err? {
        return setup.estimatorInit;
      }
      estimator := plugin.value.kind;
      estimatorVersion := Increment(estimatorVersion);
      return OK;
    }
  }

  lemma {:induction false} SliceFailureStays(options: seq<KeyValue>, n: nat)
    requires n <= |options| && RateSliceOption(options[..n]).Failure?
    ensures RateSliceOption(options) == RateSliceOption(options[..n])
  {
    if n == |options| {
      assert options[..n] == options;
    } else {
      assert options[..|options| - 1][..n] == options[..n];
      SliceFailureStays(options[..|options| - 1], n);
    }
  }
}
