/**
 The built-in estimate written out over the fields of task, timing and profile: every term that counts, how often
 it counts, and what a metadata entry replaces.
 */
module EstimateLaws {
  import opened CheckedMath
  import opened Metadata
  import opened Records
  import opened BaselineEstimator

  /** Gates and measurements of one circuit, each at its own price. */
  function Priced(s: TaskClass, oneQ: nat, twoQ: nat, measurement: nat): nat {
    s.oneQGateCount * oneQ + s.twoQGateCount * twoQ + s.measurementCount * measurement
  }

  /**
   The whole estimate of a shape. Gates and measurements are executed once a shot, and moved once a repetition; the
   compile, control and provider times count once a repetition. It fails exactly on a shape the device cannot run
   or a total beyond 64 bits.
   */
  lemma ShapeEstimateExact(p: Profile, s: TaskClass, t: Timing)
    ensures var shot := Priced(s, t.oneQGateNs, t.twoQGateNs, t.measurementNs);
            var moved := Priced(s, t.oneQGateTransferNs, t.twoQGateTransferNs, t.measurementTransferNs);
            var once := t.compileNs + t.controlOverheadNs + t.providerOverheadNs;
            var total := s.count * (s.shots * shot + moved + once);
            var e := EstimateShape(p, s, t);
            && (e.Success? <==>
                  && s.count > 0 && s.shots > 0 && 0 < s.qubitCount <= p.maxQubits
                  && (p.maxShots == 0 || s.shots <= p.maxShots)
                  && total <= U64_MAX)
            && (e.Failure? ==> e.error == Inval)
            && (e.Success? ==>
                  && e.value.executionNs == s.count * (s.shots * shot)
                  && e.value.measurementNs == s.count * (s.shots * (s.measurementCount * t.measurementNs))
                  && e.value.transferNs == s.count * moved
                  && e.value.compileNs == s.count * t.compileNs
                  && e.value.controlOverheadNs == s.count * t.controlOverheadNs
                  && e.value.totalNs == total
                  && e.value.baselineUnits == 0
                  && e.value.confidencePpm == 1_000_000)
  {
    var shot := Priced(s, t.oneQGateNs, t.twoQGateNs, t.measurementNs);
    var moved := Priced(s, t.oneQGateTransferNs, t.twoQGateTransferNs, t.measurementTransferNs);
    RunExact(s, t);
    hide ExecutionPerRun, TransferPerRun, Priced;
    assert NsPerRun(s, t) == s.shots * shot + moved + t.compileNs + t.controlOverheadNs + t.providerOverheadNs;
    hide NsPerRun, MeasurePerShot;
    Commutes(NsPerRun(s, t), s.count);
    Commutes(s.shots * shot, s.count);
    Commutes(moved, s.count);
    Commutes(MeasurePerShot(s, t), s.shots);
    Commutes(MeasurePerShot(s, t) * s.shots, s.count);
    Commutes(t.compileNs, s.count);
    Commutes(t.controlOverheadNs, s.count);
  }

  lemma RunExact(s: TaskClass, t: Timing)
    ensures ExecutionPerRun(s, t) == s.shots * Priced(s, t.oneQGateNs, t.twoQGateNs, t.measurementNs)
    ensures TransferPerRun(s, t) == Priced(s, t.oneQGateTransferNs, t.twoQGateTransferNs, t.measurementTransferNs)
    ensures MeasurePerShot(s, t) == s.measurementCount * t.measurementNs
  {
    assert GatesPerShot(s, t) + MeasurePerShot(s, t) == Priced(s, t.oneQGateNs, t.twoQGateNs, t.measurementNs);
    hide GatesPerShot, MeasurePerShot, Priced;
    Commutes(Priced(s, t.oneQGateNs, t.twoQGateNs, t.measurementNs), s.shots);
  }

  lemma Commutes(a: nat, b: nat)
    ensures a * b == b * a
  {
  }

  /** The baseline circuit as a task of its own, once. */
  function Circuit(b: Baseline): TaskClass {
    TaskClass(1, b.qubitCount, b.oneQGateCount, b.twoQGateCount, b.shots, b.measurementCount, [])
  }

  /** The unit is the time of the device's own baseline circuit, run once with the device's own timing. */
  lemma UnitIsBaselineTime(p: Profile)
    ensures var b, t, circuit := p.baseline, p.timing, Circuit(p.baseline);
            var time := b.shots * Priced(circuit, t.oneQGateNs, t.twoQGateNs, t.measurementNs)
                        + Priced(circuit, t.oneQGateTransferNs, t.twoQGateTransferNs, t.measurementTransferNs)
                        + t.compileNs + t.controlOverheadNs + t.providerOverheadNs;
            && (UnitNs(p).Some? <==>
                  && b.shots > 0 && b.measurementCount > 0 && 0 < b.qubitCount <= p.maxQubits
                  && (p.maxShots == 0 || b.shots <= p.maxShots)
                  && 0 < time <= U64_MAX)
            && (UnitNs(p).Some? ==> UnitNs(p).value == time)
  {
    ShapeEstimateExact(p, Circuit(p.baseline), p.timing);
    hide EstimateShape, Priced;
  }

  /** The baseline's own estimate is that of the circuit, as one unit; a circuit without measurement has none. */
  lemma BaselineEstimateExact(p: Profile)
    ensures var shape := EstimateShape(p, Circuit(p.baseline), p.timing);
            EstimateBaseline(p)
            == if p.baseline.measurementCount == 0 || shape.Failure? then Failure(Inval)
               else Success(shape.value.(baselineUnits := 1))
  {
    hide ShapeTotalNs, ShapeParts;
  }

  /** A number read from metadata is the first one under its key, the fallback without any, an error otherwise. */
  lemma {:induction false} FirstUnderKey(kvs: seq<KeyValue>, key: u64, fallback: u64, i: nat)
    requires i <= |kvs| && forall j :: 0 <= j < i ==> kvs[j].key != key
    requires i < |kvs| ==> kvs[i].key == key
    ensures GetU64(kvs, key, fallback)
         == if i == |kvs| then Success(fallback)
            else match kvs[i].value.payload case U64(n) => Success(n) case _ => Failure(Inval)
  {
    if i > 0 {
      FirstUnderKey(kvs[1..], key, fallback, i - 1);
    }
  }

  /** Which key replaces which time. */
  lemma OverridesByKey(kvs: seq<KeyValue>, t: Timing)
    ensures var o := OverrideTiming(kvs, t);
            && (o.Failure? ==> o.error == Inval)
            && (o.Success? <==>
                  && GetU64(kvs, 11, t.compileNs).Success?
                  && GetU64(kvs, 14, t.controlOverheadNs).Success?
                  && GetU64(kvs, 15, t.providerOverheadNs).Success?
                  && GetU64(kvs, 16, t.oneQGateNs).Success?
                  && GetU64(kvs, 17, t.twoQGateNs).Success?
                  && GetU64(kvs, 18, t.measurementNs).Success?
                  && GetU64(kvs, 19, t.oneQGateTransferNs).Success?
                  && GetU64(kvs, 20, t.twoQGateTransferNs).Success?
                  && GetU64(kvs, 21, t.measurementTransferNs).Success?)
            && (o.Success? ==>
                  && GetU64(kvs, 11, t.compileNs).value == o.value.compileNs
                  && GetU64(kvs, 14, t.controlOverheadNs).value == o.value.controlOverheadNs
                  && GetU64(kvs, 15, t.providerOverheadNs).value == o.value.providerOverheadNs
                  && GetU64(kvs, 16, t.oneQGateNs).value == o.value.oneQGateNs
                  && GetU64(kvs, 17, t.twoQGateNs).value == o.value.twoQGateNs
                  && GetU64(kvs, 18, t.measurementNs).value == o.value.measurementNs
                  && GetU64(kvs, 19, t.oneQGateTransferNs).value == o.value.oneQGateTransferNs
                  && GetU64(kvs, 20, t.twoQGateTransferNs).value == o.value.twoQGateTransferNs
                  && GetU64(kvs, 21, t.measurementTransferNs).value == o.value.measurementTransferNs)
  {
    forall key: u64, fallback: u64
      ensures GetU64(kvs, key, fallback).Failure? ==> GetU64(kvs, key, fallback).error == Inval
    {
      FailsAsInvalid(kvs, key, fallback);
    }
    hide GetU64;
  }

  lemma {:induction false} FailsAsInvalid(kvs: seq<KeyValue>, key: u64, fallback: u64)
    ensures GetU64(kvs, key, fallback).Failure? ==> GetU64(kvs, key, fallback).error == Inval
  {
    if |kvs| != 0 {
      FailsAsInvalid(kvs[1..], key, fallback);
    }
  }

  /** A task costs its shape under the replaced times, in units rounded up to cover it and never below one. */
  lemma TaskEstimateExact(p: Profile, task: TaskClass)
    ensures var e, t := EstimateTask(p, task), OverrideTiming(task.metadata, p.timing);
            && (t.Failure? ==> e == Failure(t.error))
            && (t.Success? && EstimateShape(p, task, t.value).Failure? ==> e == Failure(Inval))
            && (t.Success? && EstimateShape(p, task, t.value).Success? && UnitNs(p).None? ==>
                  e == Failure(Error.Estimator))
            && (t.Success? && EstimateShape(p, task, t.value).Success? && UnitNs(p).Some? ==>
                  && e.Success?
                  && e.value == EstimateShape(p, task, t.value).value.(baselineUnits := e.value.baselineUnits)
                  && e.value.baselineUnits >= 1
                  && e.value.totalNs <= e.value.baselineUnits * UnitNs(p).value
                  && (forall n: nat :: n >= 1 && e.value.totalNs <= n * UnitNs(p).value ==>
                        e.value.baselineUnits <= n))
  {
    hide OverrideTiming, ShapeTotalNs, ShapeParts, ValidShape;
    var e, t := EstimateTask(p, task), OverrideTiming(task.metadata, p.timing);
    if e.Success? {
      forall n: nat | n >= 1 && e.value.totalNs <= n * UnitNs(p).value
        ensures e.value.baselineUnits <= n
      {
        if n < e.value.baselineUnits {
          MulMonotone(UnitNs(p).value, n, e.value.baselineUnits - 1);
        }
      }
    }
  }

  /** A request costs the sum over its tasks, in every part; it fails on the first task or sum that does. */
  lemma RequestEstimateSums(p: Profile, tasks: seq<TaskClass>, task: TaskClass)
    ensures EstimateTasks(p, []) == Success(Estimate(0, 0, 0, 0, 0, 0, 0, 1_000_000))
    ensures var r, a, b := EstimateTasks(p, tasks + [task]), EstimateTasks(p, tasks), EstimateTask(p, task);
            && (a.Failure? ==> r == a)
            && (a.Success? && b.Failure? ==> r == b)
            && (a.Success? && b.Success? ==>
                  && (r.Success? <==>
                        && a.value.executionNs + b.value.executionNs <= U64_MAX
                        && a.value.measurementNs + b.value.measurementNs <= U64_MAX
                        && a.value.compileNs + b.value.compileNs <= U64_MAX
                        && a.value.transferNs + b.value.transferNs <= U64_MAX
                        && a.value.controlOverheadNs + b.value.controlOverheadNs <= U64_MAX
                        && a.value.totalNs + b.value.totalNs <= U64_MAX
                        && a.value.baselineUnits + b.value.baselineUnits <= U64_MAX)
                  && (r.Failure? ==> r.error == Inval)
                  && (r.Success? ==>
                        && r.value.executionNs == a.value.executionNs + b.value.executionNs
                        && r.value.measurementNs == a.value.measurementNs + b.value.measurementNs
                        && r.value.compileNs == a.value.compileNs + b.value.compileNs
                        && r.value.transferNs == a.value.transferNs + b.value.transferNs
                        && r.value.controlOverheadNs == a.value.controlOverheadNs + b.value.controlOverheadNs
                        && r.value.totalNs == a.value.totalNs + b.value.totalNs
                        && r.value.baselineUnits == a.value.baselineUnits + b.value.baselineUnits
                        && r.value.confidencePpm == Min(a.value.confidencePpm, b.value.confidencePpm)))
  {
    hide EstimateTask;
    assert (tasks + [task])[..|tasks|] == tasks;
  }

  /** Which circuits, profiles and shapes the library accepts. */
  lemma ProfileAcceptedIff(p: Profile, b: Baseline)
    ensures ValidBaseline(b) <==> b.qubitCount > 0 && b.shots > 0 && b.measurementCount > 0
    ensures BaselineFits(p, b) <==> b.qubitCount <= p.maxQubits && (b.shots <= p.maxShots || p.maxShots == 0)
    ensures ValidProfile(p) <==>
            && p.deviceId > 0
            && p.timing.oneQGateNs > 0 && p.timing.twoQGateNs > 0 && p.timing.measurementNs > 0
            && p.baseline.shots > 0 && p.baseline.measurementCount > 0
            && 0 < p.baseline.qubitCount <= p.maxQubits
            && (p.baseline.shots <= p.maxShots || p.maxShots == 0)
  {
  }
}
