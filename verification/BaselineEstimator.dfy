/**
 The built-in estimator (src/estimators/baseline.c): checked 64-bit arithmetic that turns a task shape
 into nanoseconds and nanoseconds into rounded-up baseline units.

 The functions state the exact mathematics; the methods follow the checked steps of the source and are
 proved to answer exactly the same.
 */
module BaselineEstimator {
  import opened CheckedMath
  import opened Metadata
  import opened Records

  const FULL_CONFIDENCE_PPM: u32 := 1000000

  const META_COMPILE_NS: u64 := 11
  const META_CONTROL_OVERHEAD_NS: u64 := 14
  const META_PROVIDER_OVERHEAD_NS: u64 := 15
  const META_ONE_Q_GATE_NS: u64 := 16
  const META_TWO_Q_GATE_NS: u64 := 17
  const META_MEASUREMENT_NS: u64 := 18
  const META_ONE_Q_GATE_TRANSFER_NS: u64 := 19
  const META_TWO_Q_GATE_TRANSFER_NS: u64 := 20
  const META_MEASUREMENT_TRANSFER_NS: u64 := 21

  predicate ValidBaseline(b: Baseline) {
    b.qubitCount != 0 && b.shots != 0 && b.measurementCount != 0
  }

  predicate BaselineFits(p: Profile, b: Baseline) {
    && b.qubitCount <= p.maxQubits
    && (p.maxShots != 0 ==> b.shots <= p.maxShots)
  }

  predicate ValidProfile(p: Profile) {
    && p.deviceId != 0
    && p.maxQubits != 0
    && BaselineFits(p, p.baseline)
    && p.timing.oneQGateNs != 0
    && p.timing.twoQGateNs != 0
    && p.timing.measurementNs != 0
    && ValidBaseline(p.baseline)
  }

  predicate ValidShape(p: Profile, t: TaskClass) {
    && t.count != 0
    && t.qubitCount != 0
    && t.shots != 0
    && t.qubitCount <= p.maxQubits
    && (p.maxShots != 0 ==> t.shots <= p.maxShots)
  }

  function OverrideTiming(kvs: seq<KeyValue>, t: Timing): Result<Timing> {
    var oneQ :- GetU64(kvs, META_ONE_Q_GATE_NS, t.oneQGateNs);
    var twoQ :- GetU64(kvs, META_TWO_Q_GATE_NS, t.twoQGateNs);
    var meas :- GetU64(kvs, META_MEASUREMENT_NS, t.measurementNs);
    var oneQTransfer :- GetU64(kvs, META_ONE_Q_GATE_TRANSFER_NS, t.oneQGateTransferNs);
    var twoQTransfer :- GetU64(kvs, META_TWO_Q_GATE_TRANSFER_NS, t.twoQGateTransferNs);
    var measTransfer :- GetU64(kvs, META_MEASUREMENT_TRANSFER_NS, t.measurementTransferNs);
    var compile :- GetU64(kvs, META_COMPILE_NS, t.compileNs);
    var control :- GetU64(kvs, META_CONTROL_OVERHEAD_NS, t.controlOverheadNs);
    var provider :- GetU64(kvs, META_PROVIDER_OVERHEAD_NS, t.providerOverheadNs);
    Success(Timing(oneQ, twoQ, meas, oneQTransfer, twoQTransfer, measTransfer, compile, control, provider))
  }

  // ---------------------------------------------------------------------------
  // Exact mathematics of a shape, unbounded.

  function GatesPerShot(s: TaskClass, t: Timing): nat {
    s.oneQGateCount * t.oneQGateNs + s.twoQGateCount * t.twoQGateNs
  }

  function MeasurePerShot(s: TaskClass, t: Timing): nat {
    s.measurementCount * t.measurementNs
  }

  function ExecutionPerRun(s: TaskClass, t: Timing): nat {
    (GatesPerShot(s, t) + MeasurePerShot(s, t)) * s.shots
  }

  function TransferPerRun(s: TaskClass, t: Timing): nat {
    s.oneQGateCount * t.oneQGateTransferNs
    + s.twoQGateCount * t.twoQGateTransferNs
    + s.measurementCount * t.measurementTransferNs
  }

  function NsPerRun(s: TaskClass, t: Timing): nat {
    ExecutionPerRun(s, t) + TransferPerRun(s, t) + t.compileNs + t.controlOverheadNs + t.providerOverheadNs
  }

  /** The mathematical total: the repetition count times the sum of all terms. */
  function ShapeTotalNs(s: TaskClass, t: Timing): nat {
    NsPerRun(s, t) * s.count
  }

  /** Every component of a shape is at most the total. */
  lemma ComponentsWithinTotal(s: TaskClass, t: Timing)
    requires s.count != 0 && s.shots != 0
    ensures GatesPerShot(s, t) + MeasurePerShot(s, t) <= ExecutionPerRun(s, t) <= NsPerRun(s, t)
    ensures NsPerRun(s, t) <= ShapeTotalNs(s, t)
    ensures ExecutionPerRun(s, t) * s.count <= ShapeTotalNs(s, t)
    ensures MeasurePerShot(s, t) * s.shots <= MeasurePerShot(s, t) * s.shots * s.count <= ShapeTotalNs(s, t)
    ensures TransferPerRun(s, t) * s.count <= ShapeTotalNs(s, t)
    ensures t.compileNs * s.count <= ShapeTotalNs(s, t)
    ensures t.controlOverheadNs * s.count <= ShapeTotalNs(s, t)
  {
    var g, m := GatesPerShot(s, t), MeasurePerShot(s, t);
    MulGrows(g + m, s.shots);
    MulMonotone(s.shots, m, g + m);
    MulGrows(m * s.shots, s.count);
    MulGrows(NsPerRun(s, t), s.count);
    MulMonotone(s.count, m * s.shots, NsPerRun(s, t));
    MulMonotone(s.count, ExecutionPerRun(s, t), NsPerRun(s, t));
    MulMonotone(s.count, TransferPerRun(s, t), NsPerRun(s, t));
    MulMonotone(s.count, t.compileNs, NsPerRun(s, t));
    MulMonotone(s.count, t.controlOverheadNs, NsPerRun(s, t));
  }

  /** Exact nanoseconds of all repetitions, one per part of the estimate. */
  datatype Parts = Parts(execution: nat, measurement: nat, compile: nat, transfer: nat, control: nat, total: nat)

  function ShapeParts(s: TaskClass, t: Timing): Parts {
    Parts(
      ExecutionPerRun(s, t) * s.count,
      MeasurePerShot(s, t) * s.shots * s.count,
      t.compileNs * s.count,
      TransferPerRun(s, t) * s.count,
      t.controlOverheadNs * s.count,
      ShapeTotalNs(s, t))
  }

  predicate PartsWithinTotal(parts: Parts) {
    && parts.execution <= parts.total
    && parts.measurement <= parts.total
    && parts.compile <= parts.total
    && parts.transfer <= parts.total
    && parts.control <= parts.total
  }

  function FromParts(parts: Parts): Estimate
    requires PartsWithinTotal(parts) && parts.total <= U64_MAX
  {
    Estimate(
      parts.execution, parts.measurement, parts.compile, parts.transfer, parts.control, parts.total,
      0, FULL_CONFIDENCE_PPM)
  }

  lemma ShapePartsWithinTotal(s: TaskClass, t: Timing)
    requires s.count != 0 && s.shots != 0
    ensures PartsWithinTotal(ShapeParts(s, t))
  {
    ComponentsWithinTotal(s, t);
  }

  /** What the estimator promises for a shape: exact values, or an error when the total does not fit. */
  function EstimateShape(p: Profile, s: TaskClass, t: Timing): Result<Estimate> {
    if !ValidShape(p, s) || ShapeTotalNs(s, t) > U64_MAX then
      Failure(Inval)
    else
      ShapePartsWithinTotal(s, t);
      Success(FromParts(ShapeParts(s, t)))
  }

  // ---------------------------------------------------------------------------
  // The checked computation of the source.

  /** Adds count * unit to a running total. */
  method AccumulateTerm(count: u64, unit: u64, total: u64) returns (r: Result<u64>)
    ensures r.Success? <==> total + count * unit <= U64_MAX
    ensures r.Success? ==> r.value == total + count * unit
    ensures r.Failure? ==> r.error == Inval
  {
    var term :- Mul(count, unit);
    r := Add(total, term);
  }

  /** The gate, measurement and shot part of a shape, step by step. */
  method ExecutionTerms(s: TaskClass, t: Timing) returns (r: Result<(u64, u64)>)
    requires s.shots != 0
    ensures r.Success? <==> ExecutionPerRun(s, t) <= U64_MAX
    ensures r.Success? ==> r.value == (MeasurePerShot(s, t), ExecutionPerRun(s, t))
    ensures r.Failure? ==> r.error == Inval
  {
    MulGrows(GatesPerShot(s, t) + MeasurePerShot(s, t), s.shots);
    var gateNs := 0;
    gateNs :- AccumulateTerm(s.oneQGateCount, t.oneQGateNs, gateNs);
    gateNs :- AccumulateTerm(s.twoQGateCount, t.twoQGateNs, gateNs);
    var measurementPerShotNs :- Mul(s.measurementCount, t.measurementNs);
    var perShotNs :- Add(gateNs, measurementPerShotNs);
    assert perShotNs == GatesPerShot(s, t) + MeasurePerShot(s, t);
    hide GatesPerShot, MeasurePerShot;
    var executionNs :- Mul(perShotNs, s.shots);
    r := Success((measurementPerShotNs, executionNs));
  }

  method TransferTerms(s: TaskClass, t: Timing) returns (r: Result<u64>)
    ensures r.Success? <==> TransferPerRun(s, t) <= U64_MAX
    ensures r.Success? ==> r.value == TransferPerRun(s, t)
    ensures r.Failure? ==> r.error == Inval
  {
    var transferNs := 0;
    transferNs :- AccumulateTerm(s.oneQGateCount, t.oneQGateTransferNs, transferNs);
    transferNs :- AccumulateTerm(s.twoQGateCount, t.twoQGateTransferNs, transferNs);
    r := AccumulateTerm(s.measurementCount, t.measurementTransferNs, transferNs);
  }

  /** The overflow checks of the source are exact: it fails if and only if the mathematical total does not fit. */
  method EstimateShapeChecked(p: Profile, s: TaskClass, t: Timing) returns (r: Result<Estimate>)
    ensures r == EstimateShape(p, s, t)
  {
    if s.count == 0 || s.qubitCount == 0 || s.shots == 0 || s.qubitCount > p.maxQubits
       || (p.maxShots != 0 && s.shots > p.maxShots) {
      return Failure(Inval);
    }
    ComponentsWithinTotal(s, t);
    var terms :- ExecutionTerms(s, t);
    var (measurementPerShotNs, executionNs) := terms;
    var transferNs :- TransferTerms(s, t);

    var totalNs :- Add(executionNs, transferNs);
    totalNs :- Add(totalNs, t.compileNs);
    totalNs :- Add(totalNs, t.controlOverheadNs);
    totalNs :- Add(totalNs, t.providerOverheadNs);

    executionNs :- Mul(executionNs, s.count);
    var measurementTotalNs :- Mul(measurementPerShotNs, s.shots);
    measurementTotalNs :- Mul(measurementTotalNs, s.count);
    transferNs :- Mul(transferNs, s.count);
    totalNs :- Mul(totalNs, s.count);
    // The last two checks of the source can no longer fail once the total fits.
    var compileNs, controlNs := Mul(t.compileNs, s.count), Mul(t.controlOverheadNs, s.count);
    assert compileNs.Success? && controlNs.Success?;
    r := Success(Estimate(
      executionNs, measurementTotalNs, compileNs.value, transferNs, controlNs.value, totalNs,
      0, FULL_CONFIDENCE_PPM));
  }

  // ---------------------------------------------------------------------------
  // Baseline circuit and task classes.

  function BaselineTask(b: Baseline): TaskClass {
    TaskClass(1, b.qubitCount, b.oneQGateCount, b.twoQGateCount, b.shots, b.measurementCount, [])
  }

  /** The estimate of the device's baseline circuit, which is one unit by definition. */
  function EstimateBaseline(p: Profile): Result<Estimate> {
    if !ValidBaseline(p.baseline) then Failure(Inval)
    else
      var e :- EstimateShape(p, BaselineTask(p.baseline), p.timing);
      Success(e.(baselineUnits := 1))
  }

  /** Nanoseconds of one baseline circuit, when that is usable as a unit. */
  function UnitNs(p: Profile): Option<u64> {
    var e := EstimateBaseline(p);
    if e.Success? && e.value.totalNs != 0 then Some(e.value.totalNs) else None
  }

  function EstimateTask(p: Profile, task: TaskClass): Result<Estimate> {
    var timing :- OverrideTiming(task.metadata, p.timing);
    var e :- EstimateShape(p, task, timing);
    var unit := UnitNs(p);
    if unit.None? then Failure(Error.Estimator)
    else
      var units := CeilDiv(e.totalNs, unit.value).value;
      Success(e.(baselineUnits := if units == 0 then 1 else units))
  }

  method EstimateTaskChecked(p: Profile, task: TaskClass) returns (r: Result<Estimate>)
    ensures r == EstimateTask(p, task)
  {
    var timing :- OverrideTiming(task.metadata, p.timing);
    var e :- EstimateShapeChecked(p, task, timing);
    if !ValidBaseline(p.baseline) {
      return Failure(Error.Estimator);
    }
    var baseline := EstimateShapeChecked(p, BaselineTask(p.baseline), p.timing);
    if baseline.Failure? || baseline.value.totalNs == 0 {
      return Failure(Error.Estimator);
    }
    var units := CeilDiv(e.totalNs, baseline.value.totalNs).value;
    if units == 0 {
      units := 1;
    }
    r := Success(e.(baselineUnits := units));
  }

  /** Units are at least one, cover the estimated time, and are the least such number. */
  lemma UnitsCoverTime(p: Profile, task: TaskClass)
    requires EstimateTask(p, task).Success?
    ensures UnitNs(p).Some? && UnitNs(p).value > 0
    ensures var e := EstimateTask(p, task).value;
            && e.baselineUnits >= 1
            && e.totalNs <= e.baselineUnits * UnitNs(p).value
            && (e.baselineUnits > 1 ==> (e.baselineUnits - 1) * UnitNs(p).value < e.totalNs)
  {
  }

  function Copies(b: Baseline, n: u64): TaskClass {
    BaselineTask(b).(count := n)
  }

  /** n copies of the baseline circuit cost exactly n units, whenever their time fits in 64 bits at all. */
  lemma CopiesOfBaselineCostExactly(p: Profile, n: u64)
    requires ValidProfile(p)
    requires n != 0
    requires UnitNs(p).Some?
    ensures var e := EstimateTask(p, Copies(p.baseline, n));
            && (e.Success? <==> n * UnitNs(p).value <= U64_MAX)
            && (e.Success? ==> e.value.baselineUnits == n && e.value.totalNs == n * UnitNs(p).value)
  {
    UnitIsOneRun(p);
    CopiesTotal(p.baseline, n, p.timing);
    NoOverride(p.timing);
    if n * UnitNs(p).value <= U64_MAX {
      ExactQuotient(n, UnitNs(p).value);
    }
  }

  lemma NoOverride(t: Timing)
    ensures OverrideTiming([], t) == Success(t)
  {
  }

  lemma UnitIsOneRun(p: Profile)
    requires UnitNs(p).Some?
    ensures UnitNs(p).value == NsPerRun(BaselineTask(p.baseline), p.timing)
  {
    assert UnitNs(p).value == ShapeTotalNs(BaselineTask(p.baseline), p.timing);
  }

  lemma CopiesTotal(b: Baseline, n: u64, t: Timing)
    ensures ShapeTotalNs(Copies(b, n), t) == n * NsPerRun(BaselineTask(b), t)
  {
    SameNsPerRun(BaselineTask(b), n, t);
  }

  lemma SameNsPerRun(s: TaskClass, n: u64, t: Timing)
    ensures NsPerRun(s.(count := n), t) == NsPerRun(s, t)
  {
  }

  lemma ExactQuotient(n: u64, unit: u64)
    requires unit > 0 && n * unit <= U64_MAX
    ensures CeilDiv(n * unit, unit) == Success(n)
  {
    var q := CeilDiv(n * unit, unit).value;
    if q < n {
      MulMonotone(unit, q + 1, n);
    } else if q > n {
      MulMonotone(unit, n, q - 1);
    }
  }

  // ---------------------------------------------------------------------------
  // A whole request: the sum over its task classes.

  function AddEstimate(total: Estimate, part: Estimate): Result<Estimate> {
    var execution :- Add(total.executionNs, part.executionNs);
    var measurement :- Add(total.measurementNs, part.measurementNs);
    var compile :- Add(total.compileNs, part.compileNs);
    var transfer :- Add(total.transferNs, part.transferNs);
    var control :- Add(total.controlOverheadNs, part.controlOverheadNs);
    var ns :- Add(total.totalNs, part.totalNs);
    var units :- Add(total.baselineUnits, part.baselineUnits);
    Success(Estimate(
      execution, measurement, compile, transfer, control, ns, units,
      if part.confidencePpm < total.confidencePpm then part.confidencePpm else total.confidencePpm))
  }

  const NO_ESTIMATE := Estimate(0, 0, 0, 0, 0, 0, 0, FULL_CONFIDENCE_PPM)

  function EstimateTasks(p: Profile, tasks: seq<TaskClass>): Result<Estimate> {
    if |tasks| == 0 then Success(NO_ESTIMATE)
    else
      var total :- EstimateTasks(p, tasks[..|tasks| - 1]);
      var part :- EstimateTask(p, tasks[|tasks| - 1]);
      AddEstimate(total, part)
  }

  method EstimateTasksChecked(p: Profile, tasks: seq<TaskClass>) returns (r: Result<Estimate>)
    ensures r == EstimateTasks(p, tasks)
  {
    var total := NO_ESTIMATE;
    for i := 0 to |tasks|
      invariant EstimateTasks(p, tasks[..i]) == Success(total)
    {
      assert tasks[..i + 1][..i] == tasks[..i];
      var part := EstimateTaskChecked(p, tasks[i]);
      if part.Failure? {
        PrefixFailureStays(p, tasks, i + 1);
        return Failure(part.error);
      }
      var sum := AddEstimate(total, part.value);
      if sum.Failure? {
        PrefixFailureStays(p, tasks, i + 1);
        return sum;
      }
      total := sum.value;
    }
    assert tasks[..|tasks|] == tasks;
    return Success(total);
  }

  lemma {:induction false} PrefixFailureStays(p: Profile, tasks: seq<TaskClass>, n: nat)
    requires n <= |tasks|
    requires EstimateTasks(p, tasks[..n]).Failure?
    ensures EstimateTasks(p, tasks) == EstimateTasks(p, tasks[..n])
  {
    if n == |tasks| {
      assert tasks[..n] == tasks;
    } else {
      var front := tasks[..|tasks| - 1];
      assert front[..n] == tasks[..n];
      PrefixFailureStays(p, front, n);
    }
  }

  /** The units of an estimated request cover its time, and are at least one for each task class. */
  lemma {:induction false} RequestUnitsCoverTime(p: Profile, tasks: seq<TaskClass>)
    requires EstimateTasks(p, tasks).Success?
    ensures EstimateTasks(p, tasks).value.baselineUnits >= |tasks|
    ensures |tasks| > 0 ==> UnitNs(p).Some? && UnitNs(p).value > 0
    ensures UnitNs(p).Some? ==>
              EstimateTasks(p, tasks).value.totalNs <= EstimateTasks(p, tasks).value.baselineUnits * UnitNs(p).value
  {
    if |tasks| != 0 {
      var front, last := tasks[..|tasks| - 1], tasks[|tasks| - 1];
      RequestUnitsCoverTime(p, front);
      UnitsCoverTime(p, last);
      var a, b := EstimateTasks(p, front).value, EstimateTask(p, last).value;
      Distribute(a.baselineUnits, b.baselineUnits, UnitNs(p).value);
    }
  }

  lemma Distribute(a: nat, b: nat, c: nat)
    ensures (a + b) * c == a * c + b * c
  {
  }
}
