# Admission ledger and usage accounting, verified

This project models the admission context of the library as one state machine and proves what its layers
promise together: estimated work, grants, active reservations, metered usage and device configuration.

A context holds devices and reservations. A device has a profile with a baseline circuit, an estimator and a
policy; a reservation holds credit or rate units, counters, an ordered log of usage events, a table from task id
to event and a table of measured records. A step is one public call: reserve, release, cancel, renew, expire,
authorize, consume, return, record, and the device, policy, estimator and configuration changes. In thread-safe
mode every call runs under one lock, so a step is atomic. The clock, the capacity provider's snapshot and every
answer of a plugin are arbitrary inputs of a step; that includes the capacity callback a policy plugin may have,
which replaces the view its grant is then checked against. All 64-bit limits, wrap-arounds and saturations are written
out over unbounded integers.

## How the project is laid out

- `CheckedMath`, `Metadata`, `Records`: 64-bit arithmetic, metadata lists and their comparison, the records.
- `BaselineEstimator`, `PolicyCommon`, `CreditPolicy`, `RatePolicy`, `Policies`: the built-in estimator and the
  two finite policies, beside an arbitrary plugin policy.
- `UsageLog`, `UsageModel`, `UsageInvariants`, `UsageTheorems`, `UsageOnce`: one reservation as a value, its
  operations, the invariant they keep and what follows over whole runs.
- `MapSum`, `ActiveCapacity`, `PluginRegistry`, `LedgerModel`: the context as a value and its steps.
- `LedgerInvariants`, `LedgerSteps`, `LedgerGuarantees`, `LedgerAdmission`, `LedgerLifecycle`: the invariant of
  the context, its preservation by every step, and the guarantees in every reachable state. `LedgerCeilings`
  bounds devices whose totals a plugin estimator derives anew at every call. `LedgerExample` and `LedgerDerived`
  reach contexts, from the empty one, with active reservations and with every promise broken that does not hold.
- `MetadataLaws`, `EstimateLaws`, `PolicyLaws`, `WindowLaws`, `UsageLaws`, `BookLaws`, `CapacityLaws`,
  `AdmissionLaws`, `LifecycleLaws`, `DeviceLaws`, `ReachLaws`: what each operation answers and changes, and the
  main results once more, stated over the fields of the records alone. They fix the definitions everything else is
  stated with: windows are intervals of time, amounts are numbers of a usage, estimates are sums over a task, and
  every error has its condition.
- `ConfigStaging` and the files `ReservationEntry.dfy`, `DeviceEntry.dfy`, `AdmissionContext.dfy`: the objects the
  library updates in place, each method proved to perform exactly the step the value model specifies. What is
  proved about steps and runs therefore holds of the objects.

## Main results

1. Time: with the built-in estimator and the credit policy, the estimated time of all active reservations
   together never exceeds the credit limit times the baseline time; with derived credits and no overcommit it
   never exceeds the device's time span (`BookLaws.AdmittedTimeWithinSpan`, every term of a time in
   `EstimateLaws.ShapeEstimateExact`).
2. Rate: on a rate device all active reservations count in the same windows, and in every window, not only the
   current one, what they consumed together is within what they reserved together and so within the device's
   total rate, under out-of-order event times and returns that edit the middle of a log
   (`WindowLaws.DeviceHoldsWithinRate`).
3. Ledger: active sums stay within total plus overcommit, and where a plugin derives the totals within the largest
   it offered; so the saturating scan is exact in any order. A request is accepted if and only if there is room
   for it (`AdmissionLaws.CreditRequestAcceptedIff`, `AdmissionLaws.RateRequestAcceptedIff`), and reserve does what
   evaluate said.
4. Usage: each task is charged and returned at most once, a retry is answered if and only if it equals the first
   call, credits are conserved, measured time is committed once (`BookLaws.TaskBooks`, `UsageLaws.RepeatedConsume`).
5. Configuration: nothing an active reservation depends on changes, and a configuration load is a transaction that
   succeeds under an exact condition (`DeviceLaws.LoadSucceedsIff`).

## Where the code promises less than one might read into it

Each has a concrete witness, in a context reached from the empty one, and the exact condition under which the
promise does hold.

- A window's fold is exact in every run if and only if the reserved rate is below the largest 64-bit number
  (`UsageTheorems.FoldNeverOverflowsIff`; witness `LedgerExample.OverflowIsReached`): a return without a task id
  can empty one window's share of the lifetime counter while another window stays full.
- A failed consume changes a counter in exactly one case, when the credit counter was written before the rate
  addition overflowed (`UsageOnce.FailedConsumeChangesIff`; witness `LedgerExample.HalfChargeIsReached`).
- An identical retry is recognised if and only if its metadata equals itself and its event time does not drift
  with the clock (`UsageOnce.RetryReplaysIff`; witnesses, a NaN and an event time of zero,
  `LedgerExample.RefusedRetriesAreReached`).
- After a successful reserve the scope is within a nonzero external limit if and only if it was within it before
  or the request asks for units: its estimate has some, or the plugin policy grants some
  (`LedgerAdmission.ScopeLimitIff`; witness `LedgerExample.ScopeBeyondLimitIsReached`, where the provider lowers
  the limit and a plugin grants nothing). Under the rate policy, and under the credit policy with the built-in
  estimator, every request does, so the limit always holds (`LedgerAdmission.ShippedPoliciesKeepScopeLimit`).
- The lifetime counter is the sum over all windows if and only if no return took away more, at its place in the
  log, than its window then held (`UsageTheorems.LifetimeIsSumOfWindowsIff`; witness
  `LedgerExample.MixedReturnsAreReached`). Runs whose returns all name a task, or none does, have no such return
  (`UsageTheorems.LifetimeWithinSumOfWindows`).
- Active units are always within the limit on the total that is derived next if and only if no plugin decides that
  total: the estimator is built in, or the profile names the total, or there is no time span to derive it from;
  for rate, which is rounded up, also on a span of one nanosecond (`LedgerDerived.DerivedCreditsBindIff`,
  `LedgerDerived.DerivedRateBindsIff`; witnesses on every other profile `LedgerDerived.CreditsFallBelow` and
  `LedgerDerived.RateFallsBelow`). What does hold on those devices: a reserve leaves its device within what that
  call was offered if and only if it was before or the request asks for units (`LedgerCeilings.OfferHoldsIff`),
  and any ceiling on what the calls of a run are offered bounds credits, rate and metered rate throughout
  (`LedgerCeilings.CeilingsHold`).
- The core's check of a grant bounds a plugin policy by the device's totals if and only if the plugin has no
  capacity callback of its own (`LedgerExample.GuardBoundsIff`; witness with one
  `LedgerExample.CapacityCallbackPassesGuard`, eleven credits out of ten).

Where the code and its documentation disagree the model follows the code: usage in baseline units counts as rate
units unscaled (src/qhw_usage.c:72-84 against docs/detailed-design.md:1446-1449), and the core does not derive
baseline units when an estimator answers zero of them (src/qhw_reservation.c:324-377 against
docs/detailed-design.md:916-921).

## Model

| member | source | states |
|---|---|---|
| `CheckedMath.Add` | src/qhw_math.c:6-18 | 64-bit addition fails exactly when the mathematical sum does not fit, and is exact otherwise |
| `CheckedMath.Mul` | src/qhw_math.c:20-32 | the division guard rejects exactly the products that do not fit |
| `CheckedMath.CeilDiv` | src/qhw_math.c:34-52 | fails only on a zero divisor; the quotient is the least that covers the dividend |
| `CheckedMath.SatAdd` | src/qhw_reservation.c:408-416 | saturating addition is the exact sum cut off at the largest number |
| `Metadata.HasUniqueKeys` | src/qhw_usage.c:86-110 | the nested loops decide key uniqueness, both ways |
| `Metadata.MetadataEqual` | src/qhw_usage.c:141-174 | the nested loops decide SameMetadata, both ways |
| `Metadata.ComparisonDecidesMapEquality` | src/qhw_usage.c:141-174 | on unique keys, in any order, the comparison is equality of the finite maps the lists stand for |
| `Metadata.ComparisonSymmetric` | src/qhw_usage.c:141-174 | the comparison is symmetric on all lists |
| `Metadata.ComparisonTransitive` | src/qhw_usage.c:141-174 | the comparison is transitive on all lists |
| `Metadata.ComparisonReflexiveIff` | src/qhw_usage.c:112-174 | a list equals itself exactly when keys are unique and no value is a NaN or of an unknown type |
| `MetadataLaws.NotANumberIff` | src/qhw_usage.c:112-139 | a double is a NaN if and only if its exponent is all ones and its fraction is not zero |
| `MetadataLaws.DoublesEqualIff` | src/qhw_usage.c:112-139 | doubles compare as numbers: both zeros are equal, a NaN equals nothing |
| `MetadataLaws.ValuesEqualIff` | src/qhw_usage.c:112-139 | two values are the same exactly under the same flags, of the same known kind and with the same content |
| `BaselineEstimator.AccumulateTerm` | src/estimators/baseline.c:139-153 | running total plus count times unit, failing exactly when that does not fit |
| `BaselineEstimator.EstimateShapeChecked` | src/estimators/baseline.c:155-307 | the checked steps succeed if and only if the shape is valid and count times the sum of all terms fits in 64 bits, and then every output is its exact value |
| `BaselineEstimator.ComponentsWithinTotal` | src/estimators/baseline.c:155-307 | every component of a shape is at most its total, so no check but the total can bind |
| `BaselineEstimator.EstimateTaskChecked` | src/estimators/baseline.c:356-402 | the task estimate equals its unbounded specification, error cases included |
| `BaselineEstimator.UnitsCoverTime` | src/estimators/baseline.c:386-399 | units are at least one, cover the time, and are the least such number |
| `BaselineEstimator.CopiesOfBaselineCostExactly` | src/estimators/baseline.c:309-402 | n copies of the baseline circuit cost exactly n units, whenever their time fits in 64 bits |
| `BaselineEstimator.EstimateTasksChecked` | src/qhw_reservation.c:280-377 | the loop over task classes adds up all parts of all estimates, or stops at the first error |
| `BaselineEstimator.RequestUnitsCoverTime` | src/qhw_reservation.c:280-377 | the units of a whole request cover its time and are at least one for each task class |
| `EstimateLaws.ShapeEstimateExact` | src/estimators/baseline.c:155-307 | all six outputs written out over task and timing: gates and measurements once a shot, their transfer and the compile, control and provider times once a repetition; it fails exactly on a shape the device cannot run or a total beyond 64 bits |
| `EstimateLaws.UnitIsBaselineTime` | src/estimators/baseline.c:309-354 | the unit is that sum for the device's own circuit and timing, and there is one exactly when the circuit can run and the sum is nonzero and fits |
| `EstimateLaws.FirstUnderKey` | src/estimators/baseline.c:54-117 | a time in metadata is the first number under its key, the device's own without one, an error on another type |
| `EstimateLaws.OverridesByKey` | src/estimators/baseline.c:54-117 | which of the nine keys replaces which time |
| `EstimateLaws.TaskEstimateExact` | src/estimators/baseline.c:356-402 | the order of a task's errors; its units are the least number of baseline times, at least one, that covers the time |
| `EstimateLaws.RequestEstimateSums` | src/qhw_reservation.c:280-377 | each figure of a request is the sum over its tasks, failing at the first task or sum that does |
| `EstimateLaws.ProfileAcceptedIff` | src/qhw_device.c:6-37 | which circuits and profiles are accepted |
| `PolicyCommon.QuantumBudget` | src/policies/rate.c:187-208 | succeeds exactly when walltime exceeds classical runtime plus overhead, and is the difference |
| `PolicyCommon.BlockedDecision` | src/policies/credit.c:312-343 | a device that is not available never gets an accepted decision |
| `CreditPolicy.ConfigureState` | src/policies/credit.c:139-160 | the option loop ends in the state the options mean in order, or in the first error |
| `CreditPolicy.PpmValueExact` | src/policies/credit.c:162-192 | for every accepted option the split computation never fails and is the exact floor of total times ppm over a million |
| `CreditPolicy.OvercommitLimitExact` | src/policies/credit.c:194-235 | the limit is the total plus the smaller configured overcommit, failing exactly when that does not fit |
| `CreditPolicy.InitState` | src/policies/credit.c:237-287 | succeeds if and only if the device can have credits, every option is accepted and the overcommit on explicit credits fits in 64 bits; the state is what the options mean, with at most a million parts |
| `RatePolicy.ConfigureState` | src/policies/rate.c:88-109 | the option loop ends in the state the options mean in order, or in the first error |
| `RatePolicy.InitState` | src/policies/rate.c:111-159 | succeeds if and only if the device has a time span, every option is accepted and the slice is within an explicit rate; the state is what the options mean |
| `RatePolicy.WideProductFits` | src/policies/rate.c:210-239 | the 128-bit intermediate never overflows |
| `RatePolicy.CeilMulDiv` | src/policies/rate.c:210-239 | the least value whose product with the divisor covers a times b; fails only when that value does not fit |
| `RatePolicy.RoundUp` | src/policies/rate.c:241-269 | the least multiple of the slice that covers the value; fails only when that multiple does not fit |
| `RatePolicy.GrantIsLeastCoveringSlice` | src/policies/rate.c:369-459 | an accepted grant covers the demand within the quantum budget, no smaller multiple of the slice does, and it fits device and availability |
| `RatePolicy.AcceptsIffSomeSliceFits` | src/policies/rate.c:369-459 | acceptance if and only if some multiple of the slice covers a nonzero demand and is available |
| `PolicyLaws.BlockedVerdict` | src/policies/credit.c:312-343 | both policies turn requests away alike, with the reason and waiting time of each state a device may be in |
| `PolicyLaws.LimitIsLetOut` | src/policies/credit.c:194-235 | the overcommit limit as a sum of total and the smaller configured allowance, failing exactly beyond 64 bits or without a total |
| `PolicyLaws.CreditVerdict` | src/policies/credit.c:351-418 | every verdict of the credit policy if and only if its condition holds, one credit for each unit |
| `PolicyLaws.DefaultSliceIs` | src/policies/rate.c:271-294 | the slice is the configured one, or an equal share of the total rate for each concurrent job, at least one |
| `PolicyLaws.RateVerdict` | src/policies/rate.c:341-459 | every verdict of the rate policy if and only if its condition on multiples of that slice holds; the grant is the least multiple that does the work, the required rate the least that does |
| `PolicyLaws.GrantOfAccepted` | src/policies/rate.c:461-553 | an accepted request is granted its amount in the policy's own kind for the configured time to live, and evaluate decides as reserve does |
| `PolicyLaws.PolicyView` | src/policies/credit.c:585-625 | the credit policy offers up to its limit, the rate policy up to the total, both under the scope's external limit |
| `PolicyLaws.CreditOptionsAccepted` | src/policies/credit.c:139-160 | which options the credit policy refuses |
| `PolicyLaws.CreditOptionsMean` | src/policies/credit.c:139-160 | each setting is what the last option under its key says |
| `PolicyLaws.RateOptions` | src/policies/rate.c:88-109 | which options the rate policy refuses, and that the last one under a key counts, either policy's key for the time to live |
| `PolicyLaws.InitialisedIff` | src/policies/rate.c:111-159 | the devices and options each policy can be initialised with |
| `UsageLog.BalanceWithinMetered` | src/qhw_usage.c:710-768 | the lifetime balance is at most the metered sum over all windows, equal when no return was short |
| `UsageLog.MeteredSumIsBalanceIff` | src/qhw_usage.c:710-768 | metered sum and balance are equal if and only if no return was short: a short return leaves a gap that never closes |
| `UsageLog.WindowsPartitionBalance` | src/qhw_usage.c:710-768 | the balances of the windows add up to the balance of the log |
| `UsageLog.ReturnLowersFold` | src/qhw_usage.c:801-814 | a return stored in the middle of the log never raises any prefix of any window |
| `UsageInvariants.ApplyIsSound` | src/qhw_usage.c:921-1374 | every operation on a reservation keeps index, node shape, lifetime balance, window bound and credit bound together |
| `UsageInvariants.RunIsSound` | src/qhw_usage.c:921-1374 | the whole invariant holds after any sequence of operations |
| `UsageInvariants.MeteredIsExact` | src/qhw_usage.c:710-768 | below the largest rate the metered value is the exact fold and at most the reserved rate |
| `UsageTheorems.WindowsStayWithinReservedRate` | src/policies/rate.c:580-610 | in every reachable state and for every window, no prefix of the fold overflows or exceeds the reserved rate, whatever the event times and returns |
| `UsageTheorems.MeteredWithinReserved` | src/qhw_usage.c:710-768 | the value the code meters never exceeds the reserved rate, the largest rate included |
| `UsageTheorems.SnapshotSplitsRate` | src/qhw_usage.c:1148-1199 | consumed and remaining rate of a snapshot add up to the reserved rate |
| `UsageTheorems.RunKeepsTerms` | src/qhw_usage.c:921-1374 | identity, grants, budget, versions and estimate of a reservation never change |
| `UsageTheorems.LifetimeCounterIsBalance` | src/qhw_usage.c:531-584 | the lifetime counter is units charged minus units given back |
| `UsageTheorems.LifetimeWithinSumOfWindows` | src/qhw_usage.c:1086-1091 | after any run the lifetime counter is at most the metered sum over all windows, and equal to it when anonymous and per-task rate returns do not mix |
| `UsageTheorems.LifetimeIsSumOfWindowsIff` | src/qhw_usage.c:1086-1091 | after any run, as long as no fold overflows, the two are equal if and only if no return took away more than its window held at its place |
| `UsageTheorems.MixedReturnsExceedLifetime` | src/qhw_usage.c:1086-1091 | a concrete mixed run, on every rate reservation, where a window meters more than the lifetime counter |
| `UsageTheorems.LargestRateOverflows` | src/qhw_usage.c:736-744 | a concrete run at the largest rate whose fold overflows |
| `UsageTheorems.FoldNeverOverflowsIff` | src/qhw_usage.c:736-744 | the fold overflows in no run if and only if the reserved rate is below the largest number |
| `WindowLaws.WindowIsInterval` | src/qhw_usage.c:721-737 | the window of a time is k if and only if k * w <= time < (k + 1) * w |
| `WindowLaws.MeteredTogetherIff` | src/qhw_usage.c:721-737 | two times are metered together if and only if one such interval contains both |
| `WindowLaws.FoldIsHeld` | src/qhw_usage.c:710-768 | the fold over a window is what its interval holds, folded over the events whose time lies in it |
| `WindowLaws.IntervalsStayWithinReservedRate` | src/qhw_usage.c:710-768 | after any run on a rate reservation no interval, at any point of the log, ever held more than the reserved rate |
| `WindowLaws.RateConsumeAcceptedIff` | src/policies/rate.c:555-610 | after any run a usage of a new task is accepted if and only if it fits beside what the interval of its event time holds |
| `UsageLaws.MeteredIsHeld` | src/qhw_usage.c:710-768 | the metered value is what the interval of the time holds, and the largest number exactly when a running total overflows |
| `UsageOnce.RunEvolves` | src/qhw_usage.c:921-1146 | log nodes are never removed, reordered or altered but for a first return; the index only grows |
| `UsageOnce.ChargedAndReturnedAtMostOnce` | src/qhw_usage.c:949-1084 | in every run a task is charged at most once, returned at most once and only if charged, never beyond its charge |
| `UsageOnce.UsageComparisonIsEquivalence` | src/qhw_usage.c:176-208 | usage comparison is symmetric and transitive, and reflexive exactly on comparable metadata |
| `UsageOnce.RetryReplaysIff` | src/qhw_usage.c:949-969 | an identical retry changes nothing and replays the stored decision if and only if metadata equals itself and the event time does not drift |
| `UsageOnce.NaNRetryIsRefused` | src/qhw_usage.c:112-174 | on every fresh reservation a usage with a NaN in its metadata is accepted and its identical retry at the same clock refused |
| `UsageOnce.DriftingRetryIsRefused` | src/qhw_usage.c:949-970 | on every fresh reservation a usage without event time, accepted while the clock read zero, is refused once the clock has moved on |
| `UsageOnce.AuthorizePredictsConsume` | src/qhw_usage.c:876-919 | authorization returns what consume would, an overflowing accepted charge being the only exception |
| `UsageOnce.KnownTaskNeverCharged` | src/qhw_usage.c:961-970 | a consume for a task in the log changes nothing; it succeeds, replaying the stored decision, if and only if it normalizes to a usage equal to the stored one |
| `UsageOnce.LaterConsumeOfTask` | src/qhw_usage.c:949-1005 | once a consume of a task succeeded, after any run every consume for that task changes nothing and succeeds, with the first decision, if and only if it equals the first usage; every conflicting one errors |
| `UsageOnce.ReturnedTaskNeverReturnedAgain` | src/qhw_usage.c:1061-1067 | after a successful task return, after any run every return for that task changes nothing and succeeds if and only if it equals the stored return; every conflicting one errors |
| `UsageOnce.FailedReturnChangesNothing` | src/qhw_usage.c:1093-1133 | a return that errors leaves counters and log as they were |
| `UsageOnce.FailedConsumeChangesIff` | src/qhw_usage.c:531-556 | a consume that errors leaves the log alone, and changes a counter if and only if credits were written before the rate addition overflowed |
| `UsageOnce.OwnUnitsFailCleanly` | src/qhw_usage.c:531-556 | usages in the reservation's own unit never hit that case |
| `UsageOnce.HalfChargeIsReachable` | src/qhw_usage.c:983-987 | every credit reservation reaches that case with two usages that carry rate units |
| `UsageOnce.CreditsAreConserved` | src/qhw_usage.c:531-620 | consumed plus unused credits equal all credits ever accepted while active, and consumption stays within the reservation |
| `UsageOnce.MeasuredTotalIsExact` | src/qhw_usage.c:622-658 | the measured total is the sum over distinct recorded tasks plus anonymous records, however feedback fails |
| `UsageOnce.FeedbackNotRepeated` | src/qhw_usage.c:1284-1299 | after a record succeeded no later record of that task calls feedback or changes anything |
| `UsageOnce.FailedFeedbackIsRetried` | src/qhw_usage.c:1284-1343 | a retry after failed feedback feeds the stored record and commits no time |
| `UsageOnce.TerminalNeverChanges` | src/qhw_usage.c:430-451 | once a reservation is no longer active no operation changes it |
| `UsageLaws.ShippedVerdict` | src/policies/credit.c:537-566 | a shipped policy accepts a usage if and only if its amount fits beside what is consumed; every other field of the decision |
| `UsageLaws.PluginVerdict` | src/qhw_usage.c:476-529 | a plugin's decision stands with its missing ids filled in, and without a callback every usage is accepted |
| `UsageLaws.NewConsumeStatus` | src/qhw_usage.c:921-1018 | the status of a consume of a new task in every case |
| `UsageLaws.AcceptedConsumeCharges` | src/qhw_usage.c:531-556 | an accepted consume raises each counter by the usage's own number of that kind, or else by its baseline units where the reservation holds that kind, which is what the shipped policy's decision requires; it is logged and nothing else changes |
| `UsageLaws.DeclinedConsumeIsCounted` | src/qhw_usage.c:996-1005 | a declined consume counts as overuse, is logged with its decision and changes no other counter |
| `UsageLaws.RefusedConsumeKeeps` | src/qhw_usage.c:983-987 | what a consume that errors leaves behind, in every case |
| `UsageLaws.RepeatedConsume` | src/qhw_usage.c:949-970 | a consume for a known task replays the decision if and only if every field agrees, times defaulted and metadata as maps |
| `UsageLaws.FirstReturnOfTask` | src/qhw_usage.c:1074-1133 | the exact condition of a task's return, the three counters after it, and its place in the log |
| `UsageLaws.ReturnWithoutCharge` | src/qhw_usage.c:1074-1084 | a task that was not charged cannot be returned |
| `UsageLaws.RepeatedReturn` | src/qhw_usage.c:1061-1067 | a second return is answered by whether it is the same, and changes nothing |
| `UsageLaws.AnonymousReturn` | src/qhw_usage.c:1086-1133 | the exact condition of a return without a task, its counters, and that it is logged only with rate |
| `UsageLaws.NewRecordCommits` | src/qhw_usage.c:1300-1343 | a new record commits the sum of its four times before feedback is asked, whatever that answers |
| `UsageLaws.RepeatedRecord` | src/qhw_usage.c:1284-1299 | a record of a known task commits nothing, and repeats feedback only while it is pending |
| `UsageLaws.EndOfReservation` | src/qhw_usage.c:1355-1374 | what an ended reservation did not use is what it still held or what had come back, whichever is more |
| `UsageLaws.LatestIsLatest` | src/qhw_usage.c:770-799 | the latest event time is the maximum over all charges and returns |
| `UsageLaws.SnapshotExact` | src/qhw_usage.c:1148-1199 | every figure of a usage snapshot, for rate in the window of the latest event |
| `BookLaws.TaskBooks` | src/qhw_usage.c:949-1084 | after any run no two nodes charge the same task, a task is returned only in its charge's node, and never for more in either unit |
| `BookLaws.RateCounterIsNet` | src/qhw_usage.c:531-584 | after any run the rate counter is all rate charged in the log less all that came back |
| `BookLaws.CreditsBalance` | src/qhw_usage.c:531-620 | on a credit reservation consumed and unused credits together are all credits charged, and no more is consumed than reserved |
| `ReservationEntries.ReservationEntry.RateWindowConsumed` | src/qhw_usage.c:710-768 | the list fold with its overflow guard computes Metered for the window of the time |
| `ReservationEntries.ReservationEntry.LatestRateEventTime` | src/qhw_usage.c:770-799 | the latest charge or return time, the clock when there is none |
| `ReservationEntries.ReservationEntry.NormalizeUsage` | src/qhw_usage.c:375-405 | normalisation with its uniqueness loop, error cases included |
| `ReservationEntries.ReservationEntry.UsageEqual` | src/qhw_usage.c:176-208 | the field comparison and metadata loops decide the specification, both ways |
| `ReservationEntries.ReservationEntry.PolicyUsageDecision` | src/qhw_usage.c:476-529 | the verdict asked with a copy whose rate counter stands for the event's window |
| `ReservationEntries.ReservationEntry.AuthorizeUsage` | src/qhw_usage.c:876-919 | authorization answers its specification and changes nothing |
| `ReservationEntries.ReservationEntry.PublishUsageEvent` | src/qhw_usage.c:693-708 | list and table stay in agreement when a node is appended |
| `ReservationEntries.ReservationEntry.AddUsageUnits` | src/qhw_usage.c:531-556 | credit counter first, rate counter second, no undo |
| `ReservationEntries.ReservationEntry.SubtractUsageUnits` | src/qhw_usage.c:558-584 | all three counters change together or not at all |
| `ReservationEntries.ReservationEntry.ValidateReturnUnits` | src/qhw_usage.c:586-603 | decides exactly whether the subtraction will succeed |
| `ReservationEntries.ReservationEntry.Consume` | src/qhw_usage.c:921-1018 | status, decision and the whole new state are those of the specification; the decision of a known task is replayed |
| `ReservationEntries.ReservationEntry.ConsumeNew` | src/qhw_usage.c:971-1005 | an unseen usage is charged or declined and published as one new node |
| `ReservationEntries.ReservationEntry.ReturnOfTask` | src/qhw_usage.c:1074-1133 | the return is stored in the charge's own node and cleared again if the callback fails |
| `ReservationEntries.ReservationEntry.ReturnAnonymous` | src/qhw_usage.c:1086-1133 | an anonymous rate return is bounded by its window and appended as a node |
| `ReservationEntries.ReservationEntry.ReturnUsage` | src/qhw_usage.c:1020-1146 | status and whole new state of a return, edits seen through the task table |
| `ReservationEntries.ReservationEntry.GetUsage` | src/qhw_usage.c:1148-1199 | the usage snapshot from the live objects |
| `ReservationEntries.ReservationEntry.AddActualUnits` | src/qhw_usage.c:622-658 | fails exactly when the exact measured sum does not fit |
| `ReservationEntries.ReservationEntry.RecordActual` | src/qhw_usage.c:1256-1353 | the record entered ahead of the counter is taken out again when the counter overflows |
| `ReservationEntries.ReservationEntry.FinalizeUnusedCapacity` | src/qhw_usage.c:1355-1374 | unused capacity is never below what was returned |
| `ReservationEntries.ReservationEntry.Transition` | src/qhw_reservation.c:1445-1496 | state and figures changed ahead of the release callback are restored exactly when it fails |
| `ReservationEntries.ReservationEntry.Renew` | src/qhw_reservation.c:1556-1597 | expiry is renewed for active reservations, unchanged on overflow |
| `ActiveCapacity.FiguresOfOneMore` | src/qhw_reservation.c:418-475 | one more reservation, whichever comes next, changes the nine running figures as the exact clipped sums need |
| `ActiveCapacity.TotalUpdate` | src/qhw_reservation.c:418-475 | replacing one reservation changes an exact sum by the difference of its parts |
| `CapacityLaws.TotalIsSum` | src/qhw_reservation.c:418-475 | a total is the sum over exactly the active reservations of the device, or of one scope on it |
| `CapacityLaws.FiguresExact` | src/qhw_reservation.c:418-475 | each of the nine figures is the sum of a field of those reservations, cut off where 64 bits end |
| `CapacityLaws.DerivedTotalsExact` | src/qhw_reservation.c:477-555 | totals named in the profile stand; others are the baseline times that fit the span, credits rounded down and rate up |
| `CapacityLaws.FixedTotalsExact` | src/qhw_reservation.c:477-555 | which totals no plugin decides, and that every derivation gives them |
| `CapacityLaws.ViewExact` | src/qhw_reservation.c:557-647 | every figure of the core's view from provider, totals and sums, and which failure comes first |
| `PluginRegistry.TryPathsInOrder` | src/qhw_policy.c:207-247 | the directory loop: first load or first already registered plugin wins, failures go on |
| `PluginRegistry.FindOrLoadPlugin` | src/qhw_policy.c:249-292 | registered, then extra paths, then own paths; registers at most one new name |
| `PluginRegistry.FindOrLoadFinds` | src/qhw_policy.c:249-292 | what a search finds is the registered plugin of the name, or one that a searched path yields for it and that is registered now |
| `DeviceEntries.DeviceEntry.ReplaceWith` | src/qhw_device.c:136-146 | the new entry in full but for a profile version counted on |
| `DeviceEntries.DeviceEntry.ReplaceBaseline` | src/qhw_device.c:366-367 | new baseline and next profile version, nothing else |
| `DeviceEntries.DeviceEntry.DeriveTotalCredits` | src/qhw_reservation.c:477-515 | explicit credits, else how often the baseline fits the time span, else an error |
| `DeviceEntries.DeviceEntry.DeriveTotalRate` | src/qhw_reservation.c:517-555 | explicit rate, else the baseline runs per time span rounded up, else an error |
| `DeviceEntries.DeviceEntry.FindRateSliceOption` | src/qhw_policy.c:310-334 | a slice of the wrong type fails wherever it stands, otherwise the last one counts |
| `DeviceEntries.DeviceEntry.SetPolicyEntry` | src/qhw_policy.c:369-410 | policy and version change only when the options pass and initialisation succeeds |
| `DeviceEntries.DeviceEntry.SetEstimatorEntry` | src/qhw_estimator.c:200-239 | estimator and version change only when initialisation succeeds |
| `LedgerInvariants.OfferedCreditsFit` | src/qhw_reservation.c:557-675 | what the policy's view offers in credits never leads the active sum past the cap |
| `LedgerInvariants.OfferedRateFits` | src/qhw_reservation.c:557-675 | what the view offers in rate never leads the active sum past the cap |
| `LedgerInvariants.GrantMeetsTerms` | src/qhw_reservation.c:989-1077 | an admitted reservation carries its own unit only and enough of it for its estimate |
| `LedgerInvariants.GrantWithinCaps` | src/qhw_reservation.c:960-987 | an admitted grant fits the caps beside everything active |
| `LedgerInvariants.ReserveKeepsInv` | src/qhw_reservation.c:1090-1239 | reserve keeps the whole invariant, whatever a plugin policy, clock or provider answers |
| `LedgerInvariants.DeviceChangeKeepsInv` | src/qhw_device.c:231-245 | changes to devices without active reservations keep the invariant |
| `LedgerInvariants.EntryChangeKeepsInv` | src/qhw_usage.c:921-1374 | operations on one reservation keep the invariant of all |
| `LedgerSteps.ConfigIsIdle` | src/qhw_config.c:1130-1215 | a configuration load changes only devices without active reservations |
| `LedgerSteps.PolicyIsIdle` | src/qhw_policy.c:515-519 | selecting a policy changes only an idle device |
| `LedgerSteps.EstimatorIsIdle` | src/qhw_estimator.c:540-544 | selecting an estimator changes only an idle device |
| `LedgerSteps.RegisterIsIdle` | src/qhw_device.c:231-245 | registering or replacing changes only an idle device |
| `LedgerSteps.BaselineIsIdle` | src/qhw_device.c:352-356 | a new baseline goes only to an idle device |
| `LedgerSteps.StepIsGood` | src/qhw_reservation.c:1090-1656 | every public step keeps the invariant, and every reservation carries on by its own operations or starts afresh |
| `LedgerSteps.ReachableIsGood` | src/qhw_reservation.c:1090-1656 | the invariant holds in every reachable state and every reservation there is a run from a fresh one |
| `ReachLaws.DeviceCallsReach` | src/qhw_device.c:207-371 | every registration, removal and new baseline leads from a reachable context to a reachable one |
| `ReachLaws.ConfigurationCallsReach` | src/qhw_config.c:1280-1401 | so does selecting a policy or an estimator and loading a configuration, failed or not |
| `ReachLaws.ReservationCallsReach` | src/qhw_reservation.c:1090-1656 | so do reserve, release, cancel, renew and expire |
| `ReachLaws.UsageCallsReach` | src/qhw_usage.c:921-1353 | so do consume, return and record |
| `LifecycleLaws.EndExact` | src/qhw_reservation.c:1445-1554 | release and cancel: the status in every case, the one reservation that ends and what it leaves unused |
| `LifecycleLaws.RenewExact` | src/qhw_reservation.c:1556-1597 | a renewal counts from the given time or the clock; the status in every case, and the one expiry that moves |
| `LifecycleLaws.UsageReaches` | src/qhw_usage.c:430-451 | consume and return change the reservation of their id alone |
| `LifecycleLaws.RecordReaches` | src/qhw_usage.c:1256-1343 | a record goes to the reservation of its id, its feedback to that reservation's device if its estimator takes it |
| `LifecycleLaws.AuthorizeExact` | src/qhw_usage.c:876-919 | authorization: each error in its order, else the verdict on the usage at its own time |
| `LedgerExample.ActiveReservationIsReachable` | src/qhw_reservation.c:1090-1239 | a context with an active credit reservation and one with an active rate reservation are reached from the empty one |
| `LedgerGuarantees.ActiveCreditsWithinLimit` | src/policies/credit.c:585-625 | in every reachable state active credits stay within total plus overcommit on a credit device whose total no plugin derives; for the others see LedgerCeilings.CeilingsHold |
| `LedgerGuarantees.ActiveRateWithinTotal` | src/qhw_reservation.c:633-643 | in every reachable state active rate stays within the total rate on a rate device whose total no plugin derives; for the others see LedgerCeilings.CeilingsHold |
| `LedgerGuarantees.ScanIsExact` | src/qhw_reservation.c:418-475 | the saturating scan never saturates on a credit or rate device, so it finds the exact sums in any order |
| `LedgerGuarantees.AdmittedTimeFits` | src/qhw_reservation.c:477-515 | estimated time of all active reservations stays within credit limit times baseline time, and within the time span with derived credits and no overcommit |
| `LedgerGuarantees.MeteredRateFits` | src/qhw_reservation.c:633-643 | windows of all active reservations align, and in every window their metered rate together stays within what is reserved, and so within a total rate that no plugin derives |
| `LedgerGuarantees.MeteredRateIsExact` | src/qhw_usage.c:710-768 | below the largest rate those figures are exact and cover what the window's own events come to |
| `LedgerGuarantees.ReservedRateSuffices` | src/policies/rate.c:341-449 | every active rate reservation satisfies rate times budget times baseline time at least estimated time times span |
| `LedgerGuarantees.EveryReservationAccounts` | src/qhw_usage.c:949-1084 | in every reachable ledger each task of each reservation is charged and returned at most once and the counters balance |
| `LedgerGuarantees.ActiveDeviceUnchanged` | src/qhw_reservation.c:1011-1057 | the device of an active reservation is registered with the versions, policy and window it was made under |
| `LedgerGuarantees.StepFreezesActiveDevices` | src/qhw_device.c:231-245 | no step changes, removes or replaces a device with an active reservation |
| `LedgerGuarantees.RunFreezesActiveDevices` | src/qhw_config.c:1183-1215 | a device keeps its configuration over any run during which a reservation on it stays active |
| `BookLaws.CreditsWithinUsable` | src/policies/credit.c:585-625 | in every reachable state the credits of the active reservations are within total plus allowance, none where that does not fit in 64 bits |
| `BookLaws.AdmittedTimeWithinSpan` | src/qhw_reservation.c:477-515 | in every reachable state the estimated times of the active reservations sum to at most that many baseline times, and to at most the time span with derived credits and no overcommit |
| `BookLaws.RateWithinTotal` | src/qhw_reservation.c:633-643 | in every reachable state the rates of the active reservations sum to at most the total |
| `WindowLaws.DeviceHoldsWithinRate` | src/qhw_reservation.c:633-643 | in every reachable state and every interval of the time span, what the active reservations of a rate device hold is within what they reserved, and that within the total rate |
| `LedgerAdmission.GuardBoundsAnyPolicy` | src/qhw_reservation.c:960-987 | the core guard alone bounds the active sums of a plugin policy without capacity callback by any fixed nonzero total, whatever it grants |
| `LedgerAdmission.OfferHonoursExternalLimit` | src/qhw_reservation.c:379-398 | availability never exceeds what an external limit leaves to the scope, and is zero beyond it |
| `LedgerAdmission.ScopeLimitIff` | src/qhw_reservation.c:379-398 | after a successful reserve the scope is within a nonzero external limit if and only if it was within it before or the request asks for units, as its estimate or the plugin policy says |
| `LedgerAdmission.ShippedPoliciesKeepScopeLimit` | src/qhw_reservation.c:379-398 | under the rate policy, and under the credit policy with the built-in estimator, the scope is within every nonzero external limit after every successful reserve |
| `LedgerAdmission.ShippedGrantsPassGuard` | src/qhw_reservation.c:960-987 | accepted grants of the credit and rate policies always pass the guard |
| `LedgerAdmission.ViewSumsExact` | src/qhw_reservation.c:557-647 | on a reachable context the view's sums for device and scope are exact |
| `LedgerAdmission.CreditAdmissionIff` | src/policies/credit.c:351-418 | a credit request is accepted if and only if its units fit beside all active ones within total plus overcommit and the scope's limit |
| `LedgerAdmission.RateAdmissionIff` | src/policies/rate.c:369-459 | a rate request is accepted if and only if some multiple of the slice does the work in time and fits within total rate and scope limit |
| `LedgerAdmission.EvaluatePredictsReserve` | src/qhw_reservation.c:845-1239 | reserve returns what evaluate did if and only if an id is available and the expiry fits; a reservation is published if and only if evaluate accepted |
| `LedgerAdmission.AllocationAdvances` | src/qhw_reservation.c:909-935 | an automatic id is nonzero, unused, and behind the next candidate |
| `LedgerAdmission.RunNeverMovesBack` | src/qhw_reservation.c:909-935 | no run moves the candidate back |
| `LedgerAdmission.AutomaticIdsIncrease` | src/qhw_reservation.c:1129-1182 | automatic ids increase strictly over a whole run, even past declined requests |
| `AdmissionLaws.PreparationExact` | src/qhw_reservation.c:746-824 | the checks before the policy in their order, each with its error and reason, and what a request that passes them is prepared with |
| `AdmissionLaws.CreditRequestAcceptedIff` | src/policies/credit.c:351-418 | a credit request is accepted if and only if its units and the active reservations' credits together fit total plus allowance, and the scope's its limit |
| `AdmissionLaws.RateRequestAcceptedIff` | src/policies/rate.c:369-459 | a rate request is accepted if and only if some multiple of the configured or shared slice does the work in the budget and fits beside the active reservations' rate |
| `AdmissionLaws.EvaluateExact` | src/qhw_reservation.c:845-907 | what the core adds to a policy's decision |
| `AdmissionLaws.AllocationExact` | src/qhw_reservation.c:909-935 | a requested id is taken if it is free, an automatic one is the least free from the candidate on, and the errors otherwise |
| `AdmissionLaws.ReserveExact` | src/qhw_reservation.c:1090-1239 | every way a prepared reserve ends, and every field of the reservation it publishes |
| `AdmissionLaws.UnpreparedReservesNothing` | src/qhw_reservation.c:1090-1128 | a request that is not prepared spends no id |
| `LedgerCeilings.OfferHoldsIff` | src/qhw_reservation.c:960-987 | after a successful reserve the device is within what that call was offered if and only if it was before or the request asks for units |
| `LedgerCeilings.CeilingsHold` | src/qhw_reservation.c:477-555 | whatever totals plugin estimators derive, ceilings on what the calls of a run are offered bound active credits, active rate and metered rate in the state reached |
| `LedgerDerived.DerivedCreditsBindIff` | src/qhw_reservation.c:477-515 | active credits always stay within the limit on the total derived next if and only if the estimator is built in or the profile leaves nothing to derive |
| `LedgerDerived.DerivedRateBindsIff` | src/qhw_reservation.c:517-555 | the same for active rate, where a derived total over a span of one nanosecond is always one and binds too |
| `LedgerDerived.CreditsFallBelow` | src/qhw_reservation.c:477-515 | on every other profile a context is reached whose derived credit limit is below what is reserved |
| `LedgerDerived.RateFallsBelow` | src/qhw_reservation.c:517-555 | on every other profile a context is reached whose derived rate of one is below what is reserved |
| `LedgerExample.ScopeBeyondLimitIsReached` | src/qhw_reservation.c:379-398 | a reached context where a successful reserve leaves five credits in a scope limited to one |
| `LedgerExample.GuardBoundsIff` | src/qhw_reservation.c:649-675 | fixed nonzero totals bound a plugin policy in all reachable contexts if and only if it has no capacity callback |
| `LedgerExample.CapacityCallbackPassesGuard` | src/qhw_reservation.c:649-675 | a reached context where a plugin policy with a capacity callback holds eleven credits of ten |
| `LedgerExample.OverflowIsReached` | src/qhw_usage.c:736-744 | a reached rate reservation at the largest rate whose window fold overflows |
| `LedgerExample.MixedReturnsAreReached` | src/qhw_usage.c:1086-1091 | a reached rate reservation whose window meters a unit the lifetime counter no longer shows |
| `LedgerExample.HalfChargeIsReached` | src/qhw_usage.c:983-987 | a reached credit reservation on which a consume errors and has raised the credit counter |
| `LedgerExample.RefusedRetriesAreReached` | src/qhw_usage.c:949-970 | a reached reservation on which both kinds of identical retry are refused |
| `LedgerLifecycle.EndedNeverChanges` | src/qhw_reservation.c:1445-1496 | over any run no reservation disappears and an ended one never changes |
| `LedgerLifecycle.ExpiryExact` | src/qhw_reservation.c:1599-1656 | the scan retires exactly what is due up to the first failing callback, and counts it |
| `LedgerLifecycle.ExpiryRetiresExactlyDue` | src/qhw_reservation.c:1599-1656 | in any scan order, with callbacks that succeed, precisely the due reservations end, are counted, and nothing else changes |
| `LedgerLifecycle.ExpirySucceedsIff` | src/qhw_reservation.c:1599-1656 | expiry succeeds if and only if no due reservation's callback fails |
| `LifecycleLaws.ExpiryScan` | src/qhw_reservation.c:1599-1656 | a scan in any order ends exactly the active reservations whose nonzero expiry time has come, up to the first one a plugin holds, whose error it returns |
| `LedgerLifecycle.LoadIsTransaction` | src/qhw_config.c:1280-1401 | success gives each configured device the profile of its entry and exactly the policy and estimator that the configured names resolve to, initialised from the entry's options; others kept or gone by mode, paths appended or replaced; failure changes nothing |
| `DeviceLaws.LoadSucceedsIff` | src/qhw_config.c:1280-1401 | a load succeeds if and only if mode and profiles are valid, a replacement drops no device in use and no configured device has a problem; otherwise the error is the first of these |
| `DeviceLaws.DeviceStagedIff` | src/qhw_config.c:1130-1181 | the problems of one configured device: it is in use, a name does not resolve, or what it names does not start |
| `DeviceLaws.SearchExact` | src/qhw_policy.c:207-292 | the first path that yields a plugin decides, extra paths first; the error without any is that of the last own path |
| `DeviceLaws.SliceOptionExact` | src/qhw_policy.c:310-334 | the last slice option counts, and every one must be a number |
| `DeviceLaws.DevicePolicyExact` | src/qhw_policy.c:336-410 | why a policy cannot be set up on a device, and what setting it up changes |
| `DeviceLaws.SetPolicyExact` | src/qhw_policy.c:487-542 | selecting a policy: the status in every case, and what stays registered when it fails |
| `DeviceLaws.SetEstimatorExact` | src/qhw_estimator.c:512-573 | selecting an estimator: the status in every case, and what stays registered when it fails |
| `DeviceLaws.RegisterExact` | src/qhw_device.c:207-260 | registration: the status in every case, and every field of the device that results |
| `DeviceLaws.UnregisterExact` | src/qhw_device.c:262-294 | removal: the status in every case, and that no other device goes |
| `DeviceLaws.BaselineExact` | src/qhw_device.c:327-371 | a new baseline: the status in every case, and the version that counts it |
| `AdmissionContexts.AdmissionContext.constructor` | src/qhw_admission.c:34-90 | a new context is the empty ledger |
| `AdmissionContexts.AdmissionContext.HasActiveReservation` | src/qhw_reservation.c:193-220 | the table scan decides whether the device has an active reservation |
| `AdmissionContexts.AdmissionContext.AccumulateActiveCapacity` | src/qhw_reservation.c:418-475 | the saturating scan over live objects, in an order not chosen, ends at the clipped exact sums |
| `AdmissionContexts.AdmissionContext.BuildCapacityView` | src/qhw_reservation.c:557-647 | the view from the objects is the specified one, failing at the first failing input |
| `AdmissionContexts.AdmissionContext.PreparePolicyCall` | src/qhw_reservation.c:746-824 | each preparation step and its rejection, in order |
| `AdmissionContexts.AdmissionContext.Evaluate` | src/qhw_reservation.c:845-907 | evaluate answers its specification without any write |
| `AdmissionContexts.AdmissionContext.AllocateReservationId` | src/qhw_reservation.c:909-935 | the candidate loop terminates and yields the least unused id, changing nothing but the next candidate |
| `AdmissionContexts.AdmissionContext.CreateReservationEntry` | src/qhw_reservation.c:989-1077 | a fresh object that stands for the specified reservation, or an expiry overflow |
| `AdmissionContexts.AdmissionContext.PublishReservation` | src/qhw_reservation.c:1210-1218 | the table gains exactly the new object |
| `AdmissionContexts.AdmissionContext.Reserve` | src/qhw_reservation.c:1090-1239 | reserve on the objects is the ledger step: status, decision, id and whole new state |
| `AdmissionContexts.AdmissionContext.ReserveUnderId` | src/qhw_reservation.c:1146-1239 | policy, guard and publication after an id is taken |
| `AdmissionContexts.AdmissionContext.TransitionReservation` | src/qhw_reservation.c:1445-1496 | one reservation ends or all stay as they are |
| `AdmissionContexts.AdmissionContext.EndReservation` | src/qhw_reservation.c:1498-1554 | the reservation ends with its unused capacity settled, or on any error all reservations are as before |
| `AdmissionContexts.AdmissionContext.Renew` | src/qhw_reservation.c:1556-1597 | only the expiry of that active reservation moves; overflow or an ended reservation leaves all as it was |
| `AdmissionContexts.AdmissionContext.Expire` | src/qhw_reservation.c:1599-1656 | the scan is ExpireOver in the order it happened to take, complete unless a callback failed |
| `AdmissionContexts.AdmissionContext.AuthorizeUsage` | src/qhw_usage.c:876-919 | the verdict on a known active reservation, the right error otherwise, without any write |
| `AdmissionContexts.AdmissionContext.GetUsage` | src/qhw_usage.c:1148-1199 | the snapshot of a known reservation, an error otherwise |
| `AdmissionContexts.AdmissionContext.Consume` | src/qhw_usage.c:921-1018 | decision and new state of exactly that reservation; every other reservation and every device is as before |
| `AdmissionContexts.AdmissionContext.ReturnUsage` | src/qhw_usage.c:1020-1146 | new state of exactly that reservation, its log edited in place; every other reservation and every device is as before |
| `AdmissionContexts.AdmissionContext.RecordActual` | src/qhw_usage.c:1256-1353 | time committed to exactly that reservation, feedback called only if the device's estimator takes it |
| `AdmissionContexts.AdmissionContext.RegisterDevice` | src/qhw_device.c:207-260 | a new device starts at version one, an idle one is replaced with its profile version counted on and its policy dropped, one in use is refused unchanged |
| `AdmissionContexts.AdmissionContext.UnregisterDevice` | src/qhw_device.c:262-294 | removes exactly the idle device asked for and refuses one in use |
| `AdmissionContexts.AdmissionContext.SetBaseline` | src/qhw_device.c:327-371 | an idle device gets a fitting baseline and its next version together, or nothing changes |
| `AdmissionContexts.AdmissionContext.SetPolicy` | src/qhw_policy.c:487-542 | an idle device gets policy and next policy version together or neither; a plugin loaded on the way stays registered |
| `AdmissionContexts.AdmissionContext.SetEstimator` | src/qhw_estimator.c:512-573 | an idle device gets estimator and next estimator version together or neither; a plugin loaded on the way stays registered |
| `AdmissionContexts.AdmissionContext.RejectActiveOmittedDevices` | src/qhw_config.c:1183-1215 | the scan decides whether a replacement would drop a device in use |
| `AdmissionContexts.AdmissionContext.AddCurrentDevices` | src/qhw_config.c:1101-1128 | the very objects of the devices a merge keeps |
| `AdmissionContexts.AdmissionContext.StageConfigDevice` | src/qhw_config.c:1130-1181 | one configured device as a new object, with at most one plugin of each kind registered |
| `AdmissionContexts.AdmissionContext.AddConfigDevices` | src/qhw_config.c:1130-1181 | the loop stages all devices or stops at the first error, tracking every plugin it registered |
| `AdmissionContexts.AdmissionContext.RollbackLoadedPolicies` | src/qhw_config.c:988-1005 | popping the tracked names restores the policy registry exactly |
| `AdmissionContexts.AdmissionContext.RollbackLoadedEstimators` | src/qhw_config.c:969-986 | popping the tracked names restores the estimator registry exactly |
| `AdmissionContexts.AdmissionContext.BuildNewPathArray` | src/qhw_config.c:1217-1268 | old paths first in a merge, then the configured ones |
| `AdmissionContexts.AdmissionContext.CommitConfig` | src/qhw_config.c:1375-1401 | table and paths swapped in one go |
| `AdmissionContexts.AdmissionContext.LoadConfig` | src/qhw_config.c:1403-1474 | a load is committed in full or rolled back in full, devices, paths and both registries |

## Left out

- Text parsing of configurations (src/qhw_config.c:134-853) and file reading: a load starts from the parsed devices and paths.
- Plugin loading by `dlopen`, plugin file names and name hashing: a registry is a map by name, and what loading from a directory yields is an input.
- Memory ownership, allocation failure, structure-size checks, messages, last-error text, output views and copied metadata of decisions, grants and views.
- View and snapshot fields that no decision reads: queued units and time, scheduler policy id.
- The table of measured records holds values that are replaced, where the source flips a flag in a shared record.
- The lock itself: a call is one atomic step, and clock reads are inputs of it.
- The hash table: a table is a finite map scanned in an arbitrary order; inserting an id twice while staging a configuration with repeated device ids, whose effect depends on the table, is modelled as the later entry winning.
- Releasing the objects of replaced or removed devices and plugins.
- Listing and filtering reservations, compliance and other plain getters, adding search paths and loading single plugins by path.
- The unlimited policy, whose decisions are covered by the arbitrary plugin policy.
- The pending state, provider batching and device cloning, which no step uses.
- A plugin estimator's per-task answers: its estimate of a whole request is one arbitrary answer.
- Callbacks of plugins that look at or change the context while a step runs.
- AdmissionContexts.AdmissionContext.Expire: returns the count of retired reservations also when a callback fails, where the source leaves its output unset.
