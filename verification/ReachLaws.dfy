/** The reachable contexts are closed under every public call that changes one. */
module ReachLaws {
  import opened CheckedMath
  import opened Metadata
  import opened Records
  import opened Policies
  import opened PluginRegistry
  import opened UsageModel
  import opened LedgerModel
  import opened LedgerInvariants
  import opened LedgerSteps

  lemma DeviceCallsReach(s: Ledger, p: Profile, id: u64, b: Baseline)
    requires Reachable(s)
    ensures Reachable(RegisterDevice(s, p).1)
    ensures Reachable(UnregisterDevice(s, id).1)
    ensures Reachable(SetBaseline(s, id, b).1)
  {
    hide Reachable, Inv, RegisterDevice, UnregisterDevice, SetBaseline;
    ReachableGoesOn(s, RegisterStep(p));
    ReachableGoesOn(s, UnregisterStep(id));
    ReachableGoesOn(s, BaselineStep(id, b));
  }

  lemma ConfigurationCallsReach(
    s: Ledger, id: u64, name: string, options: seq<KeyValue>, loadPolicy: (string, string) -> LoadOutcome<PolicyKind>,
    loadEstimator: (string, string) -> LoadOutcome<EstimatorKind>, setup: SetupInputs, c: Config, mode: ConfigMode,
    inputs: ConfigInputs)
    requires Reachable(s)
    ensures Reachable(SetPolicy(s, id, name, options, loadPolicy, setup).1)
    ensures Reachable(SetEstimator(s, id, name, loadEstimator, setup).1)
    ensures Reachable(LoadConfig(s, c, mode, inputs).1)
  {
    hide Reachable, Inv, SetPolicy, SetEstimator, LoadConfig;
    ReachableGoesOn(s, PolicyStep(id, name, options, loadPolicy, setup));
    ReachableGoesOn(s, EstimatorStep(id, name, loadEstimator, setup));
    ReachableGoesOn(s, ConfigStep(c, mode, inputs));
  }

  lemma ReservationCallsReach(
    s: Ledger, r: Request, inputs: AdmissionInputs, id: u64, target: ReservationState, release: Status, now: u64,
    clock: u64, ttl: u64, order: seq<u64>, releases: u64 -> Status)
    requires Reachable(s)
    ensures Reachable(Reserve(s, r, inputs).ledger)
    ensures Reachable(EndReservation(s, id, target, release).1)
    ensures Reachable(RenewReservation(s, id, now, clock, ttl).1)
    ensures Reachable(ExpireOver(s, order, now, releases).1)
  {
    hide Reachable, Inv, Reserve, EndReservation, RenewReservation, ExpireOver;
    ReachableGoesOn(s, ReserveStep(r, inputs));
    ReachableGoesOn(s, EndStep(id, target, release));
    ReachableGoesOn(s, RenewStep(id, now, clock, ttl));
    ReachableGoesOn(s, ExpireStep(order, now, releases));
  }

  lemma UsageCallsReach(
    s: Ledger, id: u64, u: Usage, now: u64, verdict: Callback<Decision>, a: ActualUsage, answer: Status)
    requires Reachable(s)
    ensures forall i :: i in s.reservations ==> Indexed(s.reservations[i])
    ensures Reachable(ConsumeOn(s, id, u, now, verdict).2)
    ensures Reachable(ReturnOn(s, id, u, now, answer).1)
    ensures Reachable(RecordOn(s, id, a, answer).2)
  {
    hide Reachable, ConsumeOn, ReturnOn, RecordOn, Indexed;
    ReachableIsGood(s);
    SoundMeansIndexed(s);
    hide Inv;
    ReachableGoesOn(s, ConsumeStep(id, u, now, verdict));
    ReachableGoesOn(s, ReturnStep(id, u, now, answer));
    ReachableGoesOn(s, RecordStep(id, a, answer));
  }
}
