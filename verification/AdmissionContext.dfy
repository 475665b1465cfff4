/**
 The admission context as the object the source keeps: tables of device and reservation objects, the next
 automatic id, plugin registries and search paths. Every public call is a method proved against the step
 of LedgerModel it performs.
 */
module AdmissionContexts {
  import opened CheckedMath
  import opened Metadata
  import opened Records
  import opened PolicyCommon
  import opened Policies
  import opened BaselineEstimator
  import opened UsageModel
  import opened MapSum
  import opened PluginRegistry
  import opened ActiveCapacity
  import opened LedgerModel
  import opened ReservationEntries
  import opened DeviceEntries
  import opened ConfigStaging
  import opened LedgerLifecycle

  ghost function Without(m: map<u64, Entry>, remaining: set<u64>): map<u64, Entry> {
    map id | id in m && id !in remaining :: m[id]
  }

  class AdmissionContext {
    var devices: map<u64, DeviceEntry>
    var reservations: map<u64, ReservationEntry>
    var nextReservationId: u64
    var policies: map<string, PolicyKind>
    var estimators: map<string, EstimatorKind>
    var policyPaths: seq<string>
    var estimatorPaths: seq<string>
    ghost var Repr: set<object>

    /** Every object belongs to one table entry only, and stands under its own id. */
    ghost predicate Valid()
      reads this, Repr
    {
      && this in Repr
      && (forall id :: id in devices ==> devices[id] in Repr && devices[id].profile.deviceId == id)
      && (forall id :: id in reservations ==>
            && reservations[id] in Repr && reservations[id].Repr() <= Repr
            && reservations[id].Valid() && reservations[id].reservation.reservationId == id)
      && (forall i, j :: i in reservations && j in reservations && i != j ==>
            reservations[i].Repr() !! reservations[j].Repr())
    }

    ghost function Devices(): map<u64, Device>
      requires Valid()
      reads this, Repr
    {
      map id | id in devices :: devices[id].Model()
    }

    ghost function Entries(): map<u64, Entry>
      requires Valid()
      reads this, Repr
    {
      map id | id in reservations :: reservations[id].Model()
    }

    ghost function Model(): Ledger
      requires Valid()
      reads this, Repr
    {
      Ledger(Devices(), Entries(), nextReservationId, policies, estimators, policyPaths, estimatorPaths)
    }

    constructor ()
      ensures Valid() && fresh(Repr)
      ensures Model() == EMPTY_LEDGER
    {
      devices, reservations, nextReservationId := map[], map[], 1;
      policies, estimators := map[], map[BUILT_IN_NAME := BuiltIn];
      policyPaths, estimatorPaths := [], [];
      Repr := {this};
    }

    // -------------------------------------------------------------------------
    // What a change of some objects means for the whole.

    lemma EntriesUnderIds()
      requires Valid()
      ensures Model().reservations.Keys == reservations.Keys
      ensures Model().devices.Keys == devices.Keys
    {
      hide Indexed, ReservationEntry.Valid;
    }

    lemma EntryUnderId(id: u64)
      requires Valid() && id in reservations
      ensures id in Model().reservations && Model().reservations[id] == reservations[id].Model()
      ensures Model().reservations[id].res == reservations[id].reservation
    {
      hide Indexed, ReservationEntry.Valid;
    }

    /** The table's entries are known ones under their ids and one more. */
    lemma EntriesAdded(before: map<u64, Entry>, id: u64, e: Entry)
      requires Valid() && reservations.Keys == before.Keys + {id} && reservations[id].Model() == e
      requires forall i :: i in before && i != id ==> reservations[i].Model() == before[i]
      ensures Entries() == before[id := e]
    {
      hide Valid, ReservationEntry.Model;
    }

    lemma DevicesAre(m: map<u64, Device>)
      requires Valid() && devices.Keys == m.Keys
      requires forall id :: id in devices ==> devices[id].Model() == m[id]
      ensures Devices() == m
    {
      hide Valid, DeviceEntry.Model;
    }

    /** Nothing but fields of the context itself has changed: its reservations and devices have not noticed. */
    twostate lemma OnlyFieldsChanged()
      requires old(Valid())
      requires forall o :: o in old(Repr) && o != this ==> unchanged(o)
      ensures forall i :: i in old(reservations) ==>
                var e := old(reservations[i]);
                && e.Repr() == old(e.Repr()) && e.Valid()
                && e.Model() == old(e.Model()) && e.reservation == old(e.reservation)
      ensures forall i :: i in old(devices) ==> var d := old(devices[i]); d.Model() == old(d.Model())
    {
      hide Indexed, ReservationEntry.Valid, ReservationEntry.Model;
      forall i | i in old(reservations)
        ensures var e := old(reservations[i]);
                && e.Repr() == old(e.Repr()) && e.Valid()
                && e.Model() == old(e.Model()) && e.reservation == old(e.reservation)
      {
        old(reservations[i]).Untouched();
      }
    }

    /** Fields of the context have changed, the device table among them; the reservations stand. */
    twostate lemma ReservationsStand()
      requires old(Valid()) && unchanged(`reservations) && old(Repr) <= Repr
      requires forall o :: o in old(Repr) && o != this ==> unchanged(o)
      requires forall id :: id in devices ==> devices[id] in Repr && devices[id].profile.deviceId == id
      ensures Valid() && Entries() == old(Entries())
    {
      OnlyFieldsChanged();
      hide Indexed, ReservationEntry.Valid, ReservationEntry.Model, ReservationEntry.Repr;
    }

    twostate lemma TablesUnchanged()
      requires old(Valid()) && unchanged(`devices, `reservations, `Repr)
      requires forall o :: o in old(Repr) && o != this ==> unchanged(o)
      ensures Valid() && Entries() == old(Entries()) && Devices() == old(Devices())
    {
      OnlyFieldsChanged();
      ReservationsStand();
      hide Indexed, ReservationEntry.Valid, ReservationEntry.Model, ReservationEntry.Repr;
    }

    /** One device object has changed. */
    twostate predicate OnlyDeviceChanged(id: u64)
      reads this, Repr
    {
      && old(Valid()) && id in devices
      && unchanged(
           `devices, `reservations, `nextReservationId, `policies, `estimators, `policyPaths, `estimatorPaths, `Repr)
      && (forall o :: o in old(Repr) && o != devices[id] ==> unchanged(o))
      && devices[id].profile.deviceId == id
    }

    twostate lemma DeviceChangedValid(id: u64)
      requires OnlyDeviceChanged(id)
      ensures Valid() && Entries() == old(Entries())
    {
      hide Indexed, ReservationEntry.Valid, ReservationEntry.Model;
      forall i | i in reservations
        ensures reservations[i].Repr() == old(reservations[i].Repr())
        ensures reservations[i].Valid() && reservations[i].Model() == old(reservations[i].Model())
        ensures reservations[i].reservation == old(reservations[i].reservation)
      {
        reservations[i].Untouched();
      }
      hide ReservationEntry.Repr;
    }

    twostate lemma DeviceChanged(id: u64)
      requires OnlyDeviceChanged(id)
      ensures Valid()
      ensures Model() == old(Model()).(devices := old(Devices())[id := devices[id].Model()])
    {
      DeviceChangedValid(id);
      hide Indexed, ReservationEntry.Valid, ReservationEntry.Model, ReservationEntry.Repr, Entries;
      forall d | d in devices && d != id
        ensures devices[d].Model() == old(devices[d].Model())
      {
        assert devices[d] != devices[id];
      }
      assert Devices() == old(Devices())[id := devices[id].Model()];
    }

    /** Only the reservation under the id has changed, within its own objects and new ones. */
    twostate predicate OnlyReservationChanged(id: u64)
      reads this, Repr
    {
      && old(Valid()) && id in reservations && old(Repr) <= Repr
      && unchanged(`devices, `reservations, `nextReservationId, `policies, `estimators, `policyPaths, `estimatorPaths)
      && (forall o :: o in old(Repr) && o != this && o !in old(reservations[id].Repr()) ==> unchanged(o))
      && reservations[id] in Repr && reservations[id].Repr() <= Repr
      && reservations[id].Valid() && reservations[id].reservation.reservationId == id
      && fresh(reservations[id].Repr() - old(reservations[id].Repr()))
    }

    /** The other reservations have not noticed. */
    twostate lemma OtherUntouched(new id: u64, new other: u64)
      requires OnlyReservationChanged(id) && other in reservations && other != id
      ensures reservations[other].Repr() == old(reservations[other].Repr())
      ensures reservations[other].Valid() && reservations[other].Model() == old(reservations[other].Model())
      ensures reservations[other].reservation == old(reservations[other].reservation)
      ensures reservations[other].Repr() !! reservations[id].Repr()
    {
      hide Indexed, ReservationEntry.Valid;
      assert old(reservations[other].Repr() !! reservations[id].Repr());
      reservations[other].Untouched();
    }

    twostate lemma OthersUntouched(id: u64)
      requires OnlyReservationChanged(id)
      ensures forall i :: i in reservations && i != id ==>
                && reservations[i].Repr() == old(reservations[i].Repr())
                && reservations[i].Valid() && reservations[i].Model() == old(reservations[i].Model())
                && reservations[i].reservation == old(reservations[i].reservation)
                && reservations[i].Repr() !! reservations[id].Repr()
    {
      hide Indexed, ReservationEntry.Valid, ReservationEntry.Repr, ReservationEntry.Model;
      forall i | i in reservations && i != id
        ensures reservations[i].Repr() == old(reservations[i].Repr())
        ensures reservations[i].Valid() && reservations[i].Model() == old(reservations[i].Model())
        ensures reservations[i].reservation == old(reservations[i].reservation)
        ensures reservations[i].Repr() !! reservations[id].Repr()
      {
        OtherUntouched(id, i);
      }
    }

    twostate lemma DevicesUntouched(id: u64)
      requires OnlyReservationChanged(id)
      ensures forall d :: d in devices ==> unchanged(devices[d])
    {
      hide Indexed, ReservationEntry.Valid;
    }

    twostate lemma StillValid(id: u64)
      requires OnlyReservationChanged(id)
      ensures Valid()
    {
      OthersUntouched(id);
      DevicesUntouched(id);
      hide Indexed, ReservationEntry.Valid, ReservationEntry.Repr, ReservationEntry.Model;
    }

    twostate lemma ChangedEntries(id: u64)
      requires OnlyReservationChanged(id)
      ensures Valid() && Entries() == old(Entries())[id := reservations[id].Model()]
    {
      hide Indexed, ReservationEntry.Valid, ReservationEntry.Repr, ReservationEntry.Model;
      StillValid(id);
      assert unchanged(`reservations) && id in old(reservations) && old(Valid());
      forall i | i in old(Entries()) && i != id
        ensures reservations[i].Model() == old(Entries())[i]
      {
        OtherUntouched(id, i);
      }
      hide Valid, OnlyReservationChanged;
      EntriesAdded(old(Entries()), id, reservations[id].Model());
    }

    twostate lemma ReservationChanged(id: u64)
      requires OnlyReservationChanged(id)
      ensures Valid()
      ensures Model() == Stored(old(Model()), id, reservations[id].Model())
    {
      ChangedEntries(id);
      DevicesUntouched(id);
      hide Valid, Indexed, ReservationEntry.Valid, ReservationEntry.Repr, ReservationEntry.Model, Entries;
      assert Devices() == old(Devices());
    }

    /** A reservation with objects of its own has entered the table. */
    twostate predicate OnlyReservationAdded(id: u64)
      reads this, Repr
    {
      && old(Valid()) && old(Repr) <= Repr
      && id !in old(reservations) && id in reservations && reservations == old(reservations)[id := reservations[id]]
      && unchanged(`devices, `nextReservationId, `policies, `estimators, `policyPaths, `estimatorPaths)
      && (forall o :: o in old(Repr) && o != this ==> unchanged(o))
      && reservations[id] in Repr && Repr == old(Repr) + reservations[id].Repr() && reservations[id].Repr() !! old(Repr)
      && reservations[id].Valid() && reservations[id].reservation.reservationId == id
    }

    twostate lemma ReservationAddedValid(id: u64)
      requires OnlyReservationAdded(id)
      ensures Valid()
    {
      OnlyFieldsChanged();
      hide Indexed, ReservationEntry.Valid, ReservationEntry.Repr, ReservationEntry.Model;
    }

    twostate lemma ReservationAdded(id: u64)
      requires OnlyReservationAdded(id)
      ensures Valid()
      ensures Model() == Stored(old(Model()), id, reservations[id].Model())
    {
      ReservationAddedValid(id);
      OnlyFieldsChanged();
      assert reservations == old(reservations)[id := reservations[id]];
      hide Valid, Indexed, ReservationEntry.Valid, ReservationEntry.Repr, ReservationEntry.Model, OnlyReservationAdded;
      EntriesAdded(old(Entries()), id, reservations[id].Model());
      assert Devices() == old(Devices());
    }

    // -------------------------------------------------------------------------
    // Scans of the reservation table.

    method HasActiveReservation(device: u64) returns (active: bool)
      requires Valid()
      ensures active <==> HasActive(Model().reservations, device)
    {
      hide Indexed, ReservationEntry.Valid;
      var remaining := reservations.Keys;
      while remaining != {}
        invariant remaining <= reservations.Keys
        invariant forall id :: id in reservations && id !in remaining ==> !ActiveOn(Model().reservations[id], device)
        decreases |remaining|
      {
        var id :| id in remaining;
        remaining := remaining - {id};
        var reservation := reservations[id].reservation;
        assert Model().reservations[id].res == reservation;
        if reservation.state == Active && reservation.deviceId == device {
          return true;
        }
      }
      return false;
    }

    /** The saturating scan, in an order it does not choose. */
    method AccumulateActiveCapacity(device: u64, scope: u64) returns (figures: Figures)
      requires Valid()
      ensures figures == FiguresOf(Model().reservations, device, scope)
    {
      hide Valid, Model, FiguresOf, Include;
      ghost var entries := Model().reservations;
      EntriesUnderIds();
      var remaining := reservations.Keys;
      figures := NO_FIGURES;
      NoReservationsNoFigures(device, scope);
      assert Without(entries, remaining) == map[];
      while remaining != {}
        invariant remaining <= reservations.Keys
        invariant figures == FiguresOf(Without(entries, remaining), device, scope)
        decreases |remaining|
      {
        var id :| id in remaining;
        ghost var seen := Without(entries, remaining);
        remaining := remaining - {id};
        EntryUnderId(id);
        assert Without(entries, remaining) == seen[id := entries[id]];
        FiguresOfOneMore(seen, id, entries[id], device, scope);
        var reservation := reservations[id].reservation;
        if reservation.state == Active && reservation.deviceId == device {
          figures := Include(figures, reservation, scope);
        }
      }
      assert Without(entries, {}) == entries;
    }

    // -------------------------------------------------------------------------
    // Evaluate and reserve.

    method BuildCapacityView(device: DeviceEntry, scope: u64, inputs: AdmissionInputs)
      returns (view: Result<CapacityView>)
      requires Valid()
      ensures view == BuildView(Model(), device.Model(), scope, inputs)
    {
      hide Valid, Model, FiguresOf, ViewFrom, LedgerModel.DeriveTotalCredits, LedgerModel.DeriveTotalRate;
      var snapshot :- TakeSnapshot(inputs);
      var totalCredits :- device.DeriveTotalCredits(inputs.estimator.baselineForCredits);
      var totalRate :- device.DeriveTotalRate(inputs.estimator.baselineForRate);
      var figures := AccumulateActiveCapacity(device.profile.deviceId, scope);
      return Success(ViewFrom(figures, snapshot, inputs.laterNow, totalCredits, totalRate));
    }

    method ValidateRequest(r: Request) returns (valid: bool)
      ensures valid <==> ValidRequest(r)
    {
      if r.deviceId == 0 || r.walltimeNs == 0 || |r.taskClasses| == 0 || r.workloadKind.InvalidKind? {
        return false;
      }
      for i := 0 to |r.taskClasses|
        invariant forall k :: 0 <= k < i ==>
          r.taskClasses[k].count != 0 && r.taskClasses[k].qubitCount != 0 && r.taskClasses[k].shots != 0
      {
        if r.taskClasses[i].count == 0 || r.taskClasses[i].qubitCount == 0 || r.taskClasses[i].shots == 0 {
          return false;
        }
      }
      return true;
    }

    method PreparePolicyCall(r: Request, inputs: AdmissionInputs) returns (p: Prepared)
      requires Valid()
      ensures p == Prepare(Model(), r, inputs)
    {
      hide Indexed, ReservationEntry.Valid, BuildView, QuantumBudget, LedgerModel.EstimateRequest, CapacityCallback,
           ValidRequest;
      var valid := ValidateRequest(r);
      if !valid {
        return Unprepared(Inval, RejectedDecision(r, InvalidRequest));
      }
      if r.deviceId !in devices {
        return Unprepared(NotFound, RejectedDecision(r, DeviceNotFound));
      }
      var device := devices[r.deviceId];
      if device.policy.None? {
        return Unprepared(NotFound, RejectedDecision(r, PolicyFailed));
      }
      var budget := QuantumBudget(r);
      if budget.Failure? {
        return Unprepared(budget.error, RejectedDecision(r, WalltimeInfeasible));
      }
      var estimate := device.EstimateRequest(r, inputs.estimator.request);
      if estimate.Failure? {
        return Unprepared(estimate.error, RejectedDecision(r, EstimatorFailed));
      }
      var view := BuildCapacityView(device, r.scopeId, inputs);
      if view.Failure? {
        return Unprepared(view.error, RejectedDecision(r, PolicyFailed));
      }
      var adjusted := CapacityCallback(device.policy.value, view.value, inputs.capacity);
      if adjusted.Failure? {
        return Unprepared(Error.Policy, RejectedDecision(r, PolicyFailed));
      }
      return Prepared(device.Model(), device.policy.value, estimate.value, adjusted.value, budget.value);
    }

    method Evaluate(r: Request, inputs: AdmissionInputs) returns (status: Status, decision: Decision)
      requires Valid()
      ensures (status, decision) == LedgerModel.Evaluate(Model(), r, inputs)
    {
      hide Valid, Model, Prepare, EvaluateCallback;
      var prepared := PreparePolicyCall(r, inputs);
      match prepared
      case Unprepared(error, rejected) => return Err(error), rejected;
      case Prepared(device, policy, estimate, view, budget) =>
        var reply := EvaluateCallback(policy, device.profile, r, estimate, view, inputs.policy);
        if reply.status.Err? {
          return reply.status, reply.decision;
        }
        return OK, Decorate(reply.decision, r, estimate, view, budget);
    }

    /** The search for an unused automatic id ends: the candidates run out at the largest number. */
    method AllocateReservationId(requested: u64) returns (id: Result<u64>)
      requires Valid()
      modifies this`nextReservationId
      ensures Valid() && Entries() == old(Entries()) && Devices() == old(Devices())
      ensures var choice := AllocateId(old(Model()), requested);
              if choice.Success? then id == Success(choice.value.0) && nextReservationId == choice.value.1
              else id == Failure(choice.error) && nextReservationId == old(nextReservationId)
      ensures id.Success? ==> id.value !in reservations
    {
      hide Valid, Entries, Devices;
      ghost var entries := Entries();
      EntriesUnderIds();
      TablesUnchanged();
      if requested != 0 {
        return if requested in reservations then Failure(Exists) else Success(requested);
      }
      var candidate := nextReservationId;
      while candidate != 0
        invariant nextReservationId == old(nextReservationId)
        invariant nextReservationId == 0 ==> candidate == 0
        invariant nextReservationId != 0 ==>
          FirstFree(entries, nextReservationId) == if candidate == 0 then None else FirstFree(entries, candidate)
        decreases if candidate == 0 then 0 else U64_MAX + 1 - candidate
      {
        if candidate !in reservations {
          nextReservationId := Increment(candidate);
          TablesUnchanged();
          return Success(candidate);
        }
        candidate := Increment(candidate);
      }
      return Failure(Error.State);
    }

    method PublishReservation(id: u64, entry: ReservationEntry)
      requires Valid() && id !in reservations
      requires entry.Valid() && entry.reservation.reservationId == id && entry.Repr() !! Repr
      modifies this`reservations, this`Repr
      ensures Valid() && Repr == old(Repr) + entry.Repr()
      ensures Model() == Stored(old(Model()), id, entry.Model())
    {
      assert entry in entry.Repr();
      hide Indexed, ReservationEntry.Valid, ReservationEntry.Repr, ReservationEntry.Model;
      reservations := reservations[id := entry];
      Repr := Repr + entry.Repr();
      ReservationAdded(id);
    }

    method CreateReservationEntry(
      device: Device, policy: Policy, r: Request, e: Estimate, view: CapacityView, g: Grant, id: u64, budget: u64)
      returns (entry: Result<ReservationEntry>)
      ensures var made := CreateEntry(device, policy, r, e, view, g, id, budget);
              if made.Success? then
                entry.Success? && fresh(entry.value.Repr()) && entry.value.Valid() && entry.value.Model() == made.value
                && entry.value.reservation.reservationId == id
              else
                entry == Failure(made.error)
    {
      var expires: u64 := 0;
      var ttl := SelectTtl(r, device.profile, g);
      if ttl != 0 {
        var sum := Add(view.nowNs, ttl);
        if sum.Failure? {
          return Failure(sum.error);
        }
        expires := sum.value;
      }
      var reservation := Reservation(
        id, r.requestId, r.deviceId, r.scopeId, r.userId, r.jobId, r.workloadKind, Active,
        g.creditsGranted, 0, g.rateGranted, 0, budget,
        device.profileVersion, device.policyVersion, device.estimatorVersion,
        e.totalNs, 0, 0, 0, 0, view.nowNs, expires);
      var created := new ReservationEntry(reservation, policy, device.profile.timeSpanNs);
      return Success(created);
    }

    method Reserve(r: Request, inputs: AdmissionInputs)
      returns (status: Status, decision: Decision, published: Option<u64>)
      requires Valid()
      modifies this
      ensures Valid() && fresh(Repr - old(Repr))
      ensures ReserveReply(status, decision, Model(), published) == LedgerModel.Reserve(old(Model()), r, inputs)
    {
      hide Prepare, AllocateId, ReserveWithId, Valid, Entries, Devices;
      var prepared := PreparePolicyCall(r, inputs);
      match prepared
      case Unprepared(error, rejected) => return Err(error), rejected, None;
      case Prepared(device, policy, estimate, view, budget) =>
        var id := AllocateReservationId(r.reservationId);
        if id.Failure? {
          return Err(id.error), RejectedDecision(r, ObjectExists), None;
        }
        status, decision, published := ReserveUnderId(r, device, policy, estimate, view, budget, id.value, inputs);
    }

    /** The policy's grant, the core's guard on it, and the publication. */
    method ReserveUnderId(
      r: Request, device: Device, policy: Policy, estimate: Estimate, view: CapacityView, budget: u64, id: u64,
      inputs: AdmissionInputs)
      returns (status: Status, decision: Decision, published: Option<u64>)
      requires Valid() && id !in reservations
      modifies this`reservations, this`Repr
      ensures Valid() && fresh(Repr - old(Repr))
      ensures ReserveReply(status, decision, Model(), published)
           == ReserveWithId(old(Model()), r, device, policy, estimate, view, budget, id, inputs)
    {
      hide Valid, Entries, Devices, Indexed, CreateEntry, GrantValid, Decorate, ReserveCallback;
      var reply := ReserveCallback(policy, device.profile, r, estimate, view, inputs.policy);
      if reply.status.Err? {
        return reply.status, Decorate(reply.decision, r, estimate, view, budget), None;
      }
      if reply.decision.kind != Accepted {
        return OK, Decorate(reply.decision, r, estimate, view, budget), None;
      }
      if !GrantValid(r, view, estimate, reply.grant) {
        return Err(Error.Policy), RejectedDecision(r, PolicyFailed), None;
      }
      var entry := CreateReservationEntry(device, policy, r, estimate, view, reply.grant, id, budget);
      if entry.Failure? {
        return Err(entry.error), reply.decision, None;
      }
      PublishReservation(id, entry.value);
      decision := Decorate(reply.decision, r, estimate, view, budget).(
        reservationId := id, capacityGranted := GrantUnits(reply.grant));
      return OK, decision, Some(id);
    }

    // -------------------------------------------------------------------------
    // Ending, renewing and using a reservation.

    method TransitionReservation(id: u64, target: ReservationState, release: Status) returns (status: Status)
      requires Valid()
      modifies Repr
      ensures Valid() && Repr == old(Repr)
      ensures devices == old(devices) && reservations == old(reservations)
      ensures (status, Model()) == LedgerModel.TransitionReservation(old(Model()), id, target, release)
    {
      if id !in reservations {
        return Err(NotFound);
      }
      status := reservations[id].Transition(target, release);
      ReservationChanged(id);
    }

    method EndReservation(id: u64, target: ReservationState, release: Status) returns (status: Status)
      requires Valid()
      modifies Repr
      ensures Valid() && Repr == old(Repr)
      ensures (status, Model()) == LedgerModel.EndReservation(old(Model()), id, target, release)
    {
      if id == 0 {
        return Err(Inval);
      }
      status := TransitionReservation(id, target, release);
    }

    method Renew(id: u64, now: u64, clock: u64, ttl: u64) returns (status: Status)
      requires Valid()
      modifies Repr
      ensures Valid() && Repr == old(Repr)
      ensures (status, Model()) == RenewReservation(old(Model()), id, now, clock, ttl)
    {
      if id == 0 || ttl == 0 {
        return Err(Inval);
      }
      if id !in reservations {
        return Err(NotFound);
      }
      status := reservations[id].Renew(if now == 0 then clock else now, ttl);
      ReservationChanged(id);
    }

    /** One reservation of the expiry scan: it ends if it is due and its release callback succeeds. */
    method ExpireIfDue(id: u64, time: u64, release: Status) returns (status: Status, expired: bool)
      requires Valid() && id in reservations
      modifies Repr
      ensures Valid() && Repr == old(Repr)
      ensures devices == old(devices) && reservations == old(reservations)
      ensures id in old(Model()).reservations
      ensures if Due(old(Model()).reservations[id], time) then
                (status, Model()) == LedgerModel.TransitionReservation(old(Model()), id, Expired, release)
                && (expired <==> status == OK)
              else
                status == OK && !expired && Model() == old(Model())
    {
      hide Indexed, ReservationEntry.Valid, LedgerModel.TransitionReservation;
      var reservation := reservations[id].reservation;
      assert Model().reservations[id].res == reservation;
      if reservation.state != Active || reservation.expiresAtNs == 0 || reservation.expiresAtNs > time {
        return OK, false;
      }
      status := TransitionReservation(reservation.reservationId, Expired, release);
      expired := status == OK;
    }

    /**
     Scans the table in an order it does not choose and stops at the first release callback that fails; order
     tells which reservations the scan has come to.
     */
    method Expire(now: u64, clock: u64, release: u64 -> Status)
      returns (status: Status, count: nat, ghost order: seq<u64>)
      requires Valid()
      modifies Repr
      ensures Valid() && Repr == old(Repr)
      ensures Distinct(order)
      ensures forall id :: id in order ==> id in old(Model()).reservations
      ensures status == OK ==> ScanOrder(old(Model()), order)
      ensures (status, Model(), count)
           == ExpireOver(old(Model()), order, if now == 0 then clock else now, release)
    {
      hide Valid, LedgerModel.TransitionReservation, ExpireOver, Model, Due;
      var time := if now == 0 then clock else now;
      var remaining := reservations.Keys;
      status, count, order := OK, 0, [];
      EntriesUnderIds();
      ExpiryOfNone(Model(), time, release);
      while remaining != {}
        invariant Valid() && Repr == old(Repr) && status == OK
        invariant reservations == old(reservations)
        invariant Distinct(order)
        invariant forall id :: id in order <==> id in reservations && id !in remaining
        invariant remaining <= reservations.Keys
        invariant ExpireOver(old(Model()), order, time, release) == (OK, Model(), count)
        decreases |remaining|
      {
        var id :| id in remaining;
        remaining := remaining - {id};
        ExpiryOfOneMore(old(Model()), order, id, time, release);
        order := order + [id];
        var expired;
        status, expired := ExpireIfDue(id, time, release(id));
        if status.Err? {
          return;
        }
        if expired {
          count := count + 1;
        }
      }
    }

    method AuthorizeUsage(id: u64, usage: Usage, now: u64, plugin: Callback<Decision>)
      returns (status: Status, decision: Option<Decision>)
      requires Valid()
      ensures (status, decision) == AuthorizeOn(Model(), id, usage, now, plugin)
    {
      hide Indexed, ReservationEntry.Valid, ReservationEntry.Model, UsageModel.NormalizeUsage, Authorize;
      var normalized := ReservationEntry.NormalizeUsage(id, usage, 0, now);
      if normalized.Failure? {
        return Err(normalized.error), None;
      }
      if id == 0 {
        return Err(Inval), None;
      }
      if id !in reservations {
        return Err(NotFound), None;
      }
      status, decision := reservations[id].AuthorizeUsage(normalized.value, plugin);
    }

    method GetUsage(id: u64, now: u64) returns (usage: Result<UsageState>)
      requires Valid()
      ensures usage
           == if id !in Model().reservations then Failure(NotFound)
              else Success(UsageModel.GetUsage(Model().reservations[id], now))
    {
      hide Indexed, ReservationEntry.Valid, ReservationEntry.Model, UsageModel.GetUsage;
      if id !in reservations {
        return Failure(NotFound);
      }
      var state := reservations[id].GetUsage(now);
      return Success(state);
    }

    method Consume(id: u64, usage: Usage, now: u64, plugin: Callback<Decision>)
      returns (status: Status, decision: Option<Decision>)
      requires Valid()
      modifies Repr
      ensures Valid() && fresh(Repr - old(Repr))
      ensures (status, decision, Model()) == ConsumeOn(old(Model()), id, usage, now, plugin)
    {
      hide Indexed, ReservationEntry.Valid, ReservationEntry.Model, UsageModel.Consume;
      if id == 0 {
        return Err(Inval), None;
      }
      if id !in reservations {
        return Err(NotFound), None;
      }
      status, decision := reservations[id].Consume(usage, now, plugin);
      Repr := Repr + reservations[id].Repr();
      ReservationChanged(id);
    }

    method ReturnUsage(id: u64, usage: Usage, now: u64, plugin: Status) returns (status: Status)
      requires Valid()
      modifies Repr
      ensures Valid() && fresh(Repr - old(Repr))
      ensures (status, Model()) == ReturnOn(old(Model()), id, usage, now, plugin)
    {
      hide Indexed, ReservationEntry.Valid, ReservationEntry.Model, UsageModel.ReturnUsage;
      if id == 0 {
        return Err(Inval);
      }
      if id !in reservations {
        return Err(NotFound);
      }
      status := reservations[id].ReturnUsage(usage, now, plugin);
      Repr := Repr + reservations[id].Repr();
      ReservationChanged(id);
    }

    method RecordActual(id: u64, actual: ActualUsage, answer: Status) returns (status: Status, fed: Option<ActualUsage>)
      requires Valid()
      modifies Repr
      ensures Valid() && Repr == old(Repr)
      ensures (status, fed, Model()) == RecordOn(old(Model()), id, actual, answer)
    {
      hide Indexed, ReservationEntry.Valid, UsageModel.RecordActual;
      if id == 0 {
        return Err(Inval), None;
      }
      if id !in reservations {
        return Err(NotFound), None;
      }
      var entry := reservations[id];
      var device := entry.reservation.deviceId;
      var feedback: Option<Status> := None;
      if device in devices && devices[device].estimator.PluginEstimator? && devices[device].estimator.feedback {
        feedback := Some(answer);
      }
      status, fed := entry.RecordActual(actual, feedback);
      ReservationChanged(id);
    }

    // -------------------------------------------------------------------------
    // Devices.

    /** A new object enters the device table under an id not used in it. */
    method InsertDevice(device: DeviceEntry)
      requires Valid() && device.profile.deviceId !in devices && device !in Repr
      modifies this`devices, this`Repr
      ensures Valid() && Repr == old(Repr) + {device}
      ensures Model() == old(Model()).(devices := old(Devices())[device.profile.deviceId := device.Model()])
    {
      hide Indexed, ReservationEntry.Valid, ReservationEntry.Model, ReservationEntry.Repr, Entries;
      devices := devices[device.profile.deviceId := device];
      Repr := Repr + {device};
      ReservationsStand();
      OnlyFieldsChanged();
      assert Devices() == old(Devices())[device.profile.deviceId := device.Model()];
    }

    method RegisterDevice(p: Profile) returns (status: Status)
      requires Valid()
      modifies Repr
      ensures Valid() && fresh(Repr - old(Repr))
      ensures (status, Model()) == LedgerModel.RegisterDevice(old(Model()), p)
    {
      hide Indexed, ReservationEntry.Valid, ReservationEntry.Model, ReservationEntry.Repr, HasActive, ValidProfile;
      if !ValidProfile(p) {
        return Err(Inval);
      }
      var entry := new DeviceEntry(p);
      EntriesUnderIds();
      if p.deviceId !in devices {
        InsertDevice(entry);
        return OK;
      }
      var active := HasActiveReservation(p.deviceId);
      if active {
        return Err(Error.State);
      }
      devices[p.deviceId].ReplaceWith(entry);
      DeviceChanged(p.deviceId);
      return OK;
    }

    method UnregisterDevice(id: u64) returns (status: Status)
      requires Valid()
      modifies this
      ensures Valid() && Repr == old(Repr)
      ensures (status, Model()) == LedgerModel.UnregisterDevice(old(Model()), id)
    {
      hide Indexed, ReservationEntry.Valid, ReservationEntry.Model, ReservationEntry.Repr, HasActive;
      if id == 0 {
        return Err(Inval);
      }
      if id !in devices {
        return Err(NotFound);
      }
      var active := HasActiveReservation(id);
      if active {
        return Err(Error.State);
      }
      devices := devices - {id};
      ReservationsStand();
      OnlyFieldsChanged();
      assert Devices() == old(Devices()) - {id};
      return OK;
    }

    method SetBaseline(id: u64, baseline: Baseline) returns (status: Status)
      requires Valid()
      modifies Repr
      ensures Valid() && Repr == old(Repr)
      ensures (status, Model()) == LedgerModel.SetBaseline(old(Model()), id, baseline)
    {
      hide Indexed, ReservationEntry.Valid, ReservationEntry.Model, ReservationEntry.Repr, HasActive, ValidBaseline;
      if id == 0 || !ValidBaseline(baseline) {
        return Err(Inval);
      }
      if id !in devices {
        return Err(NotFound);
      }
      var active := HasActiveReservation(id);
      if active {
        return Err(Error.State);
      }
      var device := devices[id];
      if baseline.qubitCount > device.profile.maxQubits
         || (device.profile.maxShots != 0 && baseline.shots > device.profile.maxShots) {
        return Err(Inval);
      }
      device.ReplaceBaseline(baseline);
      DeviceChanged(id);
      return OK;
    }

    method ConfigurePolicy(id: u64, plugin: Option<Plugin<PolicyKind>>, options: seq<KeyValue>, setup: SetupInputs)
      returns (status: Status)
      requires Valid() && id in devices
      modifies devices[id]
      ensures Valid()
      ensures id in old(Devices())
      ensures var dev := SetDevicePolicy(old(Devices())[id], plugin, options, setup);
              status == dev.Status()
              && Model() ==
                 if dev.Success? then old(Model()).(devices := old(Devices())[id := dev.value]) else old(Model())
    {
      hide Indexed, ReservationEntry.Valid, ReservationEntry.Model, ReservationEntry.Repr, Entries, SetDevicePolicy;
      status := devices[id].SetPolicyEntry(plugin, options, setup);
      DeviceChanged(id);
      assert old(Devices())[id := old(Devices())[id]] == old(Devices());
    }

    method ConfigureEstimator(id: u64, plugin: Option<Plugin<EstimatorKind>>, setup: SetupInputs)
      returns (status: Status)
      requires Valid() && id in devices
      modifies devices[id]
      ensures Valid()
      ensures id in old(Devices())
      ensures var dev := SetDeviceEstimator(old(Devices())[id], plugin, setup);
              status == dev.Status()
              && Model() ==
                 if dev.Success? then old(Model()).(devices := old(Devices())[id := dev.value]) else old(Model())
    {
      hide Indexed, ReservationEntry.Valid, ReservationEntry.Model, ReservationEntry.Repr, Entries, SetDeviceEstimator;
      status := devices[id].SetEstimatorEntry(plugin, setup);
      DeviceChanged(id);
      assert old(Devices())[id := old(Devices())[id]] == old(Devices());
    }

    /** A plugin loaded on the way stays registered even when the device then refuses it. */
    method SetPolicy(
      id: u64, name: string, options: seq<KeyValue>, load: (string, string) -> LoadOutcome<PolicyKind>,
      setup: SetupInputs)
      returns (status: Status)
      requires Valid()
      modifies Repr
      ensures Valid() && Repr == old(Repr)
      ensures (status, Model()) == LedgerModel.SetPolicy(old(Model()), id, name, options, load, setup)
    {
      hide Entries, HasActive, FindOrLoad, SetDevicePolicy;
      if id !in devices {
        return Err(NotFound);
      }
      var active := HasActiveReservation(id);
      if active {
        return Err(Error.State);
      }
      var search := FindOrLoadPlugin(policies, name, [], policyPaths, load);
      policies := search.registry;
      TablesUnchanged();
      hide Devices;
      if search.found.Failure? || search.found.value.None? {
        return Err(NotFound);
      }
      status := ConfigurePolicy(id, search.found.value, options, setup);
    }

    method SetEstimator(
      id: u64, name: string, load: (string, string) -> LoadOutcome<EstimatorKind>, setup: SetupInputs)
      returns (status: Status)
      requires Valid()
      modifies Repr
      ensures Valid() && Repr == old(Repr)
      ensures (status, Model()) == LedgerModel.SetEstimator(old(Model()), id, name, load, setup)
    {
      hide Entries, HasActive, FindOrLoad, SetDeviceEstimator;
      if id !in devices {
        return Err(NotFound);
      }
      var active := HasActiveReservation(id);
      if active {
        return Err(Error.State);
      }
      var search := FindOrLoadPlugin(estimators, name, [], estimatorPaths, load);
      estimators := search.registry;
      TablesUnchanged();
      hide Devices;
      if search.found.Failure? || search.found.value.None? {
        return Err(NotFound);
      }
      status := ConfigureEstimator(id, search.found.value, setup);
    }

    // -------------------------------------------------------------------------
    // Configuration loads.

    static method ConfigHasDevice(c: Config, id: u64) returns (found: bool)
      ensures found <==> Configures(c, id)
    {
      for i := 0 to |c.devices|
        invariant forall k :: 0 <= k < i ==> c.devices[k].profile.deviceId != id
      {
        if c.devices[i].profile.deviceId == id {
          return true;
        }
      }
      return false;
    }

    method RejectActiveOmittedDevices(c: Config) returns (status: Status)
      requires Valid()
      ensures status == if OmitsActive(Model(), c) then Err(Error.State) else OK
    {
      hide Valid, Model, HasActive, Configures;
      EntriesUnderIds();
      var remaining := devices.Keys;
      while remaining != {}
        invariant remaining <= devices.Keys
        invariant forall id :: id in devices && id !in remaining ==>
          Configures(c, id) || !HasActive(Model().reservations, id)
        decreases |remaining|
      {
        var id :| id in remaining;
        remaining := remaining - {id};
        var configured := ConfigHasDevice(c, id);
        if !configured {
          var active := HasActiveReservation(id);
          if active {
            return Err(Error.State);
          }
        }
      }
      return OK;
    }

    /** The staged table of a merge starts with the very objects of the devices it does not configure. */
    method AddCurrentDevices(c: Config) returns (table: map<u64, DeviceEntry>)
      ensures table == map id | id in devices && !Configures(c, id) :: devices[id]
    {
      hide Configures;
      var remaining := devices.Keys;
      table := map[];
      while remaining != {}
        invariant remaining <= devices.Keys
        invariant table == map id | id in devices && id !in remaining && !Configures(c, id) :: devices[id]
        decreases |remaining|
      {
        var id :| id in remaining;
        remaining := remaining - {id};
        var configured := ConfigHasDevice(c, id);
        if !configured {
          table := table[id := devices[id]];
        }
      }
    }

    method SelectStagedEstimator(c: Config, i: nat, device: DeviceEntry, inputs: ConfigInputs)
      returns (status: Status, loaded: Option<string>)
      requires Valid() && i < |c.devices| && device !in Repr
      modifies this`estimators, device
      ensures Valid() && Entries() == old(Entries()) && Devices() == old(Devices())
      ensures device.profile == old(device.profile)
      ensures var staged := StageEstimator(
                old(Model()), c, i, old(device.Model()), Registries(policies, old(estimators)), inputs);
              && status == staged.outcome.Status()
              && (status == OK ==> device.Model() == staged.outcome.value)
              && staged.registries == Registries(policies, estimators)
      ensures loaded.None? ==> estimators == old(estimators)
      ensures loaded.Some? ==>
                loaded.value !in old(estimators) && estimators - {loaded.value} == old(estimators)
    {
      hide Entries, Devices, FindOrLoad, SetDeviceEstimator;
      TablesUnchanged();
      match c.devices[i].estimatorName
      case None =>
        return OK, None;
      case Some(name) =>
        var search := FindOrLoadPlugin(estimators, name, c.estimatorPaths, estimatorPaths, inputs.loadEstimator);
        estimators, loaded := search.registry, search.loaded;
        if search.found.Failure? {
          TablesUnchanged();
          return Err(search.found.error), loaded;
        }
        status := device.SetEstimatorEntry(search.found.value, inputs.setup(i));
        TablesUnchanged();
    }

    method SelectStagedPolicy(c: Config, i: nat, device: DeviceEntry, inputs: ConfigInputs)
      returns (status: Status, loaded: Option<string>)
      requires Valid() && i < |c.devices| && device !in Repr
      modifies this`policies, device
      ensures Valid() && Entries() == old(Entries()) && Devices() == old(Devices())
      ensures device.profile == old(device.profile)
      ensures var staged := StagePolicy(
                old(Model()), c, i, old(device.Model()), Registries(old(policies), estimators), inputs);
              && status == staged.outcome.Status()
              && (status == OK ==> device.Model() == staged.outcome.value)
              && staged.registries == Registries(policies, estimators)
      ensures loaded.None? ==> policies == old(policies)
      ensures loaded.Some? ==>
                loaded.value !in old(policies) && policies - {loaded.value} == old(policies)
    {
      hide Entries, Devices, FindOrLoad, SetDevicePolicy;
      TablesUnchanged();
      match c.devices[i].policyName
      case None =>
        return OK, None;
      case Some(name) =>
        var search := FindOrLoadPlugin(policies, name, c.policyPaths, policyPaths, inputs.loadPolicy);
        policies, loaded := search.registry, search.loaded;
        if search.found.Failure? {
          TablesUnchanged();
          return Err(search.found.error), loaded;
        }
        status := device.SetPolicyEntry(search.found.value, c.devices[i].policyOptions, inputs.setup(i));
        TablesUnchanged();
    }

    /** A new object for one configured device, with the estimator and the policy it names. */
    method StageConfigDevice(c: Config, i: nat, inputs: ConfigInputs)
      returns (entry: Result<DeviceEntry>, loadedEstimator: Option<string>, loadedPolicy: Option<string>)
      requires Valid() && i < |c.devices|
      modifies this`policies, this`estimators
      ensures Valid() && Entries() == old(Entries()) && Devices() == old(Devices())
      ensures var staged := StageDevice(old(Model()), c, i, Registries(old(policies), old(estimators)), inputs);
              && staged.registries == Registries(policies, estimators)
              && entry.Status() == staged.outcome.Status()
              && (entry.Success? ==> entry.value.Model() == staged.outcome.value)
      ensures entry.Success? ==> fresh(entry.value) && entry.value.profile.deviceId == c.devices[i].profile.deviceId
      ensures loadedEstimator.None? ==> estimators == old(estimators)
      ensures loadedEstimator.Some? ==>
                loadedEstimator.value !in old(estimators) && estimators - {loadedEstimator.value} == old(estimators)
      ensures loadedPolicy.None? ==> policies == old(policies)
      ensures loadedPolicy.Some? ==>
                loadedPolicy.value !in old(policies) && policies - {loadedPolicy.value} == old(policies)
    {
      hide Valid, Entries, Devices, HasActive, ValidProfile, StageEstimator, StagePolicy;
      loadedEstimator, loadedPolicy := None, None;
      var p := c.devices[i].profile;
      EntriesUnderIds();
      if p.deviceId in devices {
        var active := HasActiveReservation(p.deviceId);
        if active {
          return Failure(Error.State), None, None;
        }
      }
      if !ValidProfile(p) {
        return Failure(Inval), None, None;
      }
      var device := new DeviceEntry(p);
      TablesUnchanged();
      var status;
      status, loadedEstimator := SelectStagedEstimator(c, i, device, inputs);
      if status.Err? {
        return Failure(status.error), loadedEstimator, None;
      }
      StagingPolicyIgnoresEstimators(
        old(Model()), Model(), c, i, device.Model(), Registries(policies, estimators), inputs);
      status, loadedPolicy := SelectStagedPolicy(c, i, device, inputs);
      if status.Err? {
        return Failure(status.error), loadedEstimator, loadedPolicy;
      }
      return Success(device), loadedEstimator, loadedPolicy;
    }

    /** Kept objects stand where no configured device was staged, new objects where one was. */
    ghost predicate StagedTable(table: map<u64, DeviceEntry>, kept: map<u64, DeviceEntry>, staged: map<u64, Device>)
      reads table.Values
    {
      && table.Keys == kept.Keys + staged.Keys
      && (forall id :: id in kept && id !in staged ==> table[id] == kept[id])
      && (forall id :: id in staged ==> table[id].Model() == staged[id] && table[id].profile.deviceId == id)
    }

    lemma StagedOneMore(
      table: map<u64, DeviceEntry>, kept: map<u64, DeviceEntry>, staged: map<u64, Device>, entry: DeviceEntry)
      requires StagedTable(table, kept, staged)
      ensures var id := entry.profile.deviceId;
              StagedTable(table[id := entry], kept, staged[id := entry.Model()])
    {
    }

    method AddConfigDevices(c: Config, inputs: ConfigInputs, kept: map<u64, DeviceEntry>)
      returns (status: Status, table: map<u64, DeviceEntry>, loadedEstimators: seq<string>, loadedPolicies: seq<string>)
      requires Valid()
      modifies this`policies, this`estimators
      ensures Valid() && Entries() == old(Entries()) && Devices() == old(Devices())
      ensures Restores(policies, loadedPolicies, old(policies))
      ensures Restores(estimators, loadedEstimators, old(estimators))
      ensures var staged := StageDevices(old(Model()), c, |c.devices|, inputs);
              && status == staged.outcome.Status()
              && staged.registries == Registries(policies, estimators)
              && (status == OK ==>
                    StagedTable(table, kept, staged.outcome.value)
                    && forall id :: id in table && id in staged.outcome.value ==> fresh(table[id]))
    {
      hide Valid, Entries, Devices, StageDevice, StageDevices, Restores, StagedTable, DeviceEntry.Model;
      table, loadedEstimators, loadedPolicies := kept, [], [];
      TablesUnchanged();
      NothingLoaded(policies);
      NothingLoaded(estimators);
      ghost var s := Model();
      NothingStaged(s, c, inputs, kept);
      for i := 0 to |c.devices|
        invariant Valid() && Entries() == old(Entries()) && Devices() == old(Devices())
        invariant Model() == s.(policies := policies, estimators := estimators)
        invariant StageDevices(s, c, i, inputs).outcome.Success?
        invariant StageDevices(s, c, i, inputs).registries == Registries(policies, estimators)
        invariant StagedTable(table, kept, StageDevices(s, c, i, inputs).outcome.value)
        invariant forall id :: id in table && id in StageDevices(s, c, i, inputs).outcome.value ==> fresh(table[id])
        invariant Restores(policies, loadedPolicies, old(policies))
        invariant Restores(estimators, loadedEstimators, old(estimators))
      {
        ghost var before := StageDevices(s, c, i, inputs).outcome.value;
        StageOneMore(s, c, i, inputs);
        StagingIgnoresRegistries(s, Model(), c, i, Registries(policies, estimators), inputs);
        ghost var policiesBefore, estimatorsBefore := policies, estimators;
        var entry, loadedEstimator, loadedPolicy := StageConfigDevice(c, i, inputs);
        LoadedOneMore(policiesBefore, loadedPolicies, old(policies), policies, loadedPolicy);
        LoadedOneMore(estimatorsBefore, loadedEstimators, old(estimators), estimators, loadedEstimator);
        loadedPolicies := Tracked(loadedPolicies, loadedPolicy);
        loadedEstimators := Tracked(loadedEstimators, loadedEstimator);
        if entry.Failure? {
          StageFailureStays(s, c, i + 1, |c.devices|, inputs);
          return Err(entry.error), table, loadedEstimators, loadedPolicies;
        }
        StagedOneMore(table, kept, before, entry.value);
        table := table[c.devices[i].profile.deviceId := entry.value];
      }
      status := OK;
    }

    lemma NothingStaged(s: Ledger, c: Config, inputs: ConfigInputs, kept: map<u64, DeviceEntry>)
      ensures StageDevices(s, c, 0, inputs) == StagedConfig(Success(map[]), Registries(s.policies, s.estimators))
      ensures StagedTable(kept, kept, map[])
    {
    }

    /** Plugins a failed load registered are taken out again, in the order they came in. */
    method RollbackLoadedPolicies(loaded: seq<string>, ghost original: map<string, PolicyKind>)
      requires Restores(policies, loaded, original)
      modifies this`policies
      ensures policies == original
    {
      var rest := loaded;
      while rest != []
        invariant Restores(policies, rest, original)
        decreases |rest|
      {
        UnloadedOne(policies, rest, original);
        policies := policies - {rest[0]};
        rest := rest[1..];
      }
      assert policies - (set name | name in rest) == policies;
    }

    method RollbackLoadedEstimators(loaded: seq<string>, ghost original: map<string, EstimatorKind>)
      requires Restores(estimators, loaded, original)
      modifies this`estimators
      ensures estimators == original
    {
      var rest := loaded;
      while rest != []
        invariant Restores(estimators, rest, original)
        decreases |rest|
      {
        UnloadedOne(estimators, rest, original);
        estimators := estimators - {rest[0]};
        rest := rest[1..];
      }
      assert estimators - (set name | name in rest) == estimators;
    }

    static method BuildNewPathArray(mode: ConfigMode, current: seq<string>, configured: seq<string>)
      returns (paths: seq<string>)
      ensures paths == NewPaths(mode, current, configured)
    {
      var kept := if mode.Merge? then current else [];
      paths := [];
      for i := 0 to |kept|
        invariant paths == kept[..i]
      {
        paths := paths + [kept[i]];
      }
      for i := 0 to |configured|
        invariant paths == kept + configured[..i]
      {
        paths := paths + [configured[i]];
      }
    }

    static method ValidatePendingConfig(c: Config) returns (valid: bool)
      ensures valid <==> forall i :: 0 <= i < |c.devices| ==> ValidProfile(c.devices[i].profile)
    {
      hide ValidProfile;
      for i := 0 to |c.devices|
        invariant forall k :: 0 <= k < i ==> ValidProfile(c.devices[k].profile)
      {
        if !ValidProfile(c.devices[i].profile) {
          return false;
        }
      }
      return true;
    }

    /** Swaps in the staged table and paths. */
    method CommitConfig(
      table: map<u64, DeviceEntry>, newPolicyPaths: seq<string>, newEstimatorPaths: seq<string>,
      ghost m: map<u64, Device>)
      requires Valid() && table.Keys == m.Keys
      requires forall id :: id in table ==> table[id].profile.deviceId == id && table[id].Model() == m[id]
      modifies this`devices, this`policyPaths, this`estimatorPaths, this`Repr
      ensures Valid() && Repr == old(Repr) + set id | id in table :: table[id]
      ensures Model() == old(Model()).(
                devices := m, policyPaths := newPolicyPaths, estimatorPaths := newEstimatorPaths)
    {
      hide Indexed, ReservationEntry.Valid, ReservationEntry.Model, ReservationEntry.Repr, Entries, Devices;
      devices := table;
      policyPaths, estimatorPaths := newPolicyPaths, newEstimatorPaths;
      Repr := Repr + set id | id in table :: table[id];
      ReservationsStand();
      hide Valid;
      DevicesAre(m);
    }

    /** What the staged table stands for: the kept devices and the staged ones. */
    lemma StagedModels(
      c: Config, mode: ConfigMode, table: map<u64, DeviceEntry>, kept: map<u64, DeviceEntry>, staged: map<u64, Device>)
      returns (m: map<u64, Device>)
      requires Valid() && StagedTable(table, kept, staged) && !mode.InvalidMode?
      requires kept == if mode.Merge? then map id | id in devices && !Configures(c, id) :: devices[id] else map[]
      ensures m == if mode.Merge? then KeptDevices(Model(), c) + staged else staged
      ensures table.Keys == m.Keys
      ensures forall id :: id in table ==> table[id].profile.deviceId == id && table[id].Model() == m[id]
      ensures forall id :: id in table && id !in staged ==> table[id] in Repr
    {
      hide Indexed, ReservationEntry.Valid, ReservationEntry.Model, ReservationEntry.Repr, Entries, Configures;
      m := if mode.Merge? then KeptDevices(Model(), c) + staged else staged;
    }

    /** Stages the configured devices beside the kept ones and commits, or rolls the registries back. */
    method StageAndCommit(c: Config, mode: ConfigMode, inputs: ConfigInputs, kept: map<u64, DeviceEntry>)
      returns (status: Status)
      requires Valid() && !mode.InvalidMode?
      requires kept == if mode.Merge? then map id | id in devices && !Configures(c, id) :: devices[id] else map[]
      modifies this
      ensures Valid() && fresh(Repr - old(Repr))
      ensures var s := old(Model());
              var staged := StageDevices(s, c, |c.devices|, inputs);
              && status == staged.outcome.Status()
              && Model() ==
                 if staged.outcome.Failure? then s
                 else s.(
                   devices := if mode.Merge? then KeptDevices(s, c) + staged.outcome.value else staged.outcome.value,
                   policies := staged.registries.policies,
                   estimators := staged.registries.estimators,
                   policyPaths := NewPaths(mode, s.policyPaths, c.policyPaths),
                   estimatorPaths := NewPaths(mode, s.estimatorPaths, c.estimatorPaths))
    {
      hide Valid, Entries, Devices, StageDevices, Configures, Restores, StagedTable, NewPaths;
      var table, loadedEstimators, loadedPolicies;
      status, table, loadedEstimators, loadedPolicies := AddConfigDevices(c, inputs, kept);
      if status.Err? {
        RollbackLoadedEstimators(loadedEstimators, old(estimators));
        RollbackLoadedPolicies(loadedPolicies, old(policies));
        TablesUnchanged();
        return;
      }
      var newEstimatorPaths := BuildNewPathArray(mode, estimatorPaths, c.estimatorPaths);
      var newPolicyPaths := BuildNewPathArray(mode, policyPaths, c.policyPaths);
      ghost var staged := StageDevices(old(Model()), c, |c.devices|, inputs).outcome.value;
      ghost var m := StagedModels(c, mode, table, kept, staged);
      CommitConfig(table, newPolicyPaths, newEstimatorPaths, m);
    }

    /** The load of a parsed configuration, as one transaction. */
    method LoadConfig(c: Config, mode: ConfigMode, inputs: ConfigInputs) returns (status: Status)
      requires Valid()
      modifies this
      ensures Valid() && fresh(Repr - old(Repr))
      ensures (status, Model()) == LedgerModel.LoadConfig(old(Model()), c, mode, inputs)
    {
      hide Valid, Model, OmitsActive, StageDevices, Configures, ValidProfile, KeptDevices, NewPaths;
      if mode.InvalidMode? {
        return Err(Inval);
      }
      var valid := ValidatePendingConfig(c);
      if !valid {
        return Err(Inval);
      }
      if mode.Replace? {
        status := RejectActiveOmittedDevices(c);
        if status.Err? {
          return;
        }
      }
      var kept := map[];
      if mode.Merge? {
        kept := AddCurrentDevices(c);
      }
      status := StageAndCommit(c, mode, inputs, kept);
    }
  }
}
