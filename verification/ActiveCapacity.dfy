/**
 Sums over the active reservations of a device, and the figures one scan over them accumulates in saturating
 64-bit arithmetic. Whatever the order of the scan, each figure ends at the exact sum cut off at the largest
 number (src/qhw_reservation.c).
 */
module ActiveCapacity {
  import opened CheckedMath
  import opened Records
  import opened PolicyCommon
  import opened UsageLog
  import opened UsageModel
  import opened MapSum

  predicate ActiveOn(e: Entry, device: u64) {
    e.res.state == Active && e.res.deviceId == device
  }

  ghost predicate HasActive(reservations: map<u64, Entry>, device: u64) {
    exists id :: id in reservations && ActiveOn(reservations[id], device)
  }

  // ---------------------------------------------------------------------------
  // Sums over the active reservations of a device.

  datatype Quantity =
    | ActiveCount
    | CreditsReserved
    | CreditsConsumed
    | CreditsReturned
    | RateReserved
    | RateConsumed
    | RateReturned
    | EstimatedNs
    | MeteredIn(window: nat)

  function Weigh(q: Quantity, e: Entry): nat {
    match q
    case ActiveCount => 1
    case CreditsReserved => e.res.creditsReserved
    case CreditsConsumed => e.res.creditsConsumed
    case CreditsReturned => if e.res.creditsReserved != 0 then e.res.unusedCapacity else 0
    case RateReserved => e.res.rateReserved
    case RateConsumed => e.res.rateConsumed
    case RateReturned =>
      if e.res.creditsReserved == 0 && e.res.rateReserved != 0 then e.res.unusedCapacity else 0
    case EstimatedNs => e.res.estimatedTotalNs
    case MeteredIn(window) =>
      if e.rateWindowNs == 0 then 0 else Metered(e.res.rateReserved, e.rateWindowNs, e.log, window)
  }

  /** What an entry adds to a sum: only active ones of the device, and of the scope if one is given, count. */
  function Part(e: Entry, device: u64, scope: Option<u64>, q: Quantity): nat {
    if ActiveOn(e, device) && (scope.Some? ==> e.res.scopeId == scope.value) then Weigh(q, e) else 0
  }

  ghost function Contributions(reservations: map<u64, Entry>, device: u64, scope: Option<u64>, q: Quantity)
    : map<u64, nat>
  {
    map id | id in reservations :: Part(reservations[id], device, scope, q)
  }

  /** The exact, unbounded sum over the active reservations. */
  ghost function Total(reservations: map<u64, Entry>, device: u64, scope: Option<u64>, q: Quantity): nat {
    Sum(Contributions(reservations, device, scope, q))
  }

  lemma TotalUpdate(m: map<u64, Entry>, id: u64, e: Entry, device: u64, scope: Option<u64>, q: Quantity)
    ensures Total(m[id := e], device, scope, q)
         == Total(m, device, scope, q) + Part(e, device, scope, q)
            - (if id in m then Part(m[id], device, scope, q) else 0)
  {
    hide Sum, Part;
    SumUpdate(Contributions(m, device, scope, q), id, Part(e, device, scope, q));
    assert Contributions(m[id := e], device, scope, q)
        == Contributions(m, device, scope, q)[id := Part(e, device, scope, q)];
  }

  lemma NothingActiveNothingSummed(m: map<u64, Entry>, device: u64, scope: Option<u64>, q: Quantity)
    requires !HasActive(m, device)
    ensures Total(m, device, scope, q) == 0
  {
    SumOfZeros(Contributions(m, device, scope, q));
  }

  // ---------------------------------------------------------------------------
  // One scan for all figures.

  datatype Figures = Figures(
    activeCount: u64,
    creditsReserved: u64,
    creditsConsumed: u64,
    creditsReturned: u64,
    scopedCredits: u64,
    rateReserved: u64,
    rateConsumed: u64,
    rateReturned: u64,
    scopedRate: u64)

  const NO_FIGURES := Figures(0, 0, 0, 0, 0, 0, 0, 0, 0)

  /** One active reservation of the device taken into the figures. */
  function Include(f: Figures, r: Reservation, scope: u64): Figures {
    var summed := f.(
      activeCount := SatAdd(f.activeCount, 1),
      creditsReserved := SatAdd(f.creditsReserved, r.creditsReserved),
      creditsConsumed := SatAdd(f.creditsConsumed, r.creditsConsumed),
      rateReserved := SatAdd(f.rateReserved, r.rateReserved),
      rateConsumed := SatAdd(f.rateConsumed, r.rateConsumed));
    var returned :=
      if r.creditsReserved != 0 then summed.(creditsReturned := SatAdd(f.creditsReturned, r.unusedCapacity))
      else if r.rateReserved != 0 then summed.(rateReturned := SatAdd(f.rateReturned, r.unusedCapacity))
      else summed;
    if r.scopeId == scope then
      returned.(
        scopedCredits := SatAdd(f.scopedCredits, r.creditsReserved),
        scopedRate := SatAdd(f.scopedRate, r.rateReserved))
    else returned
  }

  ghost function Clipped(m: map<u64, Entry>, device: u64, scope: Option<u64>, q: Quantity): u64 {
    Clip(Total(m, device, scope, q))
  }

  ghost function FiguresOf(m: map<u64, Entry>, device: u64, scope: u64): Figures {
    Figures(
      Clipped(m, device, None, ActiveCount),
      Clipped(m, device, None, CreditsReserved),
      Clipped(m, device, None, CreditsConsumed),
      Clipped(m, device, None, CreditsReturned),
      Clipped(m, device, Some(scope), CreditsReserved),
      Clipped(m, device, None, RateReserved),
      Clipped(m, device, None, RateConsumed),
      Clipped(m, device, None, RateReturned),
      Clipped(m, device, Some(scope), RateReserved))
  }

  lemma NoReservationsNoFigures(device: u64, scope: u64)
    ensures FiguresOf(map[], device, scope) == NO_FIGURES
  {
    forall s: Option<u64>, q: Quantity
      ensures Total(map[], device, s, q) == 0
    {
      assert Contributions(map[], device, s, q) == map[];
    }
  }

  lemma ClippedUpdate(m: map<u64, Entry>, id: u64, e: Entry, device: u64, scope: Option<u64>, q: Quantity)
    requires id !in m
    ensures Clipped(m[id := e], device, scope, q)
         == Min(Clipped(m, device, scope, q) + Part(e, device, scope, q), U64_MAX)
  {
    hide Total, Part;
    TotalUpdate(m, id, e, device, scope, q);
  }

  lemma PartsOfOne(e: Entry, device: u64, scope: u64)
    ensures !ActiveOn(e, device) ==>
              forall sc: Option<u64>, q: Quantity :: Part(e, device, sc, q) == 0
    ensures ActiveOn(e, device) ==>
              && (forall q: Quantity :: Part(e, device, None, q) == Weigh(q, e))
              && Part(e, device, Some(scope), CreditsReserved)
                   == (if e.res.scopeId == scope then e.res.creditsReserved else 0)
              && Part(e, device, Some(scope), RateReserved)
                   == (if e.res.scopeId == scope then e.res.rateReserved else 0)
  {
  }

  /** Taking one more reservation into the figures, whichever it is, is what the sums over one more entry need. */
  lemma FiguresOfOneMore(m: map<u64, Entry>, id: u64, e: Entry, device: u64, scope: u64)
    requires id !in m
    ensures FiguresOf(m[id := e], device, scope)
         == if ActiveOn(e, device) then Include(FiguresOf(m, device, scope), e.res, scope)
            else FiguresOf(m, device, scope)
  {
    PartsOfOne(e, device, scope);
    hide Clipped, Part;
    ClippedUpdate(m, id, e, device, None, ActiveCount);
    ClippedUpdate(m, id, e, device, None, CreditsReserved);
    ClippedUpdate(m, id, e, device, None, CreditsConsumed);
    ClippedUpdate(m, id, e, device, None, CreditsReturned);
    ClippedUpdate(m, id, e, device, Some(scope), CreditsReserved);
    ClippedUpdate(m, id, e, device, None, RateReserved);
    ClippedUpdate(m, id, e, device, None, RateConsumed);
    ClippedUpdate(m, id, e, device, None, RateReturned);
    ClippedUpdate(m, id, e, device, Some(scope), RateReserved);
  }

  /** The core's view from the figures of a scan. */
  function ViewFrom(f: Figures, snap: Snapshot, laterNow: u64, totalCredits: u64, totalRate: u64): CapacityView {
    CapacityView(
      snap.deviceState,
      if snap.nowNs == 0 then laterNow else snap.nowNs,
      snap.nextAvailableNs,
      SatAdd(f.activeCount, snap.activeReservationCount),
      totalCredits,
      f.creditsReserved,
      f.creditsConsumed,
      f.creditsReturned,
      SatSub(totalCredits, f.creditsReserved),
      snap.externalCreditLimit,
      f.scopedCredits,
      CappedAvailable(SatSub(totalCredits, f.creditsReserved), snap.externalCreditLimit, f.scopedCredits),
      totalRate,
      f.rateReserved,
      f.rateConsumed,
      f.rateReturned,
      SatSub(totalRate, f.rateReserved),
      snap.externalRateLimit,
      f.scopedRate,
      CappedAvailable(SatSub(totalRate, f.rateReserved), snap.externalRateLimit, f.scopedRate),
      snap.confidencePpm)
  }
}
