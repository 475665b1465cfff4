/**
 The public calls on reservations, over the fields of the context: which reservation each finds, what it refuses,
 and that it changes no other; and which reservations a scan for expired ones ends.
 */
module LifecycleLaws {
  import opened CheckedMath
  import opened Records
  import opened Policies
  import opened UsageModel
  import opened LedgerModel
  import opened LedgerLifecycle
  import opened UsageLaws

  /** A call on one reservation left all the others, and everything else, alone. */
  predicate OnlyChanged(s: Ledger, t: Ledger, id: u64) {
    && id in s.reservations && id in t.reservations
    && t == s.(reservations := s.reservations[id := t.reservations[id]])
  }

  /** Release and cancel. */
  lemma EndExact(s: Ledger, id: u64, target: ReservationState, release: Status, reserved: nat, used: nat)
    requires id in s.reservations ==> Counted(s.reservations[id].res, reserved, used)
    ensures var (status, t) := EndReservation(s, id, target, release);
            if id == 0 then status == Err(Inval) && t == s
            else if id !in s.reservations then status == Err(NotFound) && t == s
            else
              var e := s.reservations[id];
              && status == (if e.res.state == target then OK
                            else if e.res.state != Active then Err(State)
                            else PluginSays(e.policy, release))
              && OnlyChanged(s, t, id)
              && (if status == OK && e.res.state != target then
                    && Ended(e.res, t.reservations[id].res, target, reserved, used)
                    && t.reservations[id] == e.(res := t.reservations[id].res)
                  else t == s)
  {
    if id in s.reservations {
      EndOfReservation(s.reservations[id], target, release, reserved, used);
      assert s.reservations[id := s.reservations[id]] == s.reservations;
    }
    hide Transition, Ended, Counted;
  }

  /** A renewal counts from the time given, or from the clock. */
  lemma RenewExact(s: Ledger, id: u64, now: u64, clock: u64, ttl: u64)
    ensures var (status, t) := RenewReservation(s, id, now, clock, ttl);
            var from := if now > 0 then now else clock;
            if id == 0 || ttl == 0 then status == Err(Inval) && t == s
            else if id !in s.reservations then status == Err(NotFound) && t == s
            else
              var e := s.reservations[id];
              if e.res.state != Active then status == Err(State) && t == s
              else if from + ttl > U64_MAX then status == Err(Inval) && t == s
              else
                && status == OK && OnlyChanged(s, t, id)
                && t.reservations[id] == e.(res := e.res.(expiresAtNs := from + ttl))
  {
    if id in s.reservations {
      assert s.reservations[id := s.reservations[id]] == s.reservations;
    }
  }

  /** Consume and return reach the reservation of the id; what they do to it is said of the reservation alone. */
  lemma UsageReaches(s: Ledger, id: u64, u: Usage, now: u64, plugin: Callback<Decision>, answer: Status)
    requires forall i :: i in s.reservations ==> Indexed(s.reservations[i])
    ensures var (status, d, t) := ConsumeOn(s, id, u, now, plugin);
            if id == 0 then status == Err(Inval) && d == None && t == s
            else if id !in s.reservations then status == Err(NotFound) && d == None && t == s
            else
              && OnlyChanged(s, t, id)
              && Consume(s.reservations[id], u, now, plugin) == UsageReply(status, d, t.reservations[id])
    ensures var (status, t) := ReturnOn(s, id, u, now, answer);
            if id == 0 then status == Err(Inval) && t == s
            else if id !in s.reservations then status == Err(NotFound) && t == s
            else
              && OnlyChanged(s, t, id)
              && ReturnUsage(s.reservations[id], u, now, answer).status == status
              && ReturnUsage(s.reservations[id], u, now, answer).entry == t.reservations[id]
  {
    hide Consume, ReturnUsage, Indexed;
  }

  /** Feedback goes to the estimator of the reservation's device, if that is a plugin that takes it. */
  lemma RecordReaches(s: Ledger, id: u64, a: ActualUsage, answer: Status)
    ensures var (status, fed, t) := RecordOn(s, id, a, answer);
            if id == 0 then status == Err(Inval) && fed == None && t == s
            else if id !in s.reservations then status == Err(NotFound) && fed == None && t == s
            else
              var e := s.reservations[id];
              var takes := e.res.deviceId in s.devices
                           && s.devices[e.res.deviceId].estimator == PluginEstimator(true);
              && OnlyChanged(s, t, id)
              && RecordActual(e, a, if takes then Some(answer) else None)
                 == RecordReply(status, t.reservations[id], fed)
  {
    hide RecordActual;
  }

  /** Authorization looks at the usage first, at the id next and at the reservation last; it changes nothing. */
  lemma AuthorizeExact(s: Ledger, id: u64, u: Usage, now: u64, plugin: Callback<Decision>)
    ensures var (status, d) := AuthorizeOn(s, id, u, now, plugin);
            if (u.reservationId > 0 && u.reservationId != id)
               || (u.taskId > 0
                   && exists i, j :: 0 <= i < j < |u.metadata| && u.metadata[i].key == u.metadata[j].key) then
              status == Err(Inval) && d == None
            else if id == 0 then status == Err(Inval) && d == None
            else if id !in s.reservations then status == Err(NotFound) && d == None
            else
              var e := s.reservations[id];
              if e.res.state != Active then status == Err(State) && d == None
              else
                var kept := u.(reservationId := id, eventTimeNs := if u.eventTimeNs > 0 then u.eventTimeNs else now);
                match VerdictOn(e.policy, PolicyView(e.res, RateWindowConsumed(e, kept.eventTimeNs)), kept, plugin)
                case Failure(error) => status == Err(error) && d == None
                case Success(verdict) => status == OK && d == Some(verdict)
  {
    hide VerdictOn, RateWindowConsumed;
  }

  // ---------------------------------------------------------------------------
  // Expiry.

  /** An active reservation that has an expiry time, which has come. */
  predicate TimeIsUp(r: Reservation, now: u64) {
    r.state == Active && 0 < r.expiresAtNs <= now
  }

  /** A plugin policy does not let go. */
  predicate Holds(e: Entry, release: Status) {
    e.policy.Custom? && release != OK
  }

  lemma DueIsUp(e: Entry, now: u64, release: Status)
    ensures Due(e, now) <==> TimeIsUp(e.res, now)
    ensures ReleaseFails(e, now, release) <==> TimeIsUp(e.res, now) && Holds(e, release)
  {
  }

  lemma RetiredIsEnded(e: Entry, reserved: nat, used: nat)
    requires Counted(e.res, reserved, used)
    ensures Ended(e.res, Retired(e).res, Expired, reserved, used) && Retired(e) == e.(res := Retired(e).res)
  {
  }

  /** A reservation after a scan that reached it: ended if its time was up, as it was otherwise. */
  ghost predicate Scanned(e: Entry, after: Entry, now: u64) {
    if TimeIsUp(e.res, now) then
      && (forall reserved: nat, used: nat :: Counted(e.res, reserved, used) ==>
            Ended(e.res, after.res, Expired, reserved, used))
      && after == e.(res := after.res)
    else after == e
  }

  /**
   A scan in any order over the table ends every reservation whose time is up, up to the first one a plugin holds,
   whose error it returns; it counts what it ended, and changes nothing else.
   */
  lemma ExpiryScan(s: Ledger, order: seq<u64>, now: u64, release: u64 -> Status) returns (n: nat)
    requires ScanOrder(s, order)
    ensures n <= |order|
    ensures forall i :: 0 <= i < n && TimeIsUp(s.reservations[order[i]].res, now) ==>
              !Holds(s.reservations[order[i]], release(order[i]))
    ensures n < |order| ==>
              TimeIsUp(s.reservations[order[n]].res, now) && Holds(s.reservations[order[n]], release(order[n]))
    ensures var (status, t, count) := ExpireOver(s, order, now, release);
            && status == (if n == |order| then OK else release(order[n]))
            && t == s.(reservations := t.reservations) && t.reservations.Keys == s.reservations.Keys
            && (forall id :: id in s.reservations ==>
                  if id in order[..n] then Scanned(s.reservations[id], t.reservations[id], now)
                  else t.reservations[id] == s.reservations[id])
            && count == |set id | id in order[..n] && TimeIsUp(s.reservations[id].res, now)|
  {
    ExpiryExact(s, order, now, release);
    ExpiryStatus(s, order, now, release);
    n := Stop(s, order, now, release);
    forall id | id in s.reservations
      ensures Due(s.reservations[id], now) <==> TimeIsUp(s.reservations[id].res, now)
      ensures ReleaseFails(s.reservations[id], now, release(id)) <==>
              TimeIsUp(s.reservations[id].res, now) && Holds(s.reservations[id], release(id))
      ensures TimeIsUp(s.reservations[id].res, now) ==> Scanned(s.reservations[id], Retired(s.reservations[id]), now)
    {
      DueIsUp(s.reservations[id], now, release(id));
      forall reserved: nat, used: nat | Counted(s.reservations[id].res, reserved, used)
        ensures Ended(s.reservations[id].res, Retired(s.reservations[id]).res, Expired, reserved, used)
      {
        RetiredIsEnded(s.reservations[id], reserved, used);
      }
    }
    hide Due, ReleaseFails, TimeIsUp, Holds, Retired, ExpireOver, Stop;
    assert DueIds(s.reservations, order[..n], now)
        == set id | id in order[..n] && TimeIsUp(s.reservations[id].res, now);
  }
}
