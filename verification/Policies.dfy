/**
 The policy attached to a device: one of the two shipped finite policies, or a plugin, with or without a
 capacity callback, whose callbacks may answer anything.
 */
module Policies {
  import opened CheckedMath
  import opened Records
  import opened PolicyCommon
  import CreditPolicy
  import RatePolicy

  datatype Policy =
    | Credit(credit: CreditPolicy.CreditState)
    | Rate(rate: RatePolicy.RateState)
    | Custom(capacity: bool)

  /** What the evaluate or reserve callback leaves behind: its return code, the grant and the decision. */
  datatype PolicyReply = PolicyReply(status: Status, grant: Grant, decision: Decision)

  const BLANK_GRANT := Grant(0, 0, 0, 0, 0, 0)

  /** The evaluate callback; the answer of a plugin is an input. */
  function EvaluateCallback(
    policy: Policy, profile: Profile, request: Request, estimate: Estimate, view: CapacityView, plugin: PolicyReply)
    : PolicyReply
  {
    match policy
    case Credit(state) => PolicyReply(OK, BLANK_GRANT, CreditPolicy.Evaluate(state, request, estimate, view))
    case Rate(state) => PolicyReply(OK, BLANK_GRANT, RatePolicy.Evaluate(state, profile, request, estimate, view).0)
    case Custom(_) => plugin
  }

  /** The reserve callback: the same decision, and a grant beside an accepted one. */
  function ReserveCallback(
    policy: Policy, profile: Profile, request: Request, estimate: Estimate, view: CapacityView, plugin: PolicyReply)
    : PolicyReply
  {
    match policy
    case Credit(state) =>
      var d := CreditPolicy.Evaluate(state, request, estimate, view);
      PolicyReply(OK, if d.kind == Accepted then CreditPolicy.GrantFor(state, request, estimate) else BLANK_GRANT, d)
    case Rate(state) =>
      var (d, rate) := RatePolicy.Evaluate(state, profile, request, estimate, view);
      PolicyReply(OK, if d.kind == Accepted then RatePolicy.GrantFor(state, request, estimate, rate) else BLANK_GRANT, d)
    case Custom(_) => plugin
  }

  /** The capacity callback; a plugin that has one may answer any view at all. */
  function CapacityCallback(policy: Policy, view: CapacityView, plugin: Result<CapacityView>): Result<CapacityView> {
    match policy
    case Credit(state) => CreditPolicy.Capacity(state, view)
    case Rate(_) => Success(RatePolicy.Capacity(view))
    case Custom(capacity) => if capacity then plugin else Success(view)
  }

  /** Identifiers a plugin left blank are filled from the reservation. */
  function FillIds(reservation: Reservation, d: Decision): Decision {
    d.(reservationId := if d.reservationId == 0 then reservation.reservationId else d.reservationId,
       deviceId := if d.deviceId == 0 then reservation.deviceId else d.deviceId,
       scopeId := if d.scopeId == 0 then reservation.scopeId else d.scopeId)
  }

  /** The consume or authorize callback on a reservation whose rate counter already stands for the window. */
  function UsageVerdict(
    policy: Policy, reservation: Reservation, usage: Usage, otherwise: Decision, plugin: Callback<Decision>)
    : Result<Decision>
  {
    match policy
    case Credit(_) => Success(FillIds(reservation, CreditPolicy.Consume(reservation, usage)))
    case Rate(_) => Success(FillIds(reservation, RatePolicy.Consume(reservation, usage)))
    case Custom(_) =>
      match plugin
      case Absent => Success(otherwise)
      case Fails(e) => Failure(e)
      case Answers(d) => Success(FillIds(reservation, d))
  }

  /** The release and return callbacks of the shipped policies always succeed. */
  function CallbackStatus(policy: Policy, plugin: Status): Status {
    if policy.Custom? then plugin else OK
  }
}
