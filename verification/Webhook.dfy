/** The webhook's record of seen events, its run lifecycle, and the delivery of one event. */
module Webhook {
  import opened Common

  const MAX_SEEN_EVENTS := 4096

  function SaturatingAdd(a: U64, b: U64): U64 {
    if a + b > U64_MAX then U64_MAX else a + b
  }

  datatype SeenState = Pending | Accepted

  datatype SeenRecord = SeenRecord(state: SeenState, expiresAt: U64)

  /** The id of an event; the wrapper is the identity of the text. */
  datatype EventKey = EventKey(text: string)

  type Records = map<EventKey, SeenRecord>

  datatype Reservation = New | Duplicate(state: SeenState) | Saturated

  function AfterLookup(records: Records, id: EventKey, now: U64): (Records, Option<SeenState>) {
    if id !in records then (records, None)
    else if records[id].expiresAt < now then (records - {id}, None)
    else (records, Some(records[id].state))
  }

  function Unexpired(records: Records, now: U64): Records {
    map id | id in records && records[id].expiresAt >= now :: records[id]
  }

  /** Every record but the one for this id; only the unexpired ones when there is no room for another. */
  function Others(records: Records, id: EventKey, now: U64): Records {
    var others := records - {id};
    if |others| >= MAX_SEEN_EVENTS then Unexpired(others, now) else others
  }

  function AfterReserve(records: Records, id: EventKey, expiresAt: U64, now: U64): (Records, Reservation) {
    if id in records && records[id].expiresAt >= now then (records, Duplicate(records[id].state))
    else
      var kept := Others(records, id, now);
      if |kept| >= MAX_SEEN_EVENTS then (kept, Saturated)
      else (kept[id := SeenRecord(Pending, expiresAt)], New)
  }

  function AfterAccept(records: Records, id: EventKey): Records {
    if id in records && records[id].state.Pending? then records[id := records[id].(state := Accepted)] else records
  }

  function AfterRelease(records: Records, id: EventKey): Records {
    if id in records && records[id].state.Pending? then records - {id} else records
  }

  // ----- runs and deliveries -----

  /** `terminal` says that the run can still be told of a terminal error. */
  datatype ActiveRun = ActiveRun(generation: nat, terminal: bool)

  datatype Lifecycle = Lifecycle(nextGeneration: nat, active: Option<ActiveRun>)

  /** What the runtime's event queue answers. */
  datatype QueueAnswer = Sent | QueueFull | QueueClosed | AdapterMismatch

  datatype Response =
    | AckDelivered(id: EventKey)
    | AckDuplicate(id: EventKey)
    | AckUnmapped
    | AckMalformed
    | BadRequest
    | StillPending
    | CapacityExhausted
    | NotAccepting
    | IdentityInvalid
    | QueueUnavailable

  /** The code of an acknowledgement; other responses are HTTP errors. */
  function AckCode(r: Response): Option<nat> {
    if r.AckDelivered? || r.AckDuplicate? || r.AckUnmapped? then Some(0)
    else if r.AckMalformed? then Some(1)
    else None
  }

  function ExpiresAt(signedAt: U64, tolerance: U64, now: U64, requestTimeout: U64): U64 {
    var bySignature, byTimeout := SaturatingAdd(signedAt, tolerance), SaturatingAdd(now, requestTimeout);
    if bySignature > byTimeout then bySignature else byTimeout
  }

  datatype DeliveryResult = DeliveryResult(records: Records, lifecycle: Lifecycle, response: Response,
        terminalSent: bool)

  /** What becomes of an event whose id has just been reserved. */
  function AfterReserved(reserved: Records, lifecycle: Lifecycle, generation: nat, id: EventKey,
      answer: QueueAnswer): DeliveryResult {
    if lifecycle.active.None? || lifecycle.active.value.generation != generation then
      DeliveryResult(AfterRelease(reserved, id), lifecycle, NotAccepting, false)
    else
      match answer
      case Sent => DeliveryResult(AfterAccept(reserved, id), lifecycle, AckDelivered(id), false)
      case AdapterMismatch =>
        DeliveryResult(AfterRelease(reserved, id),
              lifecycle.(active := Some(lifecycle.active.value.(terminal := false))),
                       IdentityInvalid, lifecycle.active.value.terminal)
      case _ => DeliveryResult(AfterRelease(reserved, id), lifecycle, QueueUnavailable, false)
  }

  /** The critical section that reserves, sends and accepts or releases, with the record lock held throughout. */
  function AfterDelivery(records: Records, lifecycle: Lifecycle, generation: nat, id: EventKey, expiresAt: U64,
      now: U64, answer: QueueAnswer): DeliveryResult {
    var (reserved, reservation) := AfterReserve(records, id, expiresAt, now);
    match reservation
    case Duplicate(Accepted) => DeliveryResult(reserved, lifecycle, AckDuplicate(id), false)
    case Duplicate(Pending) => DeliveryResult(reserved, lifecycle, StillPending, false)
    case Saturated => DeliveryResult(reserved, lifecycle, CapacityExhausted, false)
    case New => AfterReserved(reserved, lifecycle, generation, id, answer)
  }

  function AfterStartRun(lifecycle: Lifecycle): Lifecycle
    requires lifecycle.active.None?
  {
    var generation := lifecycle.nextGeneration + 1;
    Lifecycle(generation, Some(ActiveRun(generation, true)))
  }

  function AfterDropGuard(lifecycle: Lifecycle, generation: nat): Lifecycle {
    if lifecycle.active.Some? && lifecycle.active.value.generation == generation then lifecycle.(active := None)
    else lifecycle
  }
}
