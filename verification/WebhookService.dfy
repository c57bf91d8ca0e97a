/** The webhook as the code updates it: the records of seen events, the lifecycle, and one method for each use of
    them. */
module WebhookService {
  import opened Common
  import opened Webhook
  import opened WebhookRuns

  class SeenEvents {
    var records: Records

    constructor ()
      ensures records == map[]
    {
      records := map[];
    }

    method Lookup(id: EventKey, now: U64) returns (found: Option<SeenState>)
      modifies this
      ensures (records, found) == AfterLookup(old(records), id, now)
      ensures old(RecordsSettled(records)) ==> RecordsSettled(records)
    {
      if RecordsSettled(records) {
        LookupEffect(records, id, now);
      }
      if id !in records {
        return None;
      }
      var record := records[id];
      if record.expiresAt < now {
        records := records - {id};
        return None;
      }
      return Some(record.state);
    }

    method Reserve(id: EventKey, expiresAt: U64, now: U64) returns (reservation: Reservation)
      modifies this
      ensures (records, reservation) == AfterReserve(old(records), id, expiresAt, now)
    {
      if id in records {
        if records[id].expiresAt >= now {
          return Duplicate(records[id].state);
        }
        records := records - {id};
      }
      assert records == old(records) - {id};
      if |records| >= MAX_SEEN_EVENTS {
        records := Unexpired(records, now);
        if |records| >= MAX_SEEN_EVENTS {
          return Saturated;
        }
      }
      records := records[id := SeenRecord(Pending, expiresAt)];
      return New;
    }

    method Accept(id: EventKey)
      modifies this
      ensures records == AfterAccept(old(records), id)
    {
      if id in records && records[id].state.Pending? {
        records := records[id := records[id].(state := Accepted)];
      }
    }

    method Release(id: EventKey)
      modifies this
      ensures records == AfterRelease(old(records), id)
    {
      if id in records && records[id].state == Pending {
        records := records - {id};
      }
    }
  }

  class WebhookState {
    const seen: SeenEvents
    var nextGeneration: nat
    var active: Option<ActiveRun>

    constructor ()
      ensures fresh(seen) && seen.records == map[] && Lifecycle(nextGeneration, active) == Lifecycle(0, None)
    {
      seen := new SeenEvents();
      nextGeneration, active := 0, None;
    }

    /** Refused while another run is active. */
    method StartRun() returns (generation: Option<nat>)
      modifies this
      ensures generation.None? <==> old(active).Some?
      ensures generation.None? ==> Lifecycle(nextGeneration, active) == old(Lifecycle(nextGeneration, active))
      ensures generation.Some? ==> generation.value == nextGeneration
      ensures generation.Some? ==>
                Lifecycle(nextGeneration, active) == AfterStartRun(old(Lifecycle(nextGeneration, active)))
    {
      if active.Some? {
        return None;
      }
      nextGeneration := nextGeneration + 1;
      active := Some(ActiveRun(nextGeneration, true));
      return Some(nextGeneration);
    }

    method DropRunGuard(generation: nat)
      modifies this
      ensures Lifecycle(nextGeneration, active) == AfterDropGuard(old(Lifecycle(nextGeneration, active)), generation)
      ensures active.Some? <==> old(active).Some? && old(active).value.generation != generation
      ensures active.Some? ==> active == old(active)
    {
      if active.Some? && active.value.generation == generation {
        active := None;
      }
    }

    method Deliver(generation: nat, id: EventKey, expiresAt: U64, now: U64, answer: QueueAnswer)
        returns (response: Response, terminalSent: bool)
      modifies this, seen
      ensures DeliveryResult(seen.records, Lifecycle(nextGeneration, active), response, terminalSent)
              == AfterDelivery(old(seen.records), old(Lifecycle(nextGeneration, active)), generation, id, expiresAt,
                 now, answer)
      ensures old(RecordsSettled(seen.records)) ==> RecordsSettled(seen.records)
    {
      if RecordsSettled(seen.records) {
        AttemptIsSound(seen.records, Lifecycle(nextGeneration, active), generation, id, expiresAt, now, answer);
      }
      terminalSent := false;
      var reservation := seen.Reserve(id, expiresAt, now);
      match reservation {
        case Duplicate(Accepted) => return AckDuplicate(id), false;
        case Duplicate(Pending) => return StillPending, false;
        case Saturated => return CapacityExhausted, false;
        case New =>
      }
      if active.None? || active.value.generation != generation {
        seen.Release(id);
        return NotAccepting, false;
      }
      if answer.AdapterMismatch? {
        terminalSent := active.value.terminal;
        active := Some(active.value.(terminal := false));
      }
      match answer {
        case Sent =>
          seen.Accept(id);
          response := AckDelivered(id);
        case AdapterMismatch =>
          seen.Release(id);
          response := IdentityInvalid;
        case _ =>
          seen.Release(id);
          response := QueueUnavailable;
      }
    }
  }
}
