/**
 Every interleaving of callback requests, runs and clocks on one webhook.

 Each request reads its own clock before it takes the record lock, so the clock values seen under the lock
 come in any order.  A request may be dropped at any point where it waits for the lock.
 */
module WebhookRuns {
  import opened Common
  import opened Webhook

  /** The identity a payload claims: no id, one that is blank or too long, or a usable one. */
  datatype EventId = NoId | UnusableId | Id(key: EventKey)

  datatype Mapping = Malformed | Unmapped | Mapped(eventId: EventId)

  datatype Callback = Callback(generation: nat, signedAt: U64, outerId: EventId, interaction: bool, mapping: Mapping)

  datatype Phase =
    | FirstLookup(id: EventKey)
    | SecondLookup(id: EventKey)
    | Reserving(id: EventKey)
    | Responded(response: Response)
    | Cancelled

  datatype Request = Request(callback: Callback, now: U64, phase: Phase)

  /** An event put on the runtime's queue.  `clocks` is how many clock values had been used under the lock by then. */
  datatype Delivery = Delivery(id: EventKey, expiresAt: U64, generation: nat, request: nat, clocks: nat)

  datatype System = System(
    records: Records,
    lifecycle: Lifecycle,
    requests: seq<Request>,
    deliveries: seq<Delivery>,
    clocks: seq<U64>,
    terminalErrors: seq<nat>)

  datatype Config = Config(tolerance: U64, requestTimeout: U64)

  datatype Action =
    | StartRun
    | DropGuard(generation: nat)
    | Arrive(callback: Callback, authenticatedAt: U64, now: U64)
    | Advance(i: nat, answer: QueueAnswer)
    | Cancel(i: nat)

  const INITIAL := System(map[], Lifecycle(0, None), [], [], [], [])

  /** A signature is accepted within the tolerance of the clock read by the authentication. */
  predicate Authenticates(config: Config, callback: Callback, clock: U64) {
    clock <= callback.signedAt + config.tolerance && callback.signedAt <= clock + config.tolerance
  }

  predicate Waiting(r: Request) {
    r.phase.FirstLookup? || r.phase.SecondLookup? || r.phase.Reserving?
  }

  predicate Enabled(sys: System, config: Config, a: Action) {
    match a
    case StartRun => sys.lifecycle.active.None?
    case DropGuard(_) => true
    case Arrive(callback, clock, _) => Authenticates(config, callback, clock)
    case Advance(i, _) => i < |sys.requests| && Waiting(sys.requests[i])
    case Cancel(i) => i < |sys.requests| && Waiting(sys.requests[i])
  }

  /** An unusable outer id is ignored for interactions and refused otherwise. */
  function Arrived(callback: Callback): Phase {
    match callback.outerId
    case Id(key) => FirstLookup(key)
    case NoId => AfterFirstLookup(callback)
    case UnusableId => if callback.interaction then AfterFirstLookup(callback) else Responded(BadRequest)
  }

  function AfterFirstLookup(callback: Callback): Phase {
    match callback.mapping
    case Malformed => Responded(AckMalformed)
    case Unmapped => Responded(AckUnmapped)
    case Mapped(eventId) =>
      if callback.outerId.Id? then Reserving(callback.outerId.key)
      else if eventId.Id? then SecondLookup(eventId.key)
      else Responded(BadRequest)
  }

  function AfterFound(found: Option<SeenState>, id: EventKey, otherwise: Phase): Phase {
    match found
    case Some(Accepted) => Responded(AckDuplicate(id))
    case Some(Pending) => Responded(StillPending)
    case None => otherwise
  }

  function Expiry(config: Config, r: Request): U64 {
    ExpiresAt(r.callback.signedAt, config.tolerance, r.now, config.requestTimeout)
  }

  function LookedUp(sys: System, i: nat, id: EventKey, otherwise: Phase): System
    requires i < |sys.requests|
  {
    var r := sys.requests[i];
    var (records, found) := AfterLookup(sys.records, id, r.now);
    sys.(records := records, requests := sys.requests[i := r.(phase := AfterFound(found, id, otherwise))],
          clocks := sys.clocks + [r.now])
  }

  function Delivered(sys: System, config: Config, i: nat, id: EventKey, answer: QueueAnswer): System
    requires i < |sys.requests|
  {
    var r := sys.requests[i];
    var d := AfterDelivery(sys.records, sys.lifecycle, r.callback.generation, id, Expiry(config, r), r.now, answer);
    var clocks := sys.clocks + [r.now];
    System(d.records, d.lifecycle, sys.requests[i := r.(phase := Responded(d.response))],
           if d.response.AckDelivered? then
             sys.deliveries + [Delivery(id, Expiry(config, r), r.callback.generation, i, |clocks|)]
           else sys.deliveries,
           clocks,
           if d.terminalSent then sys.terminalErrors + [r.callback.generation] else sys.terminalErrors)
  }

  function AfterAdvance(sys: System, config: Config, i: nat, answer: QueueAnswer): System
    requires i < |sys.requests|
  {
    match sys.requests[i].phase
    case FirstLookup(id) => LookedUp(sys, i, id, AfterFirstLookup(sys.requests[i].callback))
    case SecondLookup(id) => LookedUp(sys, i, id, Reserving(id))
    case Reserving(id) => Delivered(sys, config, i, id, answer)
    case _ => sys
  }

  function Step(sys: System, config: Config, a: Action): System
    requires Enabled(sys, config, a)
  {
    match a
    case StartRun => sys.(lifecycle := AfterStartRun(sys.lifecycle))
    case DropGuard(generation) => sys.(lifecycle := AfterDropGuard(sys.lifecycle, generation))
    case Arrive(callback, _, now) => sys.(requests := sys.requests + [Request(callback, now, Arrived(callback))])
    case Cancel(i) => sys.(requests := sys.requests[i := sys.requests[i].(phase := Cancelled)])
    case Advance(i, answer) => AfterAdvance(sys, config, i, answer)
  }

  ghost predicate Run(config: Config, states: seq<System>, actions: seq<Action>) {
    && |states| == |actions| + 1
    && states[0] == INITIAL
    && forall n :: 0 <= n < |actions| ==>
         Enabled(states[n], config, actions[n]) && states[n + 1] == Step(states[n], config, actions[n])
  }

  // ----- the invariant -----

  /** After the delivery, some request used a clock past its expiry under the lock. */
  ghost predicate ReadPast(clocks: seq<U64>, d: Delivery) {
    exists q :: d.clocks <= q < |clocks| && clocks[q] > d.expiresAt
  }

  predicate Remembered(records: Records, d: Delivery) {
    d.id in records && records[d.id] == SeenRecord(Accepted, d.expiresAt)
  }

  ghost predicate WasDelivered(sys: System, id: EventKey) {
    exists k :: 0 <= k < |sys.deliveries| && sys.deliveries[k].id == id
  }

  ghost predicate RecordsSettled(records: Records) {
    |records| <= MAX_SEEN_EVENTS && forall id :: id in records ==> records[id].state == Accepted
  }

  ghost predicate DeliveriesRemembered(sys: System) {
    forall k :: 0 <= k < |sys.deliveries| ==>
      sys.deliveries[k].clocks <= |sys.clocks|
            && (Remembered(sys.records, sys.deliveries[k]) || ReadPast(sys.clocks, sys.deliveries[k]))
  }

  /** Two deliveries of one id are separated by a clock past the expiry of the first. */
  ghost predicate RepeatsAreExpired(sys: System) {
    forall j, k :: 0 <= j < k < |sys.deliveries| && sys.deliveries[j].id == sys.deliveries[k].id ==>
      sys.deliveries[k].clocks <= |sys.clocks| && ReadPast(sys.clocks[..sys.deliveries[k].clocks], sys.deliveries[j])
  }

  ghost predicate DeliveredByRequest(sys: System, config: Config, d: Delivery) {
    && d.request < |sys.requests|
    && sys.requests[d.request].phase == Responded(AckDelivered(d.id))
    && sys.requests[d.request].callback.generation == d.generation
    && d.expiresAt == Expiry(config, sys.requests[d.request])
  }

  ghost predicate AllByRequest(sys: System, config: Config) {
    forall k :: 0 <= k < |sys.deliveries| ==> DeliveredByRequest(sys, config, sys.deliveries[k])
  }

  predicate IsDelivery(d: Delivery, id: EventKey, request: nat) {
    d.id == id && d.request == request
  }

  ghost predicate DeliveredBy(sys: System, id: EventKey, request: nat) {
    exists k :: 0 <= k < |sys.deliveries| && IsDelivery(sys.deliveries[k], id, request)
  }

  /** What request i was told is true. */
  ghost predicate ToldTheTruth(sys: System, response: Response, i: nat) {
    match response
    case AckDelivered(id) => DeliveredBy(sys, id, i)
    case AckDuplicate(id) => WasDelivered(sys, id)
    case _ => true
  }

  ghost predicate Acknowledged(sys: System) {
    && (forall id :: id in sys.records ==> WasDelivered(sys, id))
    && (forall i :: 0 <= i < |sys.requests| && sys.requests[i].phase.Responded? ==>
          ToldTheTruth(sys, sys.requests[i].phase.response, i))
  }

  ghost predicate TerminalOnce(sys: System) {
    && (forall i :: 0 <= i < |sys.terminalErrors| ==> sys.terminalErrors[i] <= sys.lifecycle.nextGeneration)
    && (forall i, j :: 0 <= i < j < |sys.terminalErrors| ==> sys.terminalErrors[i] != sys.terminalErrors[j])
    && (sys.lifecycle.active.Some? ==>
          && sys.lifecycle.active.value.generation == sys.lifecycle.nextGeneration
          && (sys.lifecycle.active.value.terminal ==> sys.lifecycle.nextGeneration !in sys.terminalErrors))
  }

  ghost predicate Valid(sys: System, config: Config) {
    && RecordsSettled(sys.records)
    && DeliveriesRemembered(sys)
    && RepeatsAreExpired(sys)
    && AllByRequest(sys, config)
    && Acknowledged(sys)
    && TerminalOnce(sys)
  }

  // ----- record lemmas -----

  /** A lookup forgets at most its own id, and only with a clock past its expiry. */
  lemma LookupEffect(records: Records, id: EventKey, now: U64)
    requires RecordsSettled(records)
    ensures var (after, found) := AfterLookup(records, id, now);
            && RecordsSettled(after) && after.Keys <= records.Keys
            && (forall k :: k in after ==> after[k] == records[k])
            && (forall k :: k in records && k !in after ==> records[k].expiresAt < now)
            && (found.Some? ==> found.value == Accepted && id in records)
  {
    var after := AfterLookup(records, id, now).0;
    if after != records {
      assert records.Keys == after.Keys + {id};
    }
  }

  lemma UnexpiredFits(records: Records, now: U64)
    ensures |Unexpired(records, now)| <= |records|
  {
    var kept := Unexpired(records, now);
    assert kept.Keys <= records.Keys;
    SubsetIsNoLarger(kept.Keys, records.Keys);
  }

  lemma OthersEffect(records: Records, id: EventKey, now: U64)
    requires RecordsSettled(records)
    ensures var kept := Others(records, id, now);
            && RecordsSettled(kept) && id !in kept
            && (forall k :: k in kept ==> k in records && kept[k] == records[k])
            && (forall k :: k in records && k != id && k !in kept ==> records[k].expiresAt < now)
  {
    var others := records - {id};
    assert others.Keys <= records.Keys;
    SubsetIsNoLarger(others.Keys, records.Keys);
    UnexpiredFits(others, now);
  }

  predicate Live(records: Records, id: EventKey, now: U64) {
    id in records && records[id].expiresAt >= now
  }

  lemma ReservedShape(kept: Records, lifecycle: Lifecycle, generation: nat, id: EventKey, expiresAt: U64,
      answer: QueueAnswer)
    requires id !in kept
    ensures var d := AfterReserved(kept[id := SeenRecord(Pending, expiresAt)], lifecycle, generation, id, answer);
            && d.records == (if d.response.AckDelivered? then kept[id := SeenRecord(Accepted, expiresAt)] else kept)
            && !d.response.AckDuplicate? && !d.response.StillPending?
            && (d.response.AckDelivered? ==> d.response.id == id)
  {
    var reserved := kept[id := SeenRecord(Pending, expiresAt)];
    assert AfterRelease(reserved, id) == reserved - {id} == kept;
    assert AfterAccept(reserved, id) == kept[id := SeenRecord(Accepted, expiresAt)];
  }

  /** A delivery attempt for an id that is not remembered: it ends with the id accepted when the event was sent
      into the request's own run, and with the id free for a retry otherwise. */
  lemma AttemptShape(records: Records, lifecycle: Lifecycle, generation: nat, id: EventKey, expiresAt: U64, now: U64,
      answer: QueueAnswer)
    requires !Live(records, id, now) && id !in Others(records, id, now)
    ensures var d := AfterDelivery(records, lifecycle, generation, id, expiresAt, now, answer);
            var kept := Others(records, id, now);
            && d.records == (if d.response.AckDelivered? then kept[id := SeenRecord(Accepted, expiresAt)] else kept)
            && !d.response.AckDuplicate? && !d.response.StillPending?
            && (d.response.AckDelivered? ==> d.response.id == id && |kept| < MAX_SEEN_EVENTS)
  {
    var kept := Others(records, id, now);
    ReservedShape(kept, lifecycle, generation, id, expiresAt, answer);
  }

  /** Exactly when an attempt puts the event on the queue: the id is not remembered, there is room to remember
      it, the request belongs to the active run, and the queue takes it. */
  lemma DeliveredExactlyWhen(records: Records, lifecycle: Lifecycle, generation: nat, id: EventKey, expiresAt: U64,
      now: U64, answer: QueueAnswer)
    ensures AfterDelivery(records, lifecycle, generation, id, expiresAt, now, answer).response.AckDelivered? <==>
              && !Live(records, id, now) && |Others(records, id, now)| < MAX_SEEN_EVENTS
              && lifecycle.active.Some? && lifecycle.active.value.generation == generation && answer.Sent?
  {
  }

  /** Other ids keep their records, and only records the clock has passed are forgotten. */
  ghost predicate ForgetsOnlyExpired(records: Records, after: Records, id: EventKey, now: U64) {
    && (forall k :: k in after && k != id ==> k in records && after[k] == records[k])
    && (forall k :: k in records && k !in after ==> records[k].expiresAt < now)
  }

  /** What a delivery attempt leaves behind; no id is left pending. */
  ghost predicate AttemptSound(records: Records, id: EventKey, expiresAt: U64, now: U64, d: DeliveryResult) {
    && RecordsSettled(d.records)
    && ForgetsOnlyExpired(records, d.records, id, now)
    && (match d.response
        case AckDelivered(i) =>
          i == id && Get(d.records, id) == Some(SeenRecord(Accepted, expiresAt))
                && (id in records ==> records[id].expiresAt < now)
        case AckDuplicate(i) => i == id && id in records && d.records == records
        case StillPending => false
        case _ => id !in d.records)
  }

  lemma NotedIsSettled(kept: Records, id: EventKey, expiresAt: U64)
    requires RecordsSettled(kept) && |kept| < MAX_SEEN_EVENTS
    ensures RecordsSettled(kept[id := SeenRecord(Accepted, expiresAt)])
  {
    assert kept[id := SeenRecord(Accepted, expiresAt)].Keys == kept.Keys + {id};
  }

  lemma NoteAccepted(records: Records, kept: Records, id: EventKey, expiresAt: U64, now: U64)
    requires RecordsSettled(kept) && |kept| < MAX_SEEN_EVENTS && id !in kept && !Live(records, id, now)
    requires ForgetsOnlyExpired(records, kept, id, now)
    ensures RecordsSettled(kept[id := SeenRecord(Accepted, expiresAt)])
    ensures ForgetsOnlyExpired(records, kept[id := SeenRecord(Accepted, expiresAt)], id, now)
  {
    var noted := kept[id := SeenRecord(Accepted, expiresAt)];
    NotedIsSettled(kept, id, expiresAt);
    forall k | k in records && k !in noted ensures records[k].expiresAt < now {
      assert k !in kept;
    }
  }

  lemma AttemptIsSound(records: Records, lifecycle: Lifecycle, generation: nat, id: EventKey, expiresAt: U64, now: U64,
      answer: QueueAnswer)
    requires RecordsSettled(records)
    ensures AttemptSound(records, id, expiresAt, now,
            AfterDelivery(records, lifecycle, generation, id, expiresAt, now, answer))
  {
    var d := AfterDelivery(records, lifecycle, generation, id, expiresAt, now, answer);
    if Live(records, id, now) {
      assert d == DeliveryResult(records, lifecycle, AckDuplicate(id), false);
    } else {
      OthersEffect(records, id, now);
      AttemptShape(records, lifecycle, generation, id, expiresAt, now, answer);
      if d.response.AckDelivered? {
        NoteAccepted(records, Others(records, id, now), id, expiresAt, now);
      }
    }
  }

  // ----- every step keeps the invariant -----

  lemma ReadPastGrows(clocks: seq<U64>, more: seq<U64>, d: Delivery)
    requires clocks <= more && ReadPast(clocks, d)
    ensures ReadPast(more, d)
  {
    var q :| d.clocks <= q < |clocks| && clocks[q] > d.expiresAt;
    assert more[q] == clocks[q];
  }

  /** A step that uses a clock and forgets only what that clock has passed keeps every delivery remembered. */
  lemma StillRemembered(sys: System, records: Records, now: U64, d: Delivery)
    requires d.clocks <= |sys.clocks| && (Remembered(sys.records, d) || ReadPast(sys.clocks, d))
    requires Remembered(sys.records, d) ==> Remembered(records, d) || d.expiresAt < now
    ensures Remembered(records, d) || ReadPast(sys.clocks + [now], d)
  {
    var more := sys.clocks + [now];
    if ReadPast(sys.clocks, d) {
      ReadPastGrows(sys.clocks, more, d);
    } else if !Remembered(records, d) {
      assert more[|sys.clocks|] == now;
    }
  }

  lemma RepeatsStayExpired(sys: System, sys': System)
    requires RepeatsAreExpired(sys) && sys'.deliveries == sys.deliveries && sys.clocks <= sys'.clocks
    ensures RepeatsAreExpired(sys')
  {
    forall j, k | 0 <= j < k < |sys'.deliveries| && sys'.deliveries[j].id == sys'.deliveries[k].id
      ensures sys'.deliveries[k].clocks <= |sys'.clocks|
      ensures ReadPast(sys'.clocks[..sys'.deliveries[k].clocks], sys'.deliveries[j])
    {
      assert sys'.clocks[..sys.deliveries[k].clocks] == sys.clocks[..sys.deliveries[k].clocks];
    }
  }

  /** What is left to show for a step of request i that responds otherwise than with a delivery. */
  lemma QuietStepKeepsValid(sys: System, sys': System, config: Config, i: nat)
    requires Valid(sys, config) && i < |sys.requests| && Waiting(sys.requests[i])
    requires sys'.deliveries == sys.deliveries && RecordsSettled(sys'.records) && DeliveriesRemembered(sys')
    requires sys.clocks <= sys'.clocks
    requires sys'.records.Keys <= sys.records.Keys
    requires |sys'.requests| == |sys.requests|
    requires forall j :: 0 <= j < |sys.requests| && j != i ==> sys'.requests[j] == sys.requests[j]
    requires sys'.requests[i].phase.Responded? ==> !sys'.requests[i].phase.response.AckDelivered?
    requires sys'.requests[i].phase.Responded? && sys'.requests[i].phase.response.AckDuplicate? ==>
               sys'.requests[i].phase.response.id in sys.records
    requires TerminalOnce(sys')
    ensures Valid(sys', config)
  {
    RepeatsStayExpired(sys, sys');
    DeliveriesStayByRequest(sys, sys', config, i);
    QuietStepIsAcknowledged(sys, sys', i);
  }

  lemma DeliveriesStayByRequest(sys: System, sys': System, config: Config, i: nat)
    requires AllByRequest(sys, config) && i < |sys.requests| == |sys'.requests| && Waiting(sys.requests[i])
    requires sys'.deliveries == sys.deliveries
    requires forall j :: 0 <= j < |sys.requests| && j != i ==> sys'.requests[j] == sys.requests[j]
    ensures AllByRequest(sys', config)
  {
    forall k | 0 <= k < |sys'.deliveries| ensures DeliveredByRequest(sys', config, sys'.deliveries[k]) {
      assert DeliveredByRequest(sys, config, sys.deliveries[k]);
    }
  }

  lemma QuietStepIsAcknowledged(sys: System, sys': System, i: nat)
    requires Acknowledged(sys) && i < |sys.requests| == |sys'.requests| && sys'.deliveries == sys.deliveries
    requires sys'.records.Keys <= sys.records.Keys
    requires forall j :: 0 <= j < |sys.requests| && j != i ==> sys'.requests[j] == sys.requests[j]
    requires sys'.requests[i].phase.Responded? ==> !sys'.requests[i].phase.response.AckDelivered?
    requires sys'.requests[i].phase.Responded? && sys'.requests[i].phase.response.AckDuplicate? ==>
               sys'.requests[i].phase.response.id in sys.records
    ensures Acknowledged(sys')
  {
    AcknowledgementsStay(sys, sys');
    forall j | 0 <= j < |sys'.requests| && sys'.requests[j].phase.Responded?
      ensures ToldTheTruth(sys', sys'.requests[j].phase.response, j)
    {
      if j == i && sys'.requests[i].phase.response.AckDuplicate? {
        assert WasDelivered(sys, sys'.requests[i].phase.response.id);
      } else if j != i {
        assert ToldTheTruth(sys', sys.requests[j].phase.response, j);
      }
    }
    forall id | id in sys'.records ensures WasDelivered(sys', id) {
      assert id in sys.records;
    }
  }

  lemma AcknowledgementsStay(sys: System, sys': System)
    requires Acknowledged(sys) && sys.deliveries <= sys'.deliveries
    ensures forall id :: WasDelivered(sys, id) ==> WasDelivered(sys', id)
    ensures forall i :: 0 <= i < |sys.requests| && sys.requests[i].phase.Responded? ==>
              ToldTheTruth(sys', sys.requests[i].phase.response, i)
  {
    forall id | WasDelivered(sys, id) ensures WasDelivered(sys', id) {
      var k :| 0 <= k < |sys.deliveries| && sys.deliveries[k].id == id;
      assert sys'.deliveries[k] == sys.deliveries[k];
    }
    forall id, i: nat | DeliveredBy(sys, id, i) ensures DeliveredBy(sys', id, i) {
      var k :| 0 <= k < |sys.deliveries| && IsDelivery(sys.deliveries[k], id, i);
      assert sys'.deliveries[k] == sys.deliveries[k];
    }
    forall i | 0 <= i < |sys.requests| && sys.requests[i].phase.Responded?
      ensures ToldTheTruth(sys', sys.requests[i].phase.response, i)
    {
      assert ToldTheTruth(sys, sys.requests[i].phase.response, i);
    }
  }

  lemma LookupKeepsValid(sys: System, config: Config, i: nat, id: EventKey, otherwise: Phase)
    requires Valid(sys, config) && i < |sys.requests| && Waiting(sys.requests[i])
    requires otherwise.Responded? ==> !otherwise.response.AckDelivered? && !otherwise.response.AckDuplicate?
    ensures Valid(LookedUp(sys, i, id, otherwise), config)
  {
    var sys', now := LookedUp(sys, i, id, otherwise), sys.requests[i].now;
    LookupEffect(sys.records, id, now);
    forall k | 0 <= k < |sys'.deliveries|
      ensures Remembered(sys'.records, sys'.deliveries[k]) || ReadPast(sys'.clocks, sys'.deliveries[k])
    {
      StillRemembered(sys, sys'.records, now, sys.deliveries[k]);
    }
    QuietStepKeepsValid(sys, sys', config, i);
  }

  lemma SoundAttemptRemembers(records: Records, id: EventKey, expiresAt: U64, now: U64, result: DeliveryResult,
      d: Delivery)
    requires AttemptSound(records, id, expiresAt, now, result) && Remembered(records, d)
    ensures Remembered(result.records, d) || d.expiresAt < now
  {
  }

  lemma AttemptRemembers(sys: System, config: Config, i: nat, id: EventKey, answer: QueueAnswer)
    requires RecordsSettled(sys.records) && DeliveriesRemembered(sys) && i < |sys.requests|
    ensures RecordsSettled(Delivered(sys, config, i, id, answer).records)
    ensures DeliveriesRemembered(Delivered(sys, config, i, id, answer))
  {
    var r, sys' := sys.requests[i], Delivered(sys, config, i, id, answer);
    var d := AfterDelivery(sys.records, sys.lifecycle, r.callback.generation, id, Expiry(config, r), r.now, answer);
    AttemptIsSound(sys.records, sys.lifecycle, r.callback.generation, id, Expiry(config, r), r.now, answer);
    assert sys'.records == d.records;
    forall k | 0 <= k < |sys.deliveries|
      ensures Remembered(sys'.records, sys.deliveries[k]) || ReadPast(sys'.clocks, sys.deliveries[k])
    {
      if Remembered(sys.records, sys.deliveries[k]) {
        SoundAttemptRemembers(sys.records, id, Expiry(config, r), r.now, d, sys.deliveries[k]);
      }
      StillRemembered(sys, sys'.records, r.now, sys.deliveries[k]);
    }
  }

  /** An attempt leaves the run as it is, or uses up its one chance to be told of a terminal error. */
  lemma AttemptOnRun(records: Records, lifecycle: Lifecycle, generation: nat, id: EventKey, expiresAt: U64, now: U64,
      answer: QueueAnswer)
    ensures var d := AfterDelivery(records, lifecycle, generation, id, expiresAt, now, answer);
            && d.lifecycle.nextGeneration == lifecycle.nextGeneration
            && d.lifecycle.active.Some? == lifecycle.active.Some?
            && (d.lifecycle.active.Some? ==>
                  && d.lifecycle.active.value.generation == lifecycle.active.value.generation
                  && (d.lifecycle.active.value.terminal ==> lifecycle.active.value.terminal && !d.terminalSent))
            && (d.terminalSent ==> lifecycle.active.Some? && lifecycle.active.value == ActiveRun(generation, true))
  {
  }

  lemma AttemptKeepsTerminalOnce(sys: System, config: Config, i: nat, id: EventKey, answer: QueueAnswer)
    requires TerminalOnce(sys) && i < |sys.requests|
    ensures TerminalOnce(Delivered(sys, config, i, id, answer))
  {
    var r := sys.requests[i];
    AttemptOnRun(sys.records, sys.lifecycle, r.callback.generation, id, Expiry(config, r), r.now, answer);
  }

  /** A new delivery of an id delivered before has just used a clock past the expiry, or somebody did before. */
  lemma NewRepeatIsExpired(sys: System, sys': System, now: U64, d: Delivery)
    requires DeliveriesRemembered(sys) && RepeatsAreExpired(sys)
    requires sys'.deliveries == sys.deliveries + [d] && sys'.clocks == sys.clocks + [now] && d.clocks == |sys'.clocks|
    requires d.id in sys.records ==> sys.records[d.id].expiresAt < now
    ensures RepeatsAreExpired(sys')
  {
    var n := |sys.deliveries|;
    forall j, k | 0 <= j < k <= n && sys'.deliveries[j].id == sys'.deliveries[k].id
      ensures sys'.deliveries[k].clocks <= |sys'.clocks|
      ensures ReadPast(sys'.clocks[..sys'.deliveries[k].clocks], sys'.deliveries[j])
    {
      if k < n {
        assert sys'.clocks[..sys.deliveries[k].clocks] == sys.clocks[..sys.deliveries[k].clocks];
      } else {
        assert sys'.clocks[..|sys'.clocks|] == sys'.clocks;
        StillRemembered(sys, map[], now, sys.deliveries[j]);
      }
    }
  }

  lemma NewDeliveryIsAcknowledged(sys: System, sys': System, i: nat, d: Delivery)
    requires Acknowledged(sys) && i < |sys.requests|
    requires sys'.deliveries == sys.deliveries + [d] && d.request == i
    requires sys'.requests == sys.requests[i := sys.requests[i].(phase := Responded(AckDelivered(d.id)))]
    requires forall k :: k in sys'.records && k != d.id ==> k in sys.records
    ensures Acknowledged(sys')
  {
    AcknowledgementsStay(sys, sys');
    assert sys'.deliveries[|sys.deliveries|] == d;
    forall k | k in sys'.records ensures WasDelivered(sys', k) {
      if k != d.id {
        assert WasDelivered(sys, k);
      }
    }
  }

  lemma NewDeliveryIsByRequest(sys: System, sys': System, config: Config, i: nat, d: Delivery)
    requires forall k :: 0 <= k < |sys.deliveries| ==> DeliveredByRequest(sys, config, sys.deliveries[k])
    requires i < |sys.requests| && Waiting(sys.requests[i]) && sys'.deliveries == sys.deliveries + [d]
    requires sys'.requests == sys.requests[i := sys.requests[i].(phase := Responded(AckDelivered(d.id)))]
    requires d.request == i && d.generation == sys.requests[i].callback.generation
    requires d.expiresAt == Expiry(config, sys.requests[i])
    ensures forall k :: 0 <= k < |sys'.deliveries| ==> DeliveredByRequest(sys', config, sys'.deliveries[k])
  {
    forall k | 0 <= k < |sys'.deliveries| ensures DeliveredByRequest(sys', config, sys'.deliveries[k]) {
      if k < |sys.deliveries| {
        assert DeliveredByRequest(sys, config, sys.deliveries[k]);
      }
    }
  }

  lemma NewDeliveryKeepsValid(sys: System, config: Config, i: nat, id: EventKey, answer: QueueAnswer)
    requires Valid(sys, config) && i < |sys.requests| && sys.requests[i].phase == Reserving(id)
    requires Delivered(sys, config, i, id, answer).requests[i].phase.response.AckDelivered?
    ensures Valid(Delivered(sys, config, i, id, answer), config)
  {
    var r, sys' := sys.requests[i], Delivered(sys, config, i, id, answer);
    AttemptIsSound(sys.records, sys.lifecycle, r.callback.generation, id, Expiry(config, r), r.now, answer);
    AttemptRemembers(sys, config, i, id, answer);
    AttemptKeepsTerminalOnce(sys, config, i, id, answer);
    var d := Delivery(id, Expiry(config, r), r.callback.generation, i, |sys'.clocks|);
    NewRepeatIsExpired(sys, sys', r.now, d);
    NewDeliveryIsAcknowledged(sys, sys', i, d);
    NewDeliveryIsByRequest(sys, sys', config, i, d);
  }

  lemma AttemptKeepsValid(sys: System, config: Config, i: nat, id: EventKey, answer: QueueAnswer)
    requires Valid(sys, config) && i < |sys.requests| && sys.requests[i].phase == Reserving(id)
    ensures Valid(Delivered(sys, config, i, id, answer), config)
  {
    var r, sys' := sys.requests[i], Delivered(sys, config, i, id, answer);
    if sys'.requests[i].phase.response.AckDelivered? {
      NewDeliveryKeepsValid(sys, config, i, id, answer);
    } else {
      AttemptRemembers(sys, config, i, id, answer);
      AttemptKeepsTerminalOnce(sys, config, i, id, answer);
      AttemptIsSound(sys.records, sys.lifecycle, r.callback.generation, id, Expiry(config, r), r.now, answer);
      QuietStepKeepsValid(sys, sys', config, i);
    }
  }

  lemma LifecycleStepKeepsValid(sys: System, config: Config, lifecycle: Lifecycle)
    requires Valid(sys, config) && TerminalOnce(sys.(lifecycle := lifecycle))
    ensures Valid(sys.(lifecycle := lifecycle), config)
  {
    var sys' := sys.(lifecycle := lifecycle);
    AcknowledgementsStay(sys, sys');
    forall k | 0 <= k < |sys'.deliveries| ensures DeliveredByRequest(sys', config, sys'.deliveries[k]) {
      assert DeliveredByRequest(sys, config, sys.deliveries[k]);
    }
  }

  /** Everything but the requests is as before, and there is one more that has not been acknowledged. */
  predicate OneMoreRequest(sys: System, sys': System, r: Request) {
    && sys' == sys.(requests := sys.requests + [r])
    && (r.phase.Responded? ==> !r.phase.response.AckDelivered? && !r.phase.response.AckDuplicate?)
  }

  lemma OneMoreIsByRequest(sys: System, sys': System, config: Config, r: Request)
    requires AllByRequest(sys, config) && OneMoreRequest(sys, sys', r)
    ensures AllByRequest(sys', config)
  {
    forall k | 0 <= k < |sys'.deliveries| ensures DeliveredByRequest(sys', config, sys'.deliveries[k]) {
      assert DeliveredByRequest(sys, config, sys.deliveries[k]);
    }
  }

  lemma OneMoreIsAcknowledged(sys: System, sys': System, r: Request)
    requires Acknowledged(sys) && OneMoreRequest(sys, sys', r)
    ensures Acknowledged(sys')
  {
    AcknowledgementsStay(sys, sys');
    forall i | 0 <= i < |sys'.requests| && sys'.requests[i].phase.Responded?
      ensures ToldTheTruth(sys', sys'.requests[i].phase.response, i)
    {
      if i < |sys.requests| {
        assert ToldTheTruth(sys', sys.requests[i].phase.response, i);
      }
    }
    forall id | id in sys'.records ensures WasDelivered(sys', id) {
      assert WasDelivered(sys, id);
    }
  }

  lemma ArriveKeepsValid(sys: System, config: Config, callback: Callback, now: U64)
    requires Valid(sys, config)
    ensures Valid(sys.(requests := sys.requests + [Request(callback, now, Arrived(callback))]), config)
  {
    var r := Request(callback, now, Arrived(callback));
    var sys' := sys.(requests := sys.requests + [r]);
    ArrivesUnacknowledged(callback);
    OneMoreIsByRequest(sys, sys', config, r);
    OneMoreIsAcknowledged(sys, sys', r);
    OnlyRequestsMatter(sys, sys', config);
  }

  lemma ArrivesUnacknowledged(callback: Callback)
    ensures var phase := Arrived(callback);
            phase.Responded? ==> !phase.response.AckDelivered? && !phase.response.AckDuplicate?
  {
  }

  lemma OnlyRequestsMatter(sys: System, sys': System, config: Config)
    requires Valid(sys, config) && sys' == sys.(requests := sys'.requests)
    requires AllByRequest(sys', config) && Acknowledged(sys')
    ensures Valid(sys', config)
  {
    RepeatsStayExpired(sys, sys');
  }

  lemma CancelKeepsValid(sys: System, config: Config, i: nat)
    requires Valid(sys, config) && Enabled(sys, config, Cancel(i))
    ensures Valid(Step(sys, config, Cancel(i)), config)
  {
    QuietStepKeepsValid(sys, Step(sys, config, Cancel(i)), config, i);
  }

  lemma FirstLookupKeepsValid(sys: System, config: Config, i: nat, id: EventKey)
    requires Valid(sys, config) && i < |sys.requests| && sys.requests[i].phase == FirstLookup(id)
    ensures Valid(LookedUp(sys, i, id, AfterFirstLookup(sys.requests[i].callback)), config)
  {
    NothingMappedIsAcknowledged(sys.requests[i].callback);
    LookupKeepsValid(sys, config, i, id, AfterFirstLookup(sys.requests[i].callback));
  }

  lemma NothingMappedIsAcknowledged(callback: Callback)
    ensures var otherwise := AfterFirstLookup(callback);
            otherwise.Responded? ==> !otherwise.response.AckDelivered? && !otherwise.response.AckDuplicate?
  {
  }

  lemma SecondLookupKeepsValid(sys: System, config: Config, i: nat, id: EventKey)
    requires Valid(sys, config) && i < |sys.requests| && sys.requests[i].phase == SecondLookup(id)
    ensures Valid(LookedUp(sys, i, id, Reserving(id)), config)
  {
    LookupKeepsValid(sys, config, i, id, Reserving(id));
  }

  lemma AdvanceKeepsValid(sys: System, config: Config, i: nat, answer: QueueAnswer)
    requires Valid(sys, config) && i < |sys.requests| && Waiting(sys.requests[i])
    ensures Valid(AfterAdvance(sys, config, i, answer), config)
  {
    match sys.requests[i].phase
    case FirstLookup(id) => FirstLookupKeepsValid(sys, config, i, id);
    case SecondLookup(id) => SecondLookupKeepsValid(sys, config, i, id);
    case Reserving(id) => AttemptKeepsValid(sys, config, i, id, answer);
  }

  lemma StepKeepsValid(sys: System, config: Config, a: Action)
    requires Valid(sys, config) && Enabled(sys, config, a)
    ensures Valid(Step(sys, config, a), config)
  {
    match a
    case StartRun => LifecycleStepKeepsValid(sys, config, AfterStartRun(sys.lifecycle));
    case DropGuard(generation) => LifecycleStepKeepsValid(sys, config, AfterDropGuard(sys.lifecycle, generation));
    case Arrive(callback, _, now) => ArriveKeepsValid(sys, config, callback, now);
    case Cancel(i) => CancelKeepsValid(sys, config, i);
    case Advance(i, answer) => AdvanceKeepsValid(sys, config, i, answer);
  }

  lemma {:induction false} RunsAreValid(config: Config, states: seq<System>, actions: seq<Action>, n: nat)
    requires Run(config, states, actions) && n < |states|
    ensures Valid(states[n], config)
  {
    if n > 0 {
      RunsAreValid(config, states, actions, n - 1);
      StepKeepsValid(states[n - 1], config, actions[n - 1]);
    }
  }
}
