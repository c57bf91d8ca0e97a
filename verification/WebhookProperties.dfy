/** What the webhook promises over whole runs. */
module WebhookProperties {
  import opened Common
  import opened Webhook
  import opened WebhookRuns

  // ----- at most once, until expiry -----

  /** Between two deliveries of one id somebody used a clock later than the expiry of the first, and that expiry
      is no earlier than the signature and the timeout of its request allow. */
  lemma AtMostOnceUntilExpiry(config: Config, states: seq<System>, actions: seq<Action>, n: nat, j: nat, k: nat)
    requires Run(config, states, actions) && n < |states|
    requires j < k < |states[n].deliveries| && states[n].deliveries[j].id == states[n].deliveries[k].id
    ensures var sys := states[n];
            exists q :: sys.deliveries[j].clocks <= q < sys.deliveries[k].clocks <= |sys.clocks|
                  && sys.clocks[q] > sys.deliveries[j].expiresAt
    ensures states[n].deliveries[j].request < |states[n].requests|
    ensures var first := states[n].requests[states[n].deliveries[j].request];
            && states[n].deliveries[j].expiresAt >= SaturatingAdd(first.callback.signedAt, config.tolerance)
            && states[n].deliveries[j].expiresAt >= SaturatingAdd(first.now, config.requestTimeout)
  {
    RunsAreValid(config, states, actions, n);
    var sys := states[n];
    assert DeliveredByRequest(sys, config, sys.deliveries[j]);
    var upTo := sys.clocks[..sys.deliveries[k].clocks];
    assert ReadPast(upTo, sys.deliveries[j]);
    var q :| sys.deliveries[j].clocks <= q < |upTo| && upTo[q] > sys.deliveries[j].expiresAt;
    assert sys.clocks[q] == upTo[q];
  }

  predicate AtId(r: Request, id: EventKey) {
    r.phase == FirstLookup(id) || r.phase == SecondLookup(id) || r.phase == Reserving(id)
  }

  /** A replay whose clock is inside the window is answered as a duplicate wherever it is, as long as nobody has
      used a clock past the window since the delivery. */
  lemma ReplayInsideWindow(config: Config, states: seq<System>, actions: seq<Action>, n: nat, k: nat, i: nat,
      answer: QueueAnswer)
    requires Run(config, states, actions) && n < |states|
    requires k < |states[n].deliveries| && !ReadPast(states[n].clocks, states[n].deliveries[k])
    requires i < |states[n].requests| && AtId(states[n].requests[i], states[n].deliveries[k].id)
    requires states[n].requests[i].now <= states[n].deliveries[k].expiresAt
    ensures var sys' := Step(states[n], config, Advance(i, answer));
            && sys'.requests[i].phase == Responded(AckDuplicate(states[n].deliveries[k].id))
            && sys'.deliveries == states[n].deliveries
  {
    RunsAreValid(config, states, actions, n);
    assert Remembered(states[n].records, states[n].deliveries[k]);
    RememberedIsDuplicate(states[n], config, states[n].deliveries[k], i, answer);
  }

  lemma RememberedIsDuplicate(sys: System, config: Config, d: Delivery, i: nat, answer: QueueAnswer)
    requires Remembered(sys.records, d) && i < |sys.requests| && AtId(sys.requests[i], d.id)
    requires sys.requests[i].now <= d.expiresAt
    ensures var sys' := Step(sys, config, Advance(i, answer));
            sys'.requests[i].phase == Responded(AckDuplicate(d.id)) && sys'.deliveries == sys.deliveries
  {
    match sys.requests[i].phase
    case FirstLookup(id) =>
      assert Step(sys, config, Advance(i, answer)) == LookedUp(sys, i, id, AfterFirstLookup(sys.requests[i].callback));
    case SecondLookup(id) =>
      assert Step(sys, config, Advance(i, answer)) == LookedUp(sys, i, id, Reserving(id));
    case Reserving(id) =>
      assert Step(sys, config, Advance(i, answer)) == Delivered(sys, config, i, id, answer);
  }

  lemma RoomForOwnId(records: Records, id: EventKey, now: U64)
    requires RecordsSettled(records) && id in records
    ensures |Others(records, id, now)| < MAX_SEEN_EVENTS
  {
    var others := records - {id};
    assert records.Keys == others.Keys + {id};
    UnexpiredFits(others, now);
  }

  /** After any earlier delivery of its id, an event is delivered again exactly when the id has no live record, there
      is room for one, the request belongs to the active run, and the queue takes the event.  And there is no live
      record only if the clock of this request is past the expiry of that delivery or, since that delivery, the
      clock of another request was. */
  lemma RedeliveredExactlyWhen(config: Config, states: seq<System>, actions: seq<Action>, n: nat, k: nat, i: nat,
      answer: QueueAnswer)
    requires Run(config, states, actions) && n < |states| && k < |states[n].deliveries| && i < |states[n].requests|
    requires states[n].requests[i].phase == Reserving(states[n].deliveries[k].id)
    ensures var sys, d, r := states[n], states[n].deliveries[k], states[n].requests[i];
            |Step(sys, config, Advance(i, answer)).deliveries| > |sys.deliveries| <==>
              && !Live(sys.records, d.id, r.now) && |Others(sys.records, d.id, r.now)| < MAX_SEEN_EVENTS && answer.Sent?
              && sys.lifecycle.active.Some? && sys.lifecycle.active.value.generation == r.callback.generation
    ensures var sys, d, r := states[n], states[n].deliveries[k], states[n].requests[i];
            if Remembered(sys.records, d) then Live(sys.records, d.id, r.now) <==> r.now <= d.expiresAt
            else ReadPast(sys.clocks, d)
    ensures Remembered(states[n].records, states[n].deliveries[k]) ==>
              |Others(states[n].records, states[n].deliveries[k].id, states[n].requests[i].now)| < MAX_SEEN_EVENTS
  {
    RunsAreValid(config, states, actions, n);
    var sys, d, r := states[n], states[n].deliveries[k], states[n].requests[i];
    DeliveredExactlyWhen(sys.records, sys.lifecycle, r.callback.generation, d.id, Expiry(config, r), r.now, answer);
    DeliveryCounts(sys, config, i, d.id, answer);
    if Remembered(sys.records, d) {
      RoomForOwnId(sys.records, d.id, r.now);
    }
  }

  lemma DeliveryCounts(sys: System, config: Config, i: nat, id: EventKey, answer: QueueAnswer)
    requires i < |sys.requests| && sys.requests[i].phase == Reserving(id)
    ensures var r := sys.requests[i];
            |Step(sys, config, Advance(i, answer)).deliveries| > |sys.deliveries| <==>
              AfterDelivery(sys.records, sys.lifecycle, r.callback.generation, id, Expiry(config, r), r.now,
                    answer).response.AckDelivered?
  {
    assert Step(sys, config, Advance(i, answer)) == Delivered(sys, config, i, id, answer);
  }

  /** The request looks up or reserves the id, or reserves another one for which it has to make room. */
  predicate Touches(records: Records, r: Request, id: EventKey) {
    match r.phase
    case FirstLookup(other) => other == id
    case SecondLookup(other) => other == id
    case Reserving(other) => other == id || (!Live(records, other, r.now) && |records - {other}| >= MAX_SEEN_EVENTS)
    case _ => false
  }

  /** A remembered delivery is forgotten, or replaced by a new one, exactly by a request that touches its record with
      a clock past its expiry. */
  lemma ForgottenExactlyWhen(sys: System, config: Config, a: Action, d: Delivery)
    requires RecordsSettled(sys.records) && Enabled(sys, config, a) && Remembered(sys.records, d)
    ensures !Remembered(Step(sys, config, a).records, d) <==>
              a.Advance? && sys.requests[a.i].now > d.expiresAt && Touches(sys.records, sys.requests[a.i], d.id)
  {
    if a.Advance? {
      var r := sys.requests[a.i];
      match r.phase
      case FirstLookup(id) =>
        assert Step(sys, config, a) == LookedUp(sys, a.i, id, AfterFirstLookup(r.callback));
      case SecondLookup(id) =>
        assert Step(sys, config, a) == LookedUp(sys, a.i, id, Reserving(id));
      case Reserving(id) =>
        assert Step(sys, config, a) == Delivered(sys, config, a.i, id, a.answer);
        AttemptForgets(sys.records, sys.lifecycle, r.callback.generation, id, Expiry(config, r), r.now, a.answer, d);
    }
  }

  lemma AttemptForgets(records: Records, lifecycle: Lifecycle, generation: nat, id: EventKey, expiresAt: U64, now: U64,
      answer: QueueAnswer, d: Delivery)
    requires RecordsSettled(records) && Remembered(records, d) && expiresAt >= now
    ensures var after := AfterDelivery(records, lifecycle, generation, id, expiresAt, now, answer).records;
            !Remembered(after, d) <==>
              now > d.expiresAt && (id == d.id || (!Live(records, id, now) && |records - {id}| >= MAX_SEEN_EVENTS))
  {
    if !Live(records, id, now) {
      OthersEffect(records, id, now);
      AttemptShape(records, lifecycle, generation, id, expiresAt, now, answer);
    }
  }

  /** With nothing remembered, an event for the active run that the queue takes is delivered and remembered. */
  lemma FirstDelivery(lifecycle: Lifecycle, generation: nat, id: EventKey, expiresAt: U64, now: U64)
    requires lifecycle.active.Some? && lifecycle.active.value.generation == generation
    ensures AfterDelivery(map[], lifecycle, generation, id, expiresAt, now, Sent)
            == DeliveryResult(map[id := SeenRecord(Accepted, expiresAt)], lifecycle, AckDelivered(id), false)
  {
    var none: Records := map[];
    assert none - {id} == none;
    assert AfterReserve(none, id, expiresAt, now) == (none[id := SeenRecord(Pending, expiresAt)], New);
  }

  const EDGE_CONFIG := Config(300, 10)
  const EDGE_KEY := EventKey("e")
  const EDGE_CALLBACK := Callback(1, 1000, Id(EDGE_KEY), false, Mapped(Id(EDGE_KEY)))
  const EDGE_RUN := Lifecycle(1, Some(ActiveRun(1, true)))

  /** One callback is delivered by the run and remembered until 1300. */
  const EDGE_DELIVERED := System(
    map[EDGE_KEY := SeenRecord(Accepted, 1300)], EDGE_RUN,
    [Request(EDGE_CALLBACK, 1000, Responded(AckDelivered(EDGE_KEY)))],
    [Delivery(EDGE_KEY, 1300, 1, 0, 2)], [1000, 1000], [])

  lemma EdgeFirstDelivery() returns (states: seq<System>, actions: seq<Action>)
    ensures Run(EDGE_CONFIG, states, actions)
    ensures actions == [StartRun, Arrive(EDGE_CALLBACK, 1000, 1000), Advance(0, Sent), Advance(0, Sent)]
    ensures states[4] == EDGE_DELIVERED
  {
    actions := [StartRun, Arrive(EDGE_CALLBACK, 1000, 1000), Advance(0, Sent), Advance(0, Sent)];
    var request := Request(EDGE_CALLBACK, 1000, Reserving(EDGE_KEY));
    var s1 := INITIAL.(lifecycle := EDGE_RUN);
    var s2 := s1.(requests := [request.(phase := FirstLookup(EDGE_KEY))]);
    var s3 := s2.(requests := [request], clocks := [1000]);
    FirstDelivery(EDGE_RUN, 1, EDGE_KEY, 1300, 1000);
    assert Delivered(s3, EDGE_CONFIG, 0, EDGE_KEY, Sent) == EDGE_DELIVERED;
    states := [INITIAL, s1, s2, s3, EDGE_DELIVERED];
  }

  /** Authentication alone does not rule a replay out: its clock can be the last one inside the window and the
      clock of the dispatch the first one outside, and then the event is delivered twice. */
  lemma ReplayAtTheEdge() returns (states: seq<System>, actions: seq<Action>)
    ensures Run(EDGE_CONFIG, states, actions) && |actions| == 7
    ensures actions[1] == Arrive(EDGE_CALLBACK, 1000, 1000) && actions[4] == Arrive(EDGE_CALLBACK, 1300, 1301)
    ensures |states[7].deliveries| == 2 && states[7].deliveries[0].id == states[7].deliveries[1].id
  {
    states, actions := EdgeFirstDelivery();
    var s5 := Step(EDGE_DELIVERED, EDGE_CONFIG, Arrive(EDGE_CALLBACK, 1300, 1301));
    states, actions := RunOn(EDGE_CONFIG, states, actions, Arrive(EDGE_CALLBACK, 1300, 1301));
    var s6 := LookedUp(s5, 1, EDGE_KEY, Reserving(EDGE_KEY));
    states, actions := RunOn(EDGE_CONFIG, states, actions, Advance(1, Sent));
    assert states[6] == s6;
    assert s6.records == map[] && s6.requests[1] == Request(EDGE_CALLBACK, 1301, Reserving(EDGE_KEY));
    FirstDelivery(EDGE_RUN, 1, EDGE_KEY, 1311, 1301);
    states, actions := RunOn(EDGE_CONFIG, states, actions, Advance(1, Sent));
    assert states[7] == Delivered(s6, EDGE_CONFIG, 1, EDGE_KEY, Sent);
  }

  /** After the delivery, two requests with clocks 1301 and 1300 have looked the id up, and it is no longer
      remembered. */
  predicate BothLookedUp(sys: System) {
    && sys.records == map[] && sys.lifecycle == EDGE_RUN && sys.deliveries == EDGE_DELIVERED.deliveries
    && |sys.requests| == 3 && sys.requests[2] == Request(EDGE_CALLBACK, 1300, Reserving(EDGE_KEY))
  }

  lemma TwoReplays() returns (states: seq<System>, actions: seq<Action>)
    ensures Run(EDGE_CONFIG, states, actions) && |actions| == 6
    ensures actions[4] == Arrive(EDGE_CALLBACK, 1300, 1301) && actions[5] == Arrive(EDGE_CALLBACK, 1300, 1300)
    ensures states[6] == EDGE_DELIVERED.(requests := EDGE_DELIVERED.requests +
              [Request(EDGE_CALLBACK, 1301, FirstLookup(EDGE_KEY)),
                    Request(EDGE_CALLBACK, 1300, FirstLookup(EDGE_KEY))])
  {
    states, actions := EdgeFirstDelivery();
    states, actions := RunOn(EDGE_CONFIG, states, actions, Arrive(EDGE_CALLBACK, 1300, 1301));
    states, actions := RunOn(EDGE_CONFIG, states, actions, Arrive(EDGE_CALLBACK, 1300, 1300));
  }

  lemma LookupsForget(s6: System) returns (s7: System, s8: System)
    requires s6 == EDGE_DELIVERED.(requests := EDGE_DELIVERED.requests +
               [Request(EDGE_CALLBACK, 1301, FirstLookup(EDGE_KEY)),
                     Request(EDGE_CALLBACK, 1300, FirstLookup(EDGE_KEY))])
    ensures Enabled(s6, EDGE_CONFIG, Advance(1, Sent)) && s7 == Step(s6, EDGE_CONFIG, Advance(1, Sent))
    ensures Enabled(s7, EDGE_CONFIG, Advance(2, Sent)) && s8 == Step(s7, EDGE_CONFIG, Advance(2, Sent))
    ensures BothLookedUp(s8)
  {
    s7 := LookedUp(s6, 1, EDGE_KEY, Reserving(EDGE_KEY));
    assert s7.records == map[];
    s8 := LookedUp(s7, 2, EDGE_KEY, Reserving(EDGE_KEY));
  }

  /** Nor does a clock inside the window: when a concurrent request with a later clock has made the record go, a replay
      with an earlier clock is delivered. */
  lemma ReplayBehindALaterClock() returns (states: seq<System>, actions: seq<Action>)
    ensures Run(EDGE_CONFIG, states, actions) && |actions| == 9
    ensures actions[4] == Arrive(EDGE_CALLBACK, 1300, 1301) && actions[5] == Arrive(EDGE_CALLBACK, 1300, 1300)
    ensures |states[9].deliveries| == 2 && states[9].deliveries[0].id == states[9].deliveries[1].id
    ensures |states[9].requests| == 3 && states[9].deliveries[1].request == 2
    ensures states[9].requests[2].now <= states[9].deliveries[0].expiresAt
  {
    states, actions := TwoReplays();
    var s7, s8 := LookupsForget(states[6]);
    states, actions := RunOn(EDGE_CONFIG, states, actions, Advance(1, Sent));
    states, actions := RunOn(EDGE_CONFIG, states, actions, Advance(2, Sent));
    FirstDelivery(EDGE_RUN, 1, EDGE_KEY, 1310, 1300);
    states, actions := RunOn(EDGE_CONFIG, states, actions, Advance(2, Sent));
    assert states[9] == Delivered(s8, EDGE_CONFIG, 2, EDGE_KEY, Sent);
  }

  lemma RunOn(config: Config, states: seq<System>, actions: seq<Action>, a: Action) returns (states': seq<System>,
      actions': seq<Action>)
    requires Run(config, states, actions) && Enabled(states[|actions|], config, a)
    ensures Run(config, states', actions') && actions' == actions + [a] && states <= states'
    ensures states'[|actions'|] == Step(states[|actions|], config, a)
  {
    states', actions' := states + [Step(states[|actions|], config, a)], actions + [a];
  }

  // ----- acknowledgements -----

  /** The id a request asks for is the outer id of its callback, or failing that the mapped one. */
  predicate Claims(callback: Callback, id: EventKey) {
    callback.outerId == Id(id) || (!callback.outerId.Id? && callback.mapping == Mapped(Id(id)))
  }

  predicate PhaseFits(r: Request) {
    match r.phase
    case FirstLookup(id) => r.callback.outerId == Id(id)
    case SecondLookup(id) => Claims(r.callback, id) && r.callback.mapping.Mapped?
    case Reserving(id) => Claims(r.callback, id) && r.callback.mapping.Mapped?
    case Responded(AckDelivered(id)) => Claims(r.callback, id) && r.callback.mapping.Mapped?
    case Responded(AckDuplicate(id)) => Claims(r.callback, id)
    case Responded(AckUnmapped) => r.callback.mapping.Unmapped?
    case Responded(AckMalformed) => r.callback.mapping.Malformed?
    case Responded(StillPending) => false
    case _ => true
  }

  /** How an attempt answers: never with "still pending", and with success or duplicate only for its own id. */
  lemma AttemptAnswers(records: Records, lifecycle: Lifecycle, generation: nat, id: EventKey, expiresAt: U64, now: U64,
      answer: QueueAnswer)
    requires RecordsSettled(records)
    ensures var response := AfterDelivery(records, lifecycle, generation, id, expiresAt, now, answer).response;
            && !response.StillPending? && !response.AckUnmapped? && !response.AckMalformed?
            && (response.AckDelivered? || response.AckDuplicate? ==> response.id == id)
  {
  }

  lemma AdvanceFits(sys: System, config: Config, i: nat, answer: QueueAnswer)
    requires RecordsSettled(sys.records) && Enabled(sys, config, Advance(i, answer)) && PhaseFits(sys.requests[i])
    ensures PhaseFits(Step(sys, config, Advance(i, answer)).requests[i])
  {
    var r := sys.requests[i];
    match r.phase
    case FirstLookup(id) =>
      LookupEffect(sys.records, id, r.now);
      assert Step(sys, config, Advance(i, answer)) == LookedUp(sys, i, id, AfterFirstLookup(r.callback));
    case SecondLookup(id) =>
      LookupEffect(sys.records, id, r.now);
      assert Step(sys, config, Advance(i, answer)) == LookedUp(sys, i, id, Reserving(id));
    case Reserving(id) =>
      AttemptAnswers(sys.records, sys.lifecycle, r.callback.generation, id, Expiry(config, r), r.now, answer);
      assert Step(sys, config, Advance(i, answer)) == Delivered(sys, config, i, id, answer);
    case _ =>
  }

  lemma {:induction false} PhasesFit(config: Config, states: seq<System>, actions: seq<Action>, n: nat, i: nat)
    requires Run(config, states, actions) && n < |states| && i < |states[n].requests|
    ensures PhaseFits(states[n].requests[i])
  {
    if n > 0 {
      var sys, a := states[n - 1], actions[n - 1];
      if i < |sys.requests| {
        PhasesFit(config, states, actions, n - 1, i);
        if a.Advance? && a.i == i {
          RunsAreValid(config, states, actions, n - 1);
          AdvanceFits(sys, config, i, a.answer);
        }
      }
    }
  }

  /** Code 0 for a mapped event means that the event, under the id the callback claims, was put on the queue by
      this or by an earlier request; and nobody is ever told that an event is still being accepted. */
  lemma AcknowledgementsAreSound(config: Config, states: seq<System>, actions: seq<Action>, n: nat, i: nat)
    requires Run(config, states, actions) && n < |states| && i < |states[n].requests|
    requires states[n].requests[i].phase.Responded?
    ensures var r := states[n].requests[i];
            AckCode(r.phase.response) == Some(0) && r.callback.mapping.Mapped? ==>
              exists k :: 0 <= k < |states[n].deliveries| && Claims(r.callback, states[n].deliveries[k].id)
    ensures AckCode(states[n].requests[i].phase.response) == Some(1) ==>
              states[n].requests[i].callback.mapping.Malformed?
    ensures states[n].requests[i].phase.response != StillPending
  {
    RunsAreValid(config, states, actions, n);
    PhasesFit(config, states, actions, n, i);
    var r := states[n].requests[i];
    assert Acknowledged(states[n]);
    if AckCode(r.phase.response) == Some(0) && r.callback.mapping.Mapped? {
      var k :| 0 <= k < |states[n].deliveries| && states[n].deliveries[k].id == r.phase.response.id;
      assert Claims(r.callback, states[n].deliveries[k].id);
    }
  }

  /** Whenever the record lock is free no id is pending and there are at most 4096 records. */
  lemma RecordsAreSettled(config: Config, states: seq<System>, actions: seq<Action>, n: nat)
    requires Run(config, states, actions) && n < |states|
    ensures |states[n].records| <= MAX_SEEN_EVENTS
    ensures forall id :: id in states[n].records ==> states[n].records[id].state == Accepted
  {
    RunsAreValid(config, states, actions, n);
  }

  lemma AttemptFreesOrKeeps(records: Records, lifecycle: Lifecycle, generation: nat, id: EventKey, expiresAt: U64,
      now: U64, answer: QueueAnswer)
    requires RecordsSettled(records)
    ensures var d := AfterDelivery(records, lifecycle, generation, id, expiresAt, now, answer);
            id in d.records <==> AckCode(d.response) == Some(0)
  {
    OthersEffect(records, id, now);
    if !Live(records, id, now) {
      AttemptShape(records, lifecycle, generation, id, expiresAt, now, answer);
    }
    AttemptAnswers(records, lifecycle, generation, id, expiresAt, now, answer);
  }

  /** A delivery that fails for any reason leaves its id free for a retry, and only then is the id free. */
  lemma FailuresAreRetryable(sys: System, config: Config, i: nat, id: EventKey, answer: QueueAnswer)
    requires RecordsSettled(sys.records) && i < |sys.requests| && sys.requests[i].phase == Reserving(id)
    ensures var sys' := Step(sys, config, Advance(i, answer));
            && sys'.requests[i].phase.Responded?
            && (AckCode(sys'.requests[i].phase.response) == Some(0) <==> id in sys'.records)
            && (AckCode(sys'.requests[i].phase.response) != Some(0) ==> sys'.deliveries == sys.deliveries)
  {
    var r := sys.requests[i];
    AttemptFreesOrKeeps(sys.records, sys.lifecycle, r.callback.generation, id, Expiry(config, r), r.now, answer);
    assert Step(sys, config, Advance(i, answer)) == Delivered(sys, config, i, id, answer);
  }

  /** Events only ever go into the run that the request belongs to, while that run is active. */
  lemma NoForeignRuns(sys: System, config: Config, a: Action)
    requires Valid(sys, config) && Enabled(sys, config, a)
    ensures var sys' := Step(sys, config, a);
            || sys'.deliveries == sys.deliveries
            || (&& a.Advance? && sys.lifecycle.active.Some?
                && sys.lifecycle.active.value.generation == sys.requests[a.i].callback.generation
                && sys'.deliveries == sys.deliveries + [sys'.deliveries[|sys.deliveries|]]
                && sys'.deliveries[|sys.deliveries|].generation == sys.lifecycle.active.value.generation)
  {
    if a.Advance? && sys.requests[a.i].phase.Reserving? {
      var r := sys.requests[a.i];
      DeliveredExactlyWhen(sys.records, sys.lifecycle, r.callback.generation, r.phase.id, Expiry(config, r), r.now,
            a.answer);
    }
  }

  /** A run is told of a terminal error at most once. */
  lemma OneTerminalErrorPerRun(config: Config, states: seq<System>, actions: seq<Action>, n: nat, i: nat, j: nat)
    requires Run(config, states, actions) && n < |states| && i < j < |states[n].terminalErrors|
    ensures states[n].terminalErrors[i] != states[n].terminalErrors[j]
  {
    RunsAreValid(config, states, actions, n);
  }
}
