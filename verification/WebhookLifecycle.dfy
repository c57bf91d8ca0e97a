/** What a run's guard, its terminal error and the signature window mean over whole runs. */
module WebhookLifecycle {
  import opened Common
  import opened Webhook
  import opened WebhookProperties
  import opened WebhookRuns

  // ----- the guard of a run -----

  /** Dropping a guard ends its own run and no other. */
  lemma GuardEndsItsRun(lifecycle: Lifecycle, generation: nat)
    ensures var after := AfterDropGuard(lifecycle, generation);
            && (after.active.Some? <==> lifecycle.active.Some? && lifecycle.active.value.generation != generation)
            && (after.active.Some? ==> after == lifecycle)
            && after.nextGeneration == lifecycle.nextGeneration
  {
  }

  /** So a new run can start after it exactly when no run of another generation is active. */
  lemma StartsAfterGuardExactlyWhen(sys: System, config: Config, generation: nat)
    ensures Enabled(Step(sys, config, DropGuard(generation)), config, StartRun)
            <==> !(sys.lifecycle.active.Some? && sys.lifecycle.active.value.generation != generation)
  {
  }

  /** The run of this generation has been started and is over. */
  predicate IsOver(sys: System, generation: nat) {
    && generation <= sys.lifecycle.nextGeneration
    && (sys.lifecycle.active.Some? ==> sys.lifecycle.active.value.generation != generation)
  }

  lemma StaysOver(sys: System, config: Config, a: Action, generation: nat)
    requires Valid(sys, config) && Enabled(sys, config, a) && IsOver(sys, generation)
    ensures IsOver(Step(sys, config, a), generation)
  {
    if a.Advance? && sys.requests[a.i].phase.Reserving? {
      var r := sys.requests[a.i];
      AttemptOnRun(sys.records, sys.lifecycle, r.callback.generation, r.phase.id, Expiry(config, r), r.now, a.answer);
    }
  }

  /** The later state has the deliveries of the earlier one and perhaps more, none of them into this run. */
  predicate NoneInto(before: System, after: System, generation: nat) {
    && before.deliveries <= after.deliveries
    && forall k :: |before.deliveries| <= k < |after.deliveries| ==> after.deliveries[k].generation != generation
  }

  lemma StepAddsNone(sys: System, config: Config, a: Action, generation: nat)
    requires Valid(sys, config) && Enabled(sys, config, a) && IsOver(sys, generation)
    ensures NoneInto(sys, Step(sys, config, a), generation)
  {
    NoForeignRuns(sys, config, a);
  }

  lemma NoneOn(a: System, b: System, c: System, generation: nat)
    requires NoneInto(a, b, generation) && NoneInto(b, c, generation)
    ensures NoneInto(a, c, generation)
  {
  }

  lemma GuardStep(sys: System, config: Config, generation: nat)
    requires generation <= sys.lifecycle.nextGeneration
    ensures IsOver(Step(sys, config, DropGuard(generation)), generation)
    ensures NoneInto(sys, Step(sys, config, DropGuard(generation)), generation)
  {
    GuardEndsItsRun(sys.lifecycle, generation);
  }

  lemma OverOneMore(config: Config, states: seq<System>, actions: seq<Action>, k: nat, generation: nat)
    requires Run(config, states, actions) && k < |actions| && IsOver(states[k], generation)
    ensures IsOver(states[k + 1], generation) && NoneInto(states[k], states[k + 1], generation)
  {
    RunsAreValid(config, states, actions, k);
    StaysOver(states[k], config, actions[k], generation);
    StepAddsNone(states[k], config, actions[k], generation);
  }

  /** Once the guard of a started run is dropped, no event is ever delivered into that run again. */
  lemma {:induction false} NothingGoesIntoAnEndedRun(config: Config, states: seq<System>, actions: seq<Action>, n: nat,
      m: nat, generation: nat)
    requires Run(config, states, actions) && n < m < |states|
    requires actions[n] == DropGuard(generation) && generation <= states[n].lifecycle.nextGeneration
    ensures IsOver(states[m], generation) && NoneInto(states[n], states[m], generation)
  {
    if m > n + 1 {
      NothingGoesIntoAnEndedRun(config, states, actions, n, m - 1, generation);
      OverOneMore(config, states, actions, m - 1, generation);
      NoneOn(states[n], states[m - 1], states[m], generation);
    } else {
      GuardStep(states[n], config, generation);
    }
  }

  // ----- terminal errors -----

  /** A delivery attempt of this generation reaches the queue of its active run and is told that the adapter does not
      match. */
  predicate Mismatches(sys: System, a: Action, generation: nat) {
    && a.Advance? && a.answer.AdapterMismatch? && a.i < |sys.requests|
    && sys.requests[a.i].phase.Reserving? && sys.requests[a.i].callback.generation == generation
    && sys.lifecycle.active.Some? && sys.lifecycle.active.value.generation == generation
    && !Live(sys.records, sys.requests[a.i].phase.id, sys.requests[a.i].now)
    && |Others(sys.records, sys.requests[a.i].phase.id, sys.requests[a.i].now)| < MAX_SEEN_EVENTS
  }

  /** The active run can still be told exactly when it has not been. */
  predicate TerminalExact(sys: System) {
    && (forall i :: 0 <= i < |sys.terminalErrors| ==> sys.terminalErrors[i] <= sys.lifecycle.nextGeneration)
    && (sys.lifecycle.active.Some? ==>
          && sys.lifecycle.active.value.generation <= sys.lifecycle.nextGeneration
          && (sys.lifecycle.active.value.terminal <==> sys.lifecycle.active.value.generation !in sys.terminalErrors))
  }

  lemma AttemptTells(records: Records, lifecycle: Lifecycle, generation: nat, id: EventKey, expiresAt: U64, now: U64,
      answer: QueueAnswer)
    ensures var d := AfterDelivery(records, lifecycle, generation, id, expiresAt, now, answer);
            var mismatch := && answer.AdapterMismatch? && !Live(records, id, now)
                            && |Others(records, id, now)| < MAX_SEEN_EVENTS
                            && lifecycle.active.Some? && lifecycle.active.value.generation == generation;
            && d.terminalSent == (mismatch && lifecycle.active.value.terminal)
            && d.lifecycle == if mismatch then lifecycle.(active := Some(ActiveRun(generation, false))) else lifecycle
  {
  }

  lemma ReservingTells(sys: System, config: Config, i: nat, id: EventKey, answer: QueueAnswer, generation: nat)
    requires i < |sys.requests| && sys.requests[i].phase == Reserving(id) && TerminalExact(sys)
    ensures TerminalExact(Delivered(sys, config, i, id, answer))
    ensures generation in Delivered(sys, config, i, id, answer).terminalErrors
            <==> generation in sys.terminalErrors || Mismatches(sys, Advance(i, answer), generation)
  {
    var r := sys.requests[i];
    AttemptTells(sys.records, sys.lifecycle, r.callback.generation, id, Expiry(config, r), r.now, answer);
  }

  lemma StepTells(sys: System, config: Config, a: Action, generation: nat)
    requires Enabled(sys, config, a) && TerminalExact(sys)
    ensures TerminalExact(Step(sys, config, a))
    ensures generation in Step(sys, config, a).terminalErrors
            <==> generation in sys.terminalErrors || Mismatches(sys, a, generation)
  {
    if a.Advance? && sys.requests[a.i].phase.Reserving? {
      ReservingTells(sys, config, a.i, sys.requests[a.i].phase.id, a.answer, generation);
    }
  }

  lemma {:induction false} TerminalIsExact(config: Config, states: seq<System>, actions: seq<Action>, n: nat)
    requires Run(config, states, actions) && n < |states|
    ensures TerminalExact(states[n])
  {
    if n > 0 {
      TerminalIsExact(config, states, actions, n - 1);
      StepTells(states[n - 1], config, actions[n - 1], 0);
    }
  }

  ghost predicate MismatchBefore(states: seq<System>, actions: seq<Action>, n: nat, generation: nat)
    requires n <= |actions| < |states|
  {
    exists k :: 0 <= k < n && Mismatches(states[k], actions[k], generation)
  }

  lemma MismatchBeforeNext(states: seq<System>, actions: seq<Action>, n: nat, generation: nat)
    requires n < |actions| < |states|
    ensures MismatchBefore(states, actions, n + 1, generation)
            <==> MismatchBefore(states, actions, n, generation) || Mismatches(states[n], actions[n], generation)
  {
  }

  /** A run is told of a terminal error exactly when one of its delivery attempts has met a mismatching adapter, that
      is, on the first. */
  lemma {:induction false} ToldExactlyWhen(config: Config, states: seq<System>, actions: seq<Action>, n: nat,
      generation: nat)
    requires Run(config, states, actions) && n < |states|
    ensures generation in states[n].terminalErrors <==> MismatchBefore(states, actions, n, generation)
  {
    if n > 0 {
      ToldExactlyWhen(config, states, actions, n - 1, generation);
      TerminalIsExact(config, states, actions, n - 1);
      StepTells(states[n - 1], config, actions[n - 1], generation);
      MismatchBeforeNext(states, actions, n - 1, generation);
    }
  }

  // ----- the signature window -----

  function Distance(a: nat, b: nat): nat {
    if a < b then b - a else a - b
  }

  /** A callback is let in exactly when the clock of its authentication is no further from its signature than the
      tolerance, on either side. */
  lemma LetInExactlyWhen(sys: System, config: Config, callback: Callback, clock: U64, now: U64)
    ensures Enabled(sys, config, Arrive(callback, clock, now))
            <==> Distance(clock, callback.signedAt) <= config.tolerance
  {
  }

  /** A replay of a callback that was delivered is let in only up to the end of its window, which is no later than the
      expiry of that delivery. */
  lemma ReplayIsLetInOnlyBeforeExpiry(config: Config, states: seq<System>, actions: seq<Action>, n: nat, k: nat)
    requires Run(config, states, actions) && n < |actions| && k < |states[n].deliveries| && actions[n].Arrive?
    requires states[n].deliveries[k].request < |states[n].requests|
    requires actions[n].callback.signedAt == states[n].requests[states[n].deliveries[k].request].callback.signedAt
    ensures actions[n].authenticatedAt <= actions[n].callback.signedAt + config.tolerance
    ensures actions[n].authenticatedAt <= states[n].deliveries[k].expiresAt
  {
    RunsAreValid(config, states, actions, n);
    assert DeliveredByRequest(states[n], config, states[n].deliveries[k]);
    LetInExactlyWhen(states[n], config, actions[n].callback, actions[n].authenticatedAt, actions[n].now);
  }

  // ----- a new event -----

  /** The callback has no id that can be recorded, where it needs one. */
  predicate Unidentified(callback: Callback) {
    || (callback.outerId.UnusableId? && !callback.interaction)
    || (!callback.outerId.Id? && callback.mapping.Mapped? && !callback.mapping.eventId.Id?)
  }

  lemma AdvanceRefusesNobody(sys: System, config: Config, i: nat, answer: QueueAnswer)
    requires RecordsSettled(sys.records) && Enabled(sys, config, Advance(i, answer)) && PhaseFits(sys.requests[i])
    ensures Step(sys, config, Advance(i, answer)).requests[i].phase != Responded(BadRequest)
  {
    var r := sys.requests[i];
    match r.phase
    case FirstLookup(id) =>
      assert Step(sys, config, Advance(i, answer)) == LookedUp(sys, i, id, AfterFirstLookup(r.callback));
    case SecondLookup(id) =>
      assert Step(sys, config, Advance(i, answer)) == LookedUp(sys, i, id, Reserving(id));
    case Reserving(id) =>
      assert Step(sys, config, Advance(i, answer)) == Delivered(sys, config, i, id, answer);
      AttemptNeverRefuses(sys.records, sys.lifecycle, r.callback.generation, id, Expiry(config, r), r.now, answer);
    case _ =>
  }

  lemma AttemptNeverRefuses(records: Records, lifecycle: Lifecycle, generation: nat, id: EventKey, expiresAt: U64,
      now: U64, answer: QueueAnswer)
    ensures AfterDelivery(records, lifecycle, generation, id, expiresAt, now, answer).response != BadRequest
  {
  }

  /** A callback is refused as a bad request exactly when it has no usable id where it needs one. */
  lemma {:induction false} RefusedExactlyWhen(config: Config, states: seq<System>, actions: seq<Action>, n: nat, i: nat)
    requires Run(config, states, actions) && n < |states| && i < |states[n].requests|
    ensures states[n].requests[i].phase == Responded(BadRequest) <==> Unidentified(states[n].requests[i].callback)
  {
    if n > 0 {
      var sys, a := states[n - 1], actions[n - 1];
      if i < |sys.requests| {
        RefusedExactlyWhen(config, states, actions, n - 1, i);
        RunsAreValid(config, states, actions, n - 1);
        PhasesFit(config, states, actions, n - 1, i);
        if a.Advance? && a.i == i {
          AdvanceRefusesNobody(sys, config, i, a.answer);
        }
      }
    }
  }

  /** Where a request with this id stands when it has looked it up as often as it needs to. */
  lemma LooksUpAndReserves(sys: System, config: Config, callback: Callback, clock: U64, now: U64, id: EventKey)
    requires Enabled(sys, config, Arrive(callback, clock, now))
    requires Claims(callback, id) && callback.mapping.Mapped? && !Unidentified(callback) && !Live(sys.records, id, now)
    ensures var arrived := Step(sys, config, Arrive(callback, clock, now));
            var i := |sys.requests|;
            && Enabled(arrived, config, Advance(i, Sent))
            && var ready := Step(arrived, config, Advance(i, Sent));
               ready == System(sys.records - {id}, sys.lifecycle,
                               sys.requests + [Request(callback, now, Reserving(id))],
                               sys.deliveries, sys.clocks + [now], sys.terminalErrors)
  {
    var arrived := Step(sys, config, Arrive(callback, clock, now));
    var i := |sys.requests|;
    var first := Request(callback, now, Arrived(callback));
    assert arrived.requests == sys.requests + [first] && arrived.requests[i] == first;
    assert id !in sys.records ==> sys.records - {id} == sys.records;
    assert AfterLookup(sys.records, id, now) == (sys.records - {id}, None);
    if callback.outerId.Id? {
      assert Step(arrived, config, Advance(i, Sent)) == LookedUp(arrived, i, id, AfterFirstLookup(callback));
    } else {
      assert Step(arrived, config, Advance(i, Sent)) == LookedUp(arrived, i, id, Reserving(id));
    }
  }

  /** An event that nobody has delivered within its time, for the active run, and that the queue takes, is delivered and
      acknowledged by a request that nobody interferes with, whichever of its ids it goes by. */
  lemma NewEventIsDelivered(sys: System, config: Config, callback: Callback, clock: U64, now: U64, id: EventKey)
    requires Valid(sys, config) && Enabled(sys, config, Arrive(callback, clock, now))
    requires Claims(callback, id) && callback.mapping.Mapped? && !Unidentified(callback)
    requires !Live(sys.records, id, now) && |Others(sys.records, id, now)| < MAX_SEEN_EVENTS
    requires sys.lifecycle.active.Some? && sys.lifecycle.active.value.generation == callback.generation
    ensures var arrived, i := Step(sys, config, Arrive(callback, clock, now)), |sys.requests|;
            && Enabled(arrived, config, Advance(i, Sent))
            && var ready := Step(arrived, config, Advance(i, Sent));
            && Enabled(ready, config, Advance(i, Sent))
            && var done := Step(ready, config, Advance(i, Sent));
            && done.requests[i].phase == Responded(AckDelivered(id))
            && |done.deliveries| == |sys.deliveries| + 1 && done.deliveries[|sys.deliveries|].id == id
            && done.deliveries[|sys.deliveries|].generation == callback.generation
  {
    LooksUpAndReserves(sys, config, callback, clock, now, id);
    var ready := Step(Step(sys, config, Arrive(callback, clock, now)), config, Advance(|sys.requests|, Sent));
    RemovedTwice(sys.records, id);
    ReservedIsDelivered(ready, config, |sys.requests|, id);
  }

  lemma RemovedTwice(records: Records, id: EventKey)
    ensures records - {id} - {id} == records - {id}
  {
  }

  lemma ReservedIsDelivered(sys: System, config: Config, i: nat, id: EventKey)
    requires i < |sys.requests| && sys.requests[i].phase == Reserving(id)
    requires !Live(sys.records, id, sys.requests[i].now)
    requires |Others(sys.records, id, sys.requests[i].now)| < MAX_SEEN_EVENTS
    requires sys.lifecycle.active.Some?
    requires sys.lifecycle.active.value.generation == sys.requests[i].callback.generation
    ensures var done, generation := Step(sys, config, Advance(i, Sent)), sys.requests[i].callback.generation;
            && done.requests[i].phase == Responded(AckDelivered(id))
            && |done.deliveries| == |sys.deliveries| + 1
            && done.deliveries[|sys.deliveries|].id == id
            && done.deliveries[|sys.deliveries|].generation == generation
  {
    var r := sys.requests[i];
    DeliveredExactlyWhen(sys.records, sys.lifecycle, r.callback.generation, id, Expiry(config, r), r.now, Sent);
    AttemptAnswersForItself(sys.records, sys.lifecycle, r.callback.generation, id, Expiry(config, r), r.now);
    assert Step(sys, config, Advance(i, Sent)) == Delivered(sys, config, i, id, Sent);
  }

  lemma AttemptAnswersForItself(records: Records, lifecycle: Lifecycle, generation: nat, id: EventKey, expiresAt: U64,
      now: U64)
    ensures var response := AfterDelivery(records, lifecycle, generation, id, expiresAt, now, Sent).response;
            response.AckDelivered? ==> response.id == id
  {
  }
}
