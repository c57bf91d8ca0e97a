/** From which retired connections the full flag can still be left up for the next one. */
module ConnectionRetirement {
  import opened Connection
  import opened ConnectionLimits
  import opened ConnectionRuns

  /** The forwarder can still take an event and then find the queue full: at least 62 events are held, or 63 when it has
      already refreshed the flag for the event in its hand. */
  predicate CanLeaveFlag(c: Conn) {
    !QueueClosed(c) && HeldEvents(c) >= MAX_PENDING_EVENTS_PER_CONNECTION - if c.forwarder.Holding? then 1 else 2
  }

  ghost predicate ContinuesFrom(maxPending: nat, c: Conn, states: seq<Conn>, actions: seq<Action>) {
    && |states| == |actions| + 1 && states[0] == c
    && forall n :: 0 <= n < |actions| ==> Follows(maxPending, states, actions, n)
  }

  /** Some continuation ends the connection with the full flag up. */
  ghost predicate MayLeaveFlag(maxPending: nat, c: Conn) {
    exists states: seq<Conn>, actions: seq<Action> ::
      ContinuesFrom(maxPending, c, states, actions) && states[|actions|].phase.Ended? && states[|actions|].queueFull
  }

  // ----- without enough events the flag stays down -----

  predicate StaysDown(c: Conn) {
    !c.published && !c.queueFull && !CanLeaveFlag(c)
  }

  lemma ForwardingStaysDown(c: Conn, maxPending: nat, a: Action)
    requires Shape(c, maxPending) && StaysDown(c) && Enabled(c, maxPending, a) && ByForwarder(a)
    ensures StaysDown(Step(c, maxPending, a))
  {
    match a
    case ForwarderRecv(assign) => ForwardingHoldsNoMore(c, assign);
    case ForwarderFlag => ForwardingHoldsNoMore(c, false);
    case ForwarderDeliver => ForwardingHoldsNoMore(c, false);
    case ForwarderFail =>
    case ForwarderFinish =>
  }

  lemma MovingStaysDown(c: Conn)
    requires StaysDown(c)
    ensures c.overflow != [] ==> StaysDown(MoveFront(c)) && StaysDown(AfterDrainStop(c))
  {
    MovingHoldsNoMore(c);
  }

  lemma ClosingStaysDown(c: Conn)
    requires StaysDown(c)
    ensures StaysDown(AfterFailPending(AfterFailUnsent(c)).(phase := Draining)) && StaysDown(AfterAbort(c))
  {
  }

  lemma StepStaysDown(c: Conn, maxPending: nat, a: Action)
    requires Shape(c, maxPending) && StaysDown(c) && Enabled(c, maxPending, a)
    ensures StaysDown(Step(c, maxPending, a))
  {
    if ByForwarder(a) {
      ForwardingStaysDown(c, maxPending, a);
    } else {
      match a
      case DrainOne => MovingStaysDown(c);
      case DrainStop => MovingStaysDown(c);
      case Retire => ClosingStaysDown(c);
      case Abort => ClosingStaysDown(c);
      case CloseQueue =>
      case Join =>
    }
  }

  lemma {:induction false} FlagStaysDown(maxPending: nat, c: Conn, states: seq<Conn>, actions: seq<Action>, n: nat)
    requires ContinuesFrom(maxPending, c, states, actions) && n < |states|
    requires Steady(c, maxPending) && StaysDown(c)
    ensures Steady(states[n], maxPending) && StaysDown(states[n])
  {
    if n > 0 {
      FlagStaysDown(maxPending, c, states, actions, n - 1);
      assert Follows(maxPending, states, actions, n - 1);
      SteadyStays(states[n - 1], maxPending, actions[n - 1]);
      StepStaysDown(states[n - 1], maxPending, actions[n - 1]);
    }
  }

  // ----- with enough events a failing forwarder leaves it up -----

  lemma NothingMore(maxPending: nat, c: Conn)
    requires c.phase.Ended? && c.queueFull
    ensures MayLeaveFlag(maxPending, c)
  {
    var states, actions: seq<Action> := [c], [];
    assert ContinuesFrom(maxPending, c, states, actions) && states[|actions|] == c;
  }

  lemma OneStepEarlier(maxPending: nat, c: Conn, a: Action)
    requires Enabled(c, maxPending, a) && MayLeaveFlag(maxPending, Step(c, maxPending, a))
    ensures MayLeaveFlag(maxPending, c)
  {
    var states: seq<Conn>, actions: seq<Action> :|
      ContinuesFrom(maxPending, Step(c, maxPending, a), states, actions)
      && states[|actions|].phase.Ended? && states[|actions|].queueFull;
    var longer, more := [c] + states, [a] + actions;
    forall n | 0 <= n < |more| ensures Follows(maxPending, longer, more, n) {
      if n > 0 {
        assert Follows(maxPending, states, actions, n - 1);
      }
    }
    assert ContinuesFrom(maxPending, c, longer, more) && longer[|more|] == states[|actions|];
  }

  /** The phases after retirement in which the flag is not yet decided. */
  predicate Closing(p: Phase) {
    p.Draining? || p.Closed?
  }

  /** A forwarder that has found the queue full fails, and the task ends. */
  lemma FailingLeavesFlag(maxPending: nat, c: Conn)
    requires Closing(c.phase) && c.forwarder.Holding? && c.queueFull && (c.phase.Closed? ==> c.overflow == [])
    ensures MayLeaveFlag(maxPending, c)
  {
    var failed := Step(c, maxPending, ForwarderFail);
    if c.phase.Closed? {
      ClosedLeavesFlag(maxPending, failed);
    } else if failed.overflow != [] {
      ClosedLeavesFlag(maxPending, Step(failed, maxPending, DrainStop));
      OneStepEarlier(maxPending, failed, DrainStop);
    } else {
      ClosedLeavesFlag(maxPending, Step(failed, maxPending, CloseQueue));
      OneStepEarlier(maxPending, failed, CloseQueue);
    }
    OneStepEarlier(maxPending, c, ForwarderFail);
  }

  lemma ClosedLeavesFlag(maxPending: nat, c: Conn)
    requires c.phase.Closed? && QueueClosed(c) && c.queueFull
    ensures MayLeaveFlag(maxPending, c)
  {
    NothingMore(maxPending, Step(c, maxPending, Join));
    OneStepEarlier(maxPending, c, Join);
  }

  /** The deque is flushed into the queue until that is full, and the forwarder looks at it then. */
  lemma {:induction false} FlushingLeavesFlag(maxPending: nat, c: Conn)
    requires Steady(c, maxPending) && Closing(c.phase) && c.forwarder.Received? && CanLeaveFlag(c)
    ensures MayLeaveFlag(maxPending, c)
    decreases |c.overflow|
  {
    if FreeSlots(c) == 0 {
      FailingLeavesFlag(maxPending, Step(c, maxPending, ForwarderFlag));
      OneStepEarlier(maxPending, c, ForwarderFlag);
    } else {
      MovingHoldsNoMore(c);
      SteadyStays(c, maxPending, DrainOne);
      FlushingLeavesFlag(maxPending, Step(c, maxPending, DrainOne));
      OneStepEarlier(maxPending, c, DrainOne);
    }
  }

  lemma IdleLeavesFlag(maxPending: nat, c: Conn)
    requires Steady(c, maxPending) && Closing(c.phase) && c.forwarder.Idle? && CanLeaveFlag(c)
    ensures MayLeaveFlag(maxPending, c)
  {
    ForwardingHoldsNoMore(c, false);
    SteadyStays(c, maxPending, ForwarderRecv(false));
    FlushingLeavesFlag(maxPending, Step(c, maxPending, ForwarderRecv(false)));
    OneStepEarlier(maxPending, c, ForwarderRecv(false));
  }

  lemma ClosingLeavesFlag(maxPending: nat, c: Conn)
    requires Steady(c, maxPending) && Closing(c.phase) && CanLeaveFlag(c)
    ensures MayLeaveFlag(maxPending, c)
  {
    if c.forwarder.Received? {
      FlushingLeavesFlag(maxPending, c);
    } else if c.forwarder.Idle? {
      IdleLeavesFlag(maxPending, c);
    } else {
      SteadyStays(c, maxPending, ForwarderDeliver);
      IdleLeavesFlag(maxPending, Step(c, maxPending, ForwarderDeliver));
      OneStepEarlier(maxPending, c, ForwarderDeliver);
    }
  }

  lemma RetiredLeavesFlag(maxPending: nat, c: Conn)
    requires Steady(c, maxPending) && !c.published && CanLeaveFlag(c)
    ensures MayLeaveFlag(maxPending, c)
  {
    if c.phase.Unpublished? {
      SteadyStays(c, maxPending, Retire);
      ClosingLeavesFlag(maxPending, Step(c, maxPending, Retire));
      OneStepEarlier(maxPending, c, Retire);
    } else {
      ClosingLeavesFlag(maxPending, c);
    }
  }

  /** A retired connection whose full flag is down can end with it up exactly when it holds at least 62 events, or 63
      when the flag has been refreshed for the one in the forwarder's hand; otherwise it stays down in every later
      state. */
  lemma FlagLeftUpExactlyWhen(maxPending: nat, c: Conn)
    requires Reaches(maxPending, c) && !c.published && !c.queueFull
    ensures MayLeaveFlag(maxPending, c) <==> CanLeaveFlag(c)
    ensures !CanLeaveFlag(c) ==>
              forall states: seq<Conn>, actions, n ::
                ContinuesFrom(maxPending, c, states, actions) && 0 <= n < |states| ==>
                  !states[n].queueFull
  {
    ReachedIsValid(maxPending, c);
    if CanLeaveFlag(c) {
      RetiredLeavesFlag(maxPending, c);
    } else {
      forall states: seq<Conn>, actions, n | ContinuesFrom(maxPending, c, states, actions) && 0 <= n < |states|
        ensures !states[n].queueFull
      {
        FlagStaysDown(maxPending, c, states, actions, n);
      }
    }
  }

  /** Unpublishing lowers the flag and leaves the events, so the state of the loop that stops decides. */
  lemma StoppingDecides(maxPending: nat, c: Conn)
    requires Reaches(maxPending, c) && c.phase.Stopping?
    ensures MayLeaveFlag(maxPending, Step(c, maxPending, Unpublish)) <==> CanLeaveFlag(c)
  {
    StepReaches(maxPending, c, Unpublish);
    FlagLeftUpExactlyWhen(maxPending, Step(c, maxPending, Unpublish));
  }
}
