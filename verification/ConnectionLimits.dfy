/** Where the connection stops short of what its flags and its order of reading suggest, with runs that show it. */
module ConnectionLimits {
  import opened Connection
  import opened ConnectionRuns

  ghost predicate Reaches(maxPending: nat, c: Conn) {
    exists states, actions :: Run(maxPending, states, actions) && states[|actions|] == c
  }

  lemma StartReaches(maxPending: nat, leftOverFlag: bool)
    ensures Reaches(maxPending, Opened(leftOverFlag))
  {
    var states, actions: seq<Action> := [Opened(leftOverFlag)], [];
    assert Run(maxPending, states, actions) && states[|actions|] == Opened(leftOverFlag);
  }

  lemma StepReaches(maxPending: nat, c: Conn, a: Action)
    requires Reaches(maxPending, c) && Enabled(c, maxPending, a)
    ensures Reaches(maxPending, Step(c, maxPending, a))
  {
    var states, actions :| Run(maxPending, states, actions) && states[|actions|] == c;
    var next := Step(c, maxPending, a);
    RunExtends(maxPending, states, actions, a, next);
    assert (states + [next])[|actions + [a]|] == next;
  }

  lemma RunExtends(maxPending: nat, states: seq<Conn>, actions: seq<Action>, a: Action, next: Conn)
    requires Run(maxPending, states, actions) && Enabled(states[|actions|], maxPending, a)
    requires next == Step(states[|actions|], maxPending, a)
    ensures Run(maxPending, states + [next], actions + [a])
  {
    forall n | 0 <= n < |actions + [a]| ensures Follows(maxPending, states + [next], actions + [a], n) {
      if n < |actions| {
        assert Follows(maxPending, states, actions, n);
      }
    }
  }

  /** A published connection at rest that holds `queued` events in its queue and `waiting` in the deque; the
      events in the queue are all 0. */
  ghost predicate Resting(c: Conn, queued: nat, waiting: seq<Event>) {
    && c.phase.Head? && c.published && !c.reserved && c.forwarder.Idle?
    && c.outbound == [] && c.pending == map[]
    && |c.local| == queued && c.overflow == waiting
    && (forall event :: event in c.local ==> event == 0)
    && (forall event :: event in c.history.accepted ==> event == 0 || event in waiting)
  }

  lemma {:induction false} QueueFills(maxPending: nat, queued: nat) returns (c: Conn)
    requires queued <= LOCAL_QUEUE_CAPACITY
    ensures Reaches(maxPending, c) && Resting(c, queued, [])
  {
    if queued == 0 {
      StartReaches(maxPending, false);
      c := Opened(false);
    } else {
      var before := QueueFills(maxPending, queued - 1);
      StepReaches(maxPending, before, ReadEvent(0));
      c := Step(before, maxPending, ReadEvent(0));
    }
  }

  lemma DequeTakesOne(maxPending: nat) returns (c: Conn)
    ensures Reaches(maxPending, c) && Resting(c, LOCAL_QUEUE_CAPACITY, [1])
  {
    var full := QueueFills(maxPending, LOCAL_QUEUE_CAPACITY);
    StepReaches(maxPending, full, ReadEvent(1));
    c := Step(full, maxPending, ReadEvent(1));
  }

  /** Between moving the last event out of the deque and refreshing the flags, the waiting flag is up although nothing
      waits: an action submitted at that moment is refused. */
  lemma WaitingFlagOutlivesTheDeque(maxPending: nat) returns (c: Conn)
    ensures Reaches(maxPending, c)
    ensures c.published && c.producerWaiting && c.overflow == [] && !Admits(c, maxPending)
  {
    var waiting := DequeTakesOne(maxPending);
    StepReaches(maxPending, waiting, ForwarderRecv(false));
    var freed := Step(waiting, maxPending, ForwarderRecv(false));
    ReachedIsValid(maxPending, freed);
    StepReaches(maxPending, freed, MoveOverflow);
    c := Step(freed, maxPending, MoveOverflow);
  }

  lemma ReachedIsValid(maxPending: nat, c: Conn)
    requires Reaches(maxPending, c)
    ensures Valid(c, maxPending)
  {
    var states, actions :| Run(maxPending, states, actions) && states[|actions|] == c;
    RunsAreValid(maxPending, states, actions, |actions|);
  }

  /** Events are not kept in order: one read later is queued while an earlier one still waits in the deque. */
  lemma LaterEventsMayOvertake(maxPending: nat) returns (before: Conn, after: Conn)
    ensures Reaches(maxPending, before) && Enabled(before, maxPending, ReadEvent(2))
    ensures after == Step(before, maxPending, ReadEvent(2))
    ensures before.overflow == after.overflow == [1] && 2 !in before.history.accepted
    ensures after.local == before.local + [2] && 1 !in after.local
  {
    var waiting := DequeTakesOne(maxPending);
    StepReaches(maxPending, waiting, ForwarderRecv(false));
    before := Step(waiting, maxPending, ForwarderRecv(false));
    assert forall event :: event in before.local ==> event in waiting.local;
    after := Step(before, maxPending, ReadEvent(2));
  }

  /** The forwarder refreshed the full flag at step `m`, after retirement, and found no free slot. */
  ghost predicate RaisedAt(states: seq<Conn>, actions: seq<Action>, m: nat)
    requires m < |actions| < |states|
  {
    actions[m].ForwarderFlag? && !states[m].published && FreeSlots(states[m]) == 0
  }

  ghost predicate LastRefresh(actions: seq<Action>, m: nat, n: nat)
    requires n <= |actions|
  {
    forall k :: m < k < n ==> !actions[k].ForwarderFlag?
  }

  predicate SameFlags(c: Conn, d: Conn) {
    d.queueFull == c.queueFull && d.published == c.published
  }

  lemma SendingKeepsFlags(c: Conn, maxPending: nat, now: int, t: Transmission)
    requires c.outbound != []
    ensures SameFlags(c, AfterTransmitStart(c, maxPending, now, t))
  {
  }

  lemma SettlingKeepsFlags(c: Conn, now: int, ok: bool, echo: nat)
    ensures SameFlags(c, AfterExpire(c, now)) && SameFlags(c, AfterResponse(c, echo))
    ensures c.phase.Transmitting? ==> SameFlags(c, AfterTransmitEnd(c, ok))
    ensures SameFlags(c, AfterFailPending(AfterFailUnsent(c)))
  {
  }

  lemma ForwardingKeepsFlags(c: Conn, assign: bool)
    ensures c.local != [] ==> SameFlags(c, AfterForwarderRecv(c, assign))
    ensures c.forwarder.Holding? ==> SameFlags(c, AfterForwarderDeliver(c)) && SameFlags(c, AfterForwarderFail(c))
  {
  }

  lemma EventKeepsFlags(c: Conn, event: Event)
    ensures AfterEvent(c, event).published == c.published
  {
  }

  predicate SetsFullFlag(a: Action) {
    a.ForwarderFlag? || a.ReadEvent? || a.RefreshFlags? || a.Unpublish? || a.Abort?
  }

  lemma OthersKeepFlags(c: Conn, maxPending: nat, a: Action)
    requires Enabled(c, maxPending, a) && !SetsFullFlag(a)
    ensures SameFlags(c, Step(c, maxPending, a))
  {
    match a
    case TakeOutbound(now, t) => SendingKeepsFlags(c, maxPending, now, t);
    case Tick(now) => SettlingKeepsFlags(c, now, false, 0);
    case TransmitEnd(ok) => SettlingKeepsFlags(c, 0, ok, 0);
    case ReadResponse(echo) => SettlingKeepsFlags(c, 0, false, echo);
    case FailAll => SettlingKeepsFlags(c, 0, false, 0);
    case Retire => SettlingKeepsFlags(c, 0, false, 0);
    case ForwarderRecv(assign) => ForwardingKeepsFlags(c, assign);
    case ForwarderDeliver => ForwardingKeepsFlags(c, false);
    case ForwarderFail => ForwardingKeepsFlags(c, false);
    case _ =>
  }

  lemma FlagAfterRetirement(c: Conn, maxPending: nat, a: Action)
    requires Shape(c, maxPending) && Enabled(c, maxPending, a)
    ensures !c.published ==> !Step(c, maxPending, a).published
    ensures !c.published && !a.ForwarderFlag? ==> Step(c, maxPending, a).queueFull == c.queueFull
    ensures c.published && !Step(c, maxPending, a).published ==> !Step(c, maxPending, a).queueFull
    ensures a.ForwarderFlag? ==> Step(c, maxPending, a).queueFull == (FreeSlots(c) == 0)
  {
    if !SetsFullFlag(a) {
      OthersKeepFlags(c, maxPending, a);
    } else {
      match a
      case ReadEvent(event) => EventKeepsFlags(c, event);
      case ForwarderFlag =>
      case RefreshFlags =>
      case Unpublish =>
      case Abort =>
    }
  }

  /** The full flag of a retired connection is up exactly when the forwarder's last refresh, after retirement, found the
      queue full: only then does the next connection start with it. */
  lemma {:induction false} FullFlagAfterRetirement(maxPending: nat, states: seq<Conn>, actions: seq<Action>, n: nat)
    requires Run(maxPending, states, actions) && n < |states| && !states[n].published
    ensures states[n].queueFull <==>
              exists m :: 0 <= m < n && RaisedAt(states, actions, m) && LastRefresh(actions, m, n)
  {
    if n > 0 {
      var last := n - 1;
      assert Follows(maxPending, states, actions, last);
      RunsAreValid(maxPending, states, actions, last);
      FlagAfterRetirement(states[last], maxPending, actions[last]);
      if states[last].published {
        NothingRaisedBefore(maxPending, states, actions, n);
      } else {
        FullFlagAfterRetirement(maxPending, states, actions, last);
        if actions[last].ForwarderFlag? {
          assert RaisedAt(states, actions, last) <==> states[n].queueFull;
          assert LastRefresh(actions, last, n);
        } else {
          assert forall m :: 0 <= m < last ==> (LastRefresh(actions, m, n) <==> LastRefresh(actions, m, last));
        }
      }
    }
  }

  lemma {:induction false} NothingRaisedBefore(maxPending: nat, states: seq<Conn>, actions: seq<Action>, n: nat)
    requires Run(maxPending, states, actions) && 0 < n < |states| && states[n - 1].published
    ensures forall m :: 0 <= m < n ==> !RaisedAt(states, actions, m)
  {
    if n > 1 {
      assert Follows(maxPending, states, actions, n - 2);
      RunsAreValid(maxPending, states, actions, n - 2);
      FlagAfterRetirement(states[n - 2], maxPending, actions[n - 2]);
      NothingRaisedBefore(maxPending, states, actions, n - 1);
    }
  }

  function HeldEvents(c: Conn): nat {
    (if c.forwarder.Received? || c.forwarder.Holding? then 1 else 0) + |c.local| + |c.overflow|
  }

  lemma ForwardingHoldsNoMore(c: Conn, assign: bool)
    ensures c.forwarder.Idle? && c.local != [] ==> HeldEvents(AfterForwarderRecv(c, assign)) == HeldEvents(c)
    ensures c.forwarder.Received? ==> HeldEvents(AfterForwarderFlag(c)) == HeldEvents(c)
    ensures c.forwarder.Holding? ==> HeldEvents(AfterForwarderDeliver(c)) < HeldEvents(c)
    ensures c.forwarder.Holding? ==> HeldEvents(AfterForwarderFail(c)) < HeldEvents(c)
  {
  }

  lemma MovingHoldsNoMore(c: Conn)
    ensures c.overflow != [] ==> HeldEvents(MoveFront(c)) == HeldEvents(c)
    ensures HeldEvents(AfterDrainStop(c)) <= HeldEvents(c) && HeldEvents(AfterAbort(c)) == 0
  {
  }

  lemma TaskHoldsNoMore(c: Conn, maxPending: nat, a: Action)
    requires Enabled(c, maxPending, a) && ByTaskOnEvents(a) && !a.ReadEvent?
    ensures HeldEvents(Step(c, maxPending, a)) <= HeldEvents(c)
  {
    match a
    case MoveOverflow => MovingHoldsNoMore(c);
    case DrainOne => MovingHoldsNoMore(c);
    case DrainStop => MovingHoldsNoMore(c);
    case Abort => MovingHoldsNoMore(c);
  }

  /** Only reading adds to the events held. */
  lemma OnlyReadingHoldsMore(c: Conn, maxPending: nat, a: Action)
    requires Enabled(c, maxPending, a) && !a.ReadEvent?
    ensures HeldEvents(Step(c, maxPending, a)) <= HeldEvents(c)
  {
    if ByTaskOnEvents(a) {
      TaskHoldsNoMore(c, maxPending, a);
    } else if ByForwarder(a) {
      ForwarderHoldsNoMore(c, maxPending, a);
    } else {
      OthersLeaveEvents(c, maxPending, a);
      SameEventsHeld(c, Step(c, maxPending, a));
    }
  }

  lemma ForwarderHoldsNoMore(c: Conn, maxPending: nat, a: Action)
    requires Enabled(c, maxPending, a) && ByForwarder(a)
    ensures HeldEvents(Step(c, maxPending, a)) <= HeldEvents(c)
  {
    match a
    case ForwarderRecv(assign) => ForwardingHoldsNoMore(c, assign);
    case ForwarderFlag => ForwardingHoldsNoMore(c, false);
    case ForwarderDeliver => ForwardingHoldsNoMore(c, false);
    case ForwarderFail => ForwardingHoldsNoMore(c, false);
    case ForwarderFinish =>
  }

  lemma SameEventsHeld(c: Conn, d: Conn)
    requires SameEvents(c, d)
    ensures HeldEvents(d) == HeldEvents(c)
  {
  }

  lemma RetiredHoldsNoMore(c: Conn, maxPending: nat, a: Action)
    requires Shape(c, maxPending) && Enabled(c, maxPending, a)
    ensures !Step(c, maxPending, a).published ==> HeldEvents(Step(c, maxPending, a)) <= HeldEvents(c)
  {
    if a.ReadEvent? {
      EventKeepsFlags(c, a.event);
    } else {
      OnlyReadingHoldsMore(c, maxPending, a);
    }
  }

  /** Step r retires the connection. */
  predicate RetiresAt(states: seq<Conn>, r: nat)
    requires r + 1 < |states|
  {
    states[r].published && !states[r + 1].published
  }

  lemma {:induction false} RetiredBefore(maxPending: nat, states: seq<Conn>, actions: seq<Action>, n: nat)
      returns (r: nat)
    requires Run(maxPending, states, actions) && n < |states| && !states[n].published
    ensures r < n && RetiresAt(states, r) && HeldEvents(states[n]) <= HeldEvents(states[r])
  {
    assert Follows(maxPending, states, actions, n - 1);
    RunsAreValid(maxPending, states, actions, n - 1);
    RetiredHoldsNoMore(states[n - 1], maxPending, actions[n - 1]);
    if states[n - 1].published {
      r := n - 1;
    } else {
      r := RetiredBefore(maxPending, states, actions, n - 1);
    }
  }

  /** A connection leaves the full flag up only if it retired with all but two of its places for events taken, and, when
      it has ended, only if its forwarder failed. */
  lemma OnlyFullConnectionsLeaveTheFlag(maxPending: nat, states: seq<Conn>, actions: seq<Action>, n: nat)
      returns (r: nat)
    requires Run(maxPending, states, actions) && n < |states| && !states[n].published && states[n].queueFull
    ensures r < n && RetiresAt(states, r) && HeldEvents(states[r]) >= MAX_PENDING_EVENTS_PER_CONNECTION - 2
    ensures states[n].phase.Ended? ==> states[n].forwarder.Failed?
  {
    FullFlagAfterRetirement(maxPending, states, actions, n);
    var m :| 0 <= m < n && RaisedAt(states, actions, m) && LastRefresh(actions, m, n);
    RunsAreValid(maxPending, states, actions, m);
    RunsAreValid(maxPending, states, actions, n);
    assert Follows(maxPending, states, actions, m);
    r := RetiredBefore(maxPending, states, actions, m);
  }

  /** As long as nothing has been read, a connection that found the full flag up keeps it up. */
  predicate Untouched(c: Conn) {
    && c.local == [] && c.overflow == [] && !c.reserved && !c.phase.Flagging?
    && (c.forwarder.Idle? || c.forwarder.Finished? || c.forwarder.Failed?)
    && (c.published ==> c.queueFull)
  }

  lemma UntouchedStays(c: Conn, maxPending: nat, a: Action)
    requires Untouched(c) && Enabled(c, maxPending, a) && !a.ReadEvent?
    ensures Untouched(Step(c, maxPending, a)) && !a.Admit?
  {
    match a
    case Tick(now) => SettlingLeavesUntouched(c, now, false, 0);
    case TakeOutbound(now, t) => SendingLeavesUntouched(c, maxPending, now, t);
    case TransmitEnd(ok) => SettlingLeavesUntouched(c, 0, ok, 0);
    case ReadResponse(echo) => SettlingLeavesUntouched(c, 0, false, echo);
    case FailAll => SettlingLeavesUntouched(c, 0, false, 0);
    case Retire => SettlingLeavesUntouched(c, 0, false, 0);
    case ReadOther =>
    case Break =>
    case Unpublish =>
    case DrainStop =>
    case CloseQueue =>
    case Join =>
    case Abort =>
    case ForwarderFinish =>
    case _ =>
  }

  lemma SendingLeavesUntouched(c: Conn, maxPending: nat, now: int, t: Transmission)
    requires Untouched(c) && c.outbound != []
    ensures Untouched(AfterTransmitStart(c, maxPending, now, t))
  {
  }

  lemma SettlingLeavesUntouched(c: Conn, now: int, ok: bool, echo: nat)
    requires Untouched(c)
    ensures Untouched(AfterExpire(c, now)) && Untouched(AfterResponse(c, echo))
    ensures c.phase.Transmitting? ==> Untouched(AfterTransmitEnd(c, ok))
    ensures Untouched(AfterFailPending(AfterFailUnsent(c)))
  {
  }

  /** A connection that opens with the full flag up admits no action until it has read an event, in any run. */
  lemma {:induction false} LeftOverFlagRefusesActions(maxPending: nat, states: seq<Conn>, actions: seq<Action>, n: nat)
    requires Run(maxPending, states, actions) && states[0] == Opened(true) && n < |states|
    requires forall k :: 0 <= k < n ==> !actions[k].ReadEvent?
    ensures Untouched(states[n]) && !Admits(states[n], maxPending)
    ensures forall k :: 0 <= k < n ==> !actions[k].Admit?
  {
    if n > 0 {
      LeftOverFlagRefusesActions(maxPending, states, actions, n - 1);
      assert Follows(maxPending, states, actions, n - 1);
      UntouchedStays(states[n - 1], maxPending, actions[n - 1]);
    }
  }

  lemma StopsWhileFull(maxPending: nat) returns (c: Conn)
    ensures Reaches(maxPending, c)
    ensures c.phase.Draining? && !c.published && c.overflow == [1] && c.forwarder.Idle? && FreeSlots(c) == 0
    ensures !c.reserved
    ensures c.local != []
  {
    var waiting := DequeTakesOne(maxPending);
    StepReaches(maxPending, waiting, Break);
    var stopping := Step(waiting, maxPending, Break);
    StepReaches(maxPending, stopping, Unpublish);
    var unpublished := Step(stopping, maxPending, Unpublish);
    StepReaches(maxPending, unpublished, Retire);
    c := Step(unpublished, maxPending, Retire);
  }

  /** A forwarder that fails while a full connection drains leaves the full flag up, and the next connection then
      refuses actions although its own queue is empty. */
  lemma FullFlagOutlivesTheConnection(maxPending: nat) returns (c: Conn)
    ensures Reaches(maxPending, c) && c.phase.Ended? && c.queueFull
    ensures Reaches(maxPending, Opened(c.queueFull)) && !Admits(Opened(c.queueFull), maxPending)
    ensures FreeSlots(Opened(c.queueFull)) == LOCAL_QUEUE_CAPACITY
  {
    var draining := StopsWhileFull(maxPending);
    StepReaches(maxPending, draining, ForwarderRecv(true));
    var handedOver := Step(draining, maxPending, ForwarderRecv(true));
    StepReaches(maxPending, handedOver, ForwarderFlag);
    var flagged := Step(handedOver, maxPending, ForwarderFlag);
    c := FailsWhileDraining(maxPending, flagged);
    StartReaches(maxPending, true);
  }

  lemma FailsWhileDraining(maxPending: nat, flagged: Conn) returns (c: Conn)
    requires Reaches(maxPending, flagged) && flagged.phase.Draining? && flagged.forwarder.Holding?
    requires flagged.overflow != []
    ensures Reaches(maxPending, c) && c.phase.Ended? && c.queueFull == flagged.queueFull
  {
    StepReaches(maxPending, flagged, ForwarderFail);
    var failed := Step(flagged, maxPending, ForwarderFail);
    StepReaches(maxPending, failed, DrainStop);
    var stopped := Step(failed, maxPending, DrainStop);
    StepReaches(maxPending, stopped, Join);
    c := Step(stopped, maxPending, Join);
  }
}
