/** Every interleaving of the connection task, the event forwarder and the callers that submit actions. */
module ConnectionRuns {
  import opened Common
  import opened Connection

  datatype Action =
    // a caller
    | Admit(action: Outbound)
    // the connection task
    | Tick(now: int)
    | TakeOutbound(now: int, transmission: Transmission)
    | TransmitEnd(ok: bool)
    | ReadResponse(echo: nat)
    | ReadEvent(event: Event)
    | ReadOther
    | MoveOverflow
    | RefreshFlags
    | FailAll
    | Break
    | Unpublish
    | Retire
    | DrainOne
    | DrainStop
    | CloseQueue
    | Join
    | Abort
    // the forwarder
    | ForwarderRecv(assign: bool)
    | ForwarderFlag
    | ForwarderDeliver
    | ForwarderFail
    | ForwarderFinish

  /** Reading is switched off while the deque is at its limit. */
  predicate Reads(c: Conn) {
    c.phase.Head? && |c.overflow| < 2
  }

  predicate CanMove(c: Conn) {
    c.overflow != [] && (c.reserved || FreeSlots(c) > 0) && !QueueClosed(c)
  }

  predicate Enabled(c: Conn, maxPending: nat, a: Action) {
    match a
    case Admit(action) => Admits(c, maxPending) && action.id !in c.history.admitted
    case Tick(_) => c.phase.Head?
    case TakeOutbound(_, t) => c.phase.Head? && c.outbound != [] && (t.Sends? ==> t.echo !in c.history.echoes)
    case TransmitEnd(_) => c.phase.Transmitting?
    case ReadResponse(_) => Reads(c)
    case ReadEvent(_) => Reads(c)
    case ReadOther => Reads(c)
    case MoveOverflow => c.phase.Head? && CanMove(c)
    case RefreshFlags => c.phase.Flagging?
    case FailAll => c.phase.Overflowed?
    case Break => c.phase.Head?
    case Unpublish => c.phase.Stopping?
    case Retire => c.phase.Unpublished?
    case DrainOne => c.phase.Draining? && CanMove(c)
    case DrainStop => c.phase.Draining? && c.overflow != [] && QueueClosed(c)
    case CloseQueue => c.phase.Draining? && c.overflow == []
    case Join => c.phase.Closed? && QueueClosed(c)
    case Abort => !c.phase.Ended? && !c.phase.Aborted?
    case ForwarderRecv(assign) =>
      && c.forwarder.Idle? && c.local != []
      // a freed slot goes to the reservation of a loop that found the queue full
      && (assign ==> (c.phase.Head? || c.phase.Draining?) && c.overflow != [] && !c.reserved && FreeSlots(c) == 0)
    case ForwarderFlag => c.forwarder.Received?
    case ForwarderDeliver => c.forwarder.Holding?
    case ForwarderFail => c.forwarder.Holding?
    case ForwarderFinish => c.forwarder.Idle? && c.local == [] && c.phase.Closed?
  }

  ghost function Step(c: Conn, maxPending: nat, a: Action): Conn
    requires Enabled(c, maxPending, a)
  {
    match a
    case Admit(action) => AfterAdmit(c, action)
    case Tick(now) => AfterExpire(c, now)
    case TakeOutbound(now, t) => AfterTransmitStart(c, maxPending, now, t)
    case TransmitEnd(ok) => AfterTransmitEnd(c, ok)
    case ReadResponse(echo) => AfterResponse(c, echo)
    case ReadEvent(event) => AfterEvent(c, event)
    case ReadOther => LeaveSelect(c)
    case MoveOverflow => MoveFront(c).(phase := Flagging)
    case RefreshFlags => AfterFlagging(c)
    case FailAll => AfterFailPending(AfterFailUnsent(c)).(phase := Head)
    case Break => LeaveSelect(c).(phase := Stopping)
    case Unpublish => AfterUnpublish(c)
    case Retire => AfterFailPending(AfterFailUnsent(c)).(phase := Draining)
    case DrainOne => MoveFront(c)
    case DrainStop => AfterDrainStop(c)
    case CloseQueue => c.(phase := Closed)
    case Join => c.(phase := Ended)
    case Abort => AfterAbort(c)
    case ForwarderRecv(assign) => AfterForwarderRecv(c, assign)
    case ForwarderFlag => AfterForwarderFlag(c)
    case ForwarderDeliver => AfterForwarderDeliver(c)
    case ForwarderFail => AfterForwarderFail(c)
    case ForwarderFinish => c.(forwarder := Finished)
  }

  ghost predicate Follows(maxPending: nat, states: seq<Conn>, actions: seq<Action>, n: nat)
    requires n < |actions| < |states|
  {
    Enabled(states[n], maxPending, actions[n]) && states[n + 1] == Step(states[n], maxPending, actions[n])
  }

  ghost predicate Run(maxPending: nat, states: seq<Conn>, actions: seq<Action>) {
    && |states| == |actions| + 1
    && (states[0] == Opened(false) || states[0] == Opened(true))
    && forall n :: 0 <= n < |actions| ==> Follows(maxPending, states, actions, n)
  }

  // ----- the invariant -----

  /** The phases in which the outbound sender is published. */
  predicate Serving(p: Phase) {
    p.Head? || p.Transmitting? || p.Flagging? || p.Overflowed? || p.Stopping?
  }

  predicate Shape(c: Conn, maxPending: nat) {
    && (c.published <==> Serving(c.phase))
    && FreeSlots(c) >= 0 && |c.overflow| <= 2
    && |c.outbound| <= maxPending
    && (c.reserved ==> c.overflow != [] && (c.phase.Head? || c.phase.Draining?) && !QueueClosed(c))
    && (c.phase.Draining? || c.phase.Closed? || c.phase.Ended? || c.phase.Aborted? ==>
       c.outbound == [] && c.pending == map[])
    && (c.phase.Closed? || c.phase.Ended? || c.phase.Aborted? ==> c.overflow == [])
    && (c.phase.Ended? || c.phase.Aborted? ==> QueueClosed(c))
    && (QueueClosed(c) ==> c.local == [])
    && (c.forwarder.Finished? ==> c.phase.Closed? || c.phase.Ended?)
  }

  /** What the phases, the bounds and the flags owe each other. */
  predicate Steady(c: Conn, maxPending: nat) {
    Shape(c, maxPending) && FlagsRight(c) && ReadingIsFree(c)
  }

  predicate PendingFits(c: Conn, maxPending: nat) {
    && |c.pending| <= maxPending && (c.phase.Transmitting? ==> c.phase.echo in c.pending)
    && c.pending.Keys <= c.history.echoes
  }

  predicate FlagsRight(c: Conn) {
    && (c.published ==> (c.producerWaiting <==> c.overflow != [] || c.phase.Flagging?))
    && (c.published && !c.queueFull && !c.producerWaiting ==> FreeSlots(c) > 0)
    && (!c.published ==> !c.producerWaiting)
    && (!c.published && c.queueFull ==> c.local != [] || c.reserved || c.forwarder.Received? || c.forwarder.Failed?)
  }

  predicate ReadingIsFree(c: Conn) {
    && (c.phase.Overflowed? ==> |c.overflow| == 2)
    && (|c.overflow| == 2 ==> !c.phase.Transmitting? && !c.phase.Flagging?)
    && (|c.overflow| == 2 && c.phase.Head? ==> c.outbound == [] && c.pending == map[])
  }

  /** Every admitted action is in exactly one place; those handed to the socket are pending or settled by it. */
  ghost predicate ActionAccounted(c: Conn, id: nat) {
    var h := c.history;
    && h.admitted[id] <= 1
    && h.admitted[id] == Ids(c.outbound)[id] + PendingIds(c.pending)[id] + h.notSent[id] + h.answered[id]
       + h.unknown[id] + h.abandoned[id]
    && PendingIds(c.pending)[id] + h.answered[id] + h.unknown[id] <= h.handed[id]
    && Ids(c.outbound)[id] + h.notSent[id] + h.handed[id] <= h.admitted[id]
    && (!c.phase.Aborted? ==> h.abandoned[id] == 0)
  }

  /** Every accepted event is in exactly one place, as often as it was accepted. */
  predicate EventAccounted(c: Conn, e: Event) {
    && c.history.accepted[e] ==
       c.history.delivered[e] + HeldByForwarder(c)[e] + Count(c.local, e) + Count(c.overflow, e) + c.history.lost[e]
    && (c.history.lost[e] > 0 ==> c.forwarder.Failed?)
  }

  function Count(events: seq<Event>, e: Event): nat {
    multiset(events)[e]
  }

  ghost predicate Valid(c: Conn, maxPending: nat) {
    && Steady(c, maxPending) && PendingFits(c, maxPending)
    && (forall id :: ActionAccounted(c, id))
    && (forall e :: EventAccounted(c, e))
  }

  // ----- every step keeps the invariant -----

  lemma WithoutIsNoLarger(pending: map<nat, Outbound>, gone: set<nat>)
    ensures |pending - gone| <= |pending|
  {
    SubsetIsNoLarger((pending - gone).Keys, pending.Keys);
  }

  lemma WithIsOneLarger(pending: map<nat, Outbound>, echo: nat, action: Outbound)
    ensures |pending[echo := action]| <= |pending| + 1
  {
    assert pending[echo := action].Keys == pending.Keys + {echo};
  }

  predicate ByForwarder(a: Action) {
    a.ForwarderRecv? || a.ForwarderFlag? || a.ForwarderDeliver? || a.ForwarderFail? || a.ForwarderFinish?
  }

  predicate ByTaskOnEvents(a: Action) {
    a.ReadEvent? || a.MoveOverflow? || a.DrainOne? || a.DrainStop? || a.Abort?
  }

  predicate MovesActions(a: Action) {
    a.Admit? || a.Tick? || a.TakeOutbound? || a.TransmitEnd? || a.ReadResponse? || a.FailAll? || a.Retire? || a.Abort?
  }

  predicate SameHistoryOfActions(h: History, k: History) {
    && k.echoes == h.echoes && k.admitted == h.admitted && k.handed == h.handed && k.notSent == h.notSent
    && k.answered == h.answered && k.unknown == h.unknown && k.abandoned == h.abandoned
  }

  /** No action moves, and none begins to be written. */
  predicate SameActions(c: Conn, d: Conn) {
    && d.outbound == c.outbound && d.pending == c.pending && SameHistoryOfActions(c.history, d.history)
    && d.phase.Aborted? == c.phase.Aborted?
    && (d.phase.Transmitting? ==> d.phase == c.phase)
  }

  lemma EventsLeaveActions(c: Conn, event: Event)
    requires c.phase.Head?
    ensures SameActions(c, AfterEvent(c, event))
  {
    var left := LeaveSelect(c);
    if QueueClosed(c) {
      assert AfterEvent(c, event) == left.(phase := Stopping);
    } else if FreeSlots(left) > 0 {
      assert SameActions(c, AfterQueued(left, event));
    } else {
      assert SameActions(c, AfterOverflow(left, event));
    }
  }

  lemma MovesLeaveActions(c: Conn)
    ensures c.phase.Head? && c.overflow != [] ==> SameActions(c, MoveFront(c).(phase := Flagging))
    ensures c.phase.Draining? && c.overflow != [] ==> SameActions(c, MoveFront(c))
    ensures c.phase.Draining? ==> SameActions(c, AfterDrainStop(c))
    ensures c.phase.Flagging? ==> SameActions(c, AfterFlagging(c))
  {
  }

  lemma ForwarderLeavesActions(c: Conn, assign: bool)
    ensures c.local != [] ==> SameActions(c, AfterForwarderRecv(c, assign))
    ensures c.forwarder.Received? ==> SameActions(c, AfterForwarderFlag(c))
    ensures c.forwarder.Holding? ==> SameActions(c, AfterForwarderDeliver(c)) && SameActions(c, AfterForwarderFail(c))
  {
  }

  lemma OthersLeaveActions(c: Conn, maxPending: nat, a: Action)
    requires Enabled(c, maxPending, a) && !MovesActions(a)
    ensures SameActions(c, Step(c, maxPending, a))
  {
    match a
    case ReadEvent(event) => EventsLeaveActions(c, event);
    case MoveOverflow => MovesLeaveActions(c);
    case DrainOne => MovesLeaveActions(c);
    case DrainStop => MovesLeaveActions(c);
    case RefreshFlags => MovesLeaveActions(c);
    case ForwarderRecv(assign) => ForwarderLeavesActions(c, assign);
    case ForwarderFlag => ForwarderLeavesActions(c, false);
    case ForwarderDeliver => ForwarderLeavesActions(c, false);
    case ForwarderFail => ForwarderLeavesActions(c, false);
    case ReadOther =>
    case Break =>
    case Unpublish =>
    case CloseQueue =>
    case Join =>
    case ForwarderFinish =>
  }

  lemma TransmitStartFits(c: Conn, maxPending: nat, now: int, t: Transmission)
    requires PendingFits(c, maxPending) && c.phase.Head? && c.outbound != []
    ensures PendingFits(AfterTransmitStart(c, maxPending, now, t), maxPending)
  {
    if t.Sends? {
      WithIsOneLarger(c.pending, t.echo, c.outbound[0]);
    }
  }

  lemma ExpireFits(c: Conn, maxPending: nat, now: int)
    requires PendingFits(c, maxPending) && c.phase.Head?
    ensures PendingFits(AfterExpire(c, now), maxPending)
  {
    WithoutIsNoLarger(c.pending, Expired(c.pending, now));
  }

  lemma ResponseFits(c: Conn, maxPending: nat, echo: nat)
    requires PendingFits(c, maxPending) && c.phase.Head?
    ensures PendingFits(AfterResponse(c, echo), maxPending)
  {
    WithoutIsNoLarger(c.pending, {echo});
  }

  lemma TransmitEndFits(c: Conn, maxPending: nat, ok: bool)
    requires PendingFits(c, maxPending) && c.phase.Transmitting?
    ensures PendingFits(AfterTransmitEnd(c, ok), maxPending)
  {
    WithoutIsNoLarger(c.pending, {c.phase.echo});
  }

  /** Nothing but the phase matters to the pending map when it stays as it is. */
  lemma SamePendingFits(c: Conn, d: Conn, maxPending: nat)
    requires PendingFits(c, maxPending) && d.pending == c.pending && d.history.echoes == c.history.echoes
    requires d.phase.Transmitting? ==> d.phase == c.phase
    ensures PendingFits(d, maxPending)
  {
  }

  /** There are never more pending actions than the limit, and a frame is written only for a pending one. */
  lemma PendingStillFits(c: Conn, maxPending: nat, a: Action)
    requires PendingFits(c, maxPending) && Enabled(c, maxPending, a)
    ensures PendingFits(Step(c, maxPending, a), maxPending)
  {
    if !MovesActions(a) {
      OthersLeaveActions(c, maxPending, a);
      SamePendingFits(c, Step(c, maxPending, a), maxPending);
    } else {
      match a
      case Admit(action) => SamePendingFits(c, AfterAdmit(c, action), maxPending);
      case Tick(now) => ExpireFits(c, maxPending, now);
      case TakeOutbound(now, t) => TransmitStartFits(c, maxPending, now, t);
      case TransmitEnd(ok) => TransmitEndFits(c, maxPending, ok);
      case ReadResponse(echo) => ResponseFits(c, maxPending, echo);
      case FailAll =>
      case Retire =>
      case Abort =>
    }
  }

  lemma AdmitKeepsSteady(c: Conn, maxPending: nat, action: Outbound)
    requires Steady(c, maxPending) && Admits(c, maxPending)
    ensures Steady(AfterAdmit(c, action), maxPending)
  {
  }

  lemma TickKeepsSteady(c: Conn, maxPending: nat, now: int)
    requires Steady(c, maxPending) && c.phase.Head?
    ensures Steady(AfterExpire(c, now), maxPending)
  {
    if c.pending == map[] {
      assert c.pending - Expired(c.pending, now) == map[];
    }
  }

  lemma TransmitKeepsSteady(c: Conn, maxPending: nat, now: int, t: Transmission)
    requires Steady(c, maxPending) && c.phase.Head? && c.outbound != []
    ensures Steady(AfterTransmitStart(c, maxPending, now, t), maxPending)
  {
  }

  lemma TransmitEndKeepsSteady(c: Conn, maxPending: nat, ok: bool)
    requires Steady(c, maxPending) && c.phase.Transmitting?
    ensures Steady(AfterTransmitEnd(c, ok), maxPending)
  {
  }

  lemma ResponseKeepsSteady(c: Conn, maxPending: nat, echo: nat)
    requires Steady(c, maxPending) && Reads(c)
    ensures Steady(AfterResponse(c, echo), maxPending)
  {
  }

  lemma EventKeepsSteady(c: Conn, maxPending: nat, event: Event)
    requires Steady(c, maxPending) && Reads(c)
    ensures Steady(AfterEvent(c, event), maxPending)
  {
  }

  lemma MoveKeepsSteady(c: Conn, maxPending: nat)
    requires Steady(c, maxPending) && CanMove(c)
    ensures c.phase.Head? ==> Steady(MoveFront(c).(phase := Flagging), maxPending)
    ensures c.phase.Draining? ==> Steady(MoveFront(c), maxPending)
  {
  }

  lemma FlaggingKeepsSteady(c: Conn, maxPending: nat)
    requires Steady(c, maxPending) && c.phase.Flagging?
    ensures Steady(AfterFlagging(c), maxPending)
  {
  }

  lemma FailAllKeepsSteady(c: Conn, maxPending: nat)
    requires Steady(c, maxPending)
    ensures c.phase.Overflowed? ==> Steady(AfterFailPending(AfterFailUnsent(c)).(phase := Head), maxPending)
    ensures c.phase.Unpublished? ==> Steady(AfterFailPending(AfterFailUnsent(c)).(phase := Draining), maxPending)
  {
  }

  lemma LeavingKeepsSteady(c: Conn, maxPending: nat)
    requires Steady(c, maxPending)
    ensures c.phase.Head? ==>
              Steady(LeaveSelect(c), maxPending) && Steady(LeaveSelect(c).(phase := Stopping), maxPending)
    ensures c.phase.Stopping? ==> Steady(AfterUnpublish(c), maxPending)
  {
  }

  lemma ClosingKeepsSteady(c: Conn, maxPending: nat)
    requires Steady(c, maxPending)
    ensures c.phase.Draining? && c.overflow == [] ==> Steady(c.(phase := Closed), maxPending)
    ensures c.phase.Closed? && QueueClosed(c) ==> Steady(c.(phase := Ended), maxPending)
    ensures c.phase.Closed? && c.forwarder.Idle? && c.local == [] ==> Steady(c.(forwarder := Finished), maxPending)
  {
  }

  lemma DrainStopKeepsSteady(c: Conn, maxPending: nat)
    requires Steady(c, maxPending) && Enabled(c, maxPending, DrainStop)
    ensures Steady(AfterDrainStop(c), maxPending)
  {
  }

  lemma AbortKeepsSteady(c: Conn, maxPending: nat)
    requires Steady(c, maxPending) && !c.phase.Ended? && !c.phase.Aborted?
    ensures Steady(AfterAbort(c), maxPending)
  {
  }

  lemma RecvKeepsSteady(c: Conn, maxPending: nat, assign: bool)
    requires Steady(c, maxPending) && Enabled(c, maxPending, ForwarderRecv(assign))
    ensures Steady(AfterForwarderRecv(c, assign), maxPending)
  {
  }

  lemma ForwardingKeepsSteady(c: Conn, maxPending: nat)
    requires Steady(c, maxPending)
    ensures c.forwarder.Received? ==> Steady(AfterForwarderFlag(c), maxPending)
    ensures c.forwarder.Holding? ==>
              Steady(AfterForwarderDeliver(c), maxPending) && Steady(AfterForwarderFail(c), maxPending)
  {
  }

  lemma SteadyStays(c: Conn, maxPending: nat, a: Action)
    requires Steady(c, maxPending) && Enabled(c, maxPending, a)
    ensures Steady(Step(c, maxPending, a), maxPending)
  {
    match a
    case Admit(action) => AdmitKeepsSteady(c, maxPending, action);
    case Tick(now) => TickKeepsSteady(c, maxPending, now);
    case TakeOutbound(now, t) => TransmitKeepsSteady(c, maxPending, now, t);
    case TransmitEnd(ok) => TransmitEndKeepsSteady(c, maxPending, ok);
    case ReadResponse(echo) => ResponseKeepsSteady(c, maxPending, echo);
    case ReadEvent(event) => EventKeepsSteady(c, maxPending, event);
    case MoveOverflow => MoveKeepsSteady(c, maxPending);
    case DrainOne => MoveKeepsSteady(c, maxPending);
    case RefreshFlags => FlaggingKeepsSteady(c, maxPending);
    case FailAll => FailAllKeepsSteady(c, maxPending);
    case Retire => FailAllKeepsSteady(c, maxPending);
    case ReadOther => LeavingKeepsSteady(c, maxPending);
    case Break => LeavingKeepsSteady(c, maxPending);
    case Unpublish => LeavingKeepsSteady(c, maxPending);
    case CloseQueue => ClosingKeepsSteady(c, maxPending);
    case Join => ClosingKeepsSteady(c, maxPending);
    case ForwarderFinish => ClosingKeepsSteady(c, maxPending);
    case DrainStop => DrainStopKeepsSteady(c, maxPending);
    case Abort => AbortKeepsSteady(c, maxPending);
    case ForwarderRecv(assign) => RecvKeepsSteady(c, maxPending, assign);
    case ForwarderFlag => ForwardingKeepsSteady(c, maxPending);
    case ForwarderDeliver => ForwardingKeepsSteady(c, maxPending);
    case ForwarderFail => ForwardingKeepsSteady(c, maxPending);
  }

  lemma CountFront(events: seq<Event>, e: Event)
    requires events != []
    ensures Count(events, e) == Count(events[1..], e) + One(events[0] == e)
  {
    assert events == [events[0]] + events[1..];
  }

  lemma CountBack(events: seq<Event>, event: Event, e: Event)
    ensures Count(events + [event], e) == Count(events, e) + One(event == e)
  {
  }

  /** One more accepted event, held at the back of the local queue or of the deque. */
  lemma AcceptKeepsEvent(c: Conn, d: Conn, event: Event, e: Event)
    requires EventAccounted(c, e) && d.forwarder == c.forwarder
    requires d.history == c.history.(accepted := c.history.accepted + multiset{event})
    requires || (d.local == c.local + [event] && d.overflow == c.overflow)
             || (d.local == c.local && d.overflow == c.overflow + [event])
    ensures EventAccounted(d, e)
  {
    assert d.history.accepted[e] == c.history.accepted[e] + One(event == e);
    if d.local == c.local {
      CountBack(c.overflow, event, e);
    } else {
      CountBack(c.local, event, e);
    }
  }

  lemma ReadKeepsEvent(c: Conn, event: Event, e: Event)
    requires EventAccounted(c, e)
    ensures EventAccounted(AfterEvent(c, event), e)
  {
    if !QueueClosed(c) {
      AcceptKeepsEvent(c, AfterEvent(c, event), event, e);
    }
  }

  lemma MoveKeepsEvent(c: Conn, e: Event)
    requires EventAccounted(c, e) && c.overflow != []
    ensures EventAccounted(MoveFront(c), e)
  {
    CountFront(c.overflow, e);
    CountBack(c.local, c.overflow[0], e);
  }

  lemma RecvKeepsEvent(c: Conn, assign: bool, e: Event)
    requires EventAccounted(c, e) && c.local != [] && c.forwarder.Idle?
    ensures EventAccounted(AfterForwarderRecv(c, assign), e)
  {
    CountFront(c.local, e);
  }

  lemma DeliverKeepsEvent(c: Conn, e: Event)
    requires EventAccounted(c, e) && c.forwarder.Holding?
    ensures EventAccounted(AfterForwarderDeliver(c), e)
  {
  }

  lemma FailureKeepsEvent(c: Conn, e: Event)
    requires EventAccounted(c, e) && c.forwarder.Holding?
    ensures EventAccounted(AfterForwarderFail(c), e)
  {
    assert AfterForwarderFail(c).history.lost[e] == c.history.lost[e] + HeldByForwarder(c)[e] + Count(c.local, e);
  }

  lemma AbortKeepsEvent(c: Conn, e: Event)
    requires EventAccounted(c, e)
    ensures EventAccounted(AfterAbort(c), e)
  {
    assert AfterAbort(c).history.lost[e] == c.history.lost[e] + HeldByForwarder(c)[e] + Count(c.local, e)
           + Count(c.overflow, e);
  }

  lemma DrainStopKeepsEvent(c: Conn, maxPending: nat, e: Event)
    requires Shape(c, maxPending) && EventAccounted(c, e) && Enabled(c, maxPending, DrainStop)
    ensures EventAccounted(Step(c, maxPending, DrainStop), e)
  {
  }

  predicate SameEvents(c: Conn, d: Conn) {
    && d.local == c.local && d.overflow == c.overflow && d.forwarder == c.forwarder
    && d.history.accepted == c.history.accepted && d.history.delivered == c.history.delivered
       && d.history.lost == c.history.lost
  }

  lemma SendingLeavesEvents(c: Conn, maxPending: nat, action: Outbound, now: int, t: Transmission)
    ensures SameEvents(c, AfterAdmit(c, action))
    ensures c.outbound != [] ==> SameEvents(c, AfterTransmitStart(c, maxPending, now, t))
  {
  }

  lemma SettlingLeavesEvents(c: Conn, now: int, ok: bool, echo: nat)
    ensures SameEvents(c, AfterExpire(c, now)) && SameEvents(c, AfterResponse(c, echo))
    ensures c.phase.Transmitting? ==> SameEvents(c, AfterTransmitEnd(c, ok))
    ensures SameEvents(c, AfterFailPending(AfterFailUnsent(c)))
  {
  }

  lemma OthersLeaveEvents(c: Conn, maxPending: nat, a: Action)
    requires Enabled(c, maxPending, a) && !ByForwarder(a) && !ByTaskOnEvents(a)
    ensures SameEvents(c, Step(c, maxPending, a))
  {
    match a
    case Admit(action) => SendingLeavesEvents(c, maxPending, action, 0, DoesNotEncode);
    case TakeOutbound(now, t) => SendingLeavesEvents(c, maxPending, Outbound(0, 0), now, t);
    case Tick(now) => SettlingLeavesEvents(c, now, false, 0);
    case TransmitEnd(ok) => SettlingLeavesEvents(c, 0, ok, 0);
    case ReadResponse(echo) => SettlingLeavesEvents(c, 0, false, echo);
    case FailAll => SettlingLeavesEvents(c, 0, false, 0);
    case Retire => SettlingLeavesEvents(c, 0, false, 0);
    case ReadOther =>
    case RefreshFlags =>
    case Break =>
    case Unpublish =>
    case CloseQueue =>
    case Join =>
  }

  lemma ForwarderKeepsEvent(c: Conn, maxPending: nat, a: Action, e: Event)
    requires EventAccounted(c, e) && Enabled(c, maxPending, a) && ByForwarder(a)
    ensures EventAccounted(Step(c, maxPending, a), e)
  {
    match a
    case ForwarderRecv(assign) => RecvKeepsEvent(c, assign, e);
    case ForwarderDeliver => DeliverKeepsEvent(c, e);
    case ForwarderFail => FailureKeepsEvent(c, e);
    case _ =>
  }

  lemma TaskKeepsEvent(c: Conn, maxPending: nat, a: Action, e: Event)
    requires Shape(c, maxPending) && EventAccounted(c, e) && Enabled(c, maxPending, a) && ByTaskOnEvents(a)
    ensures EventAccounted(Step(c, maxPending, a), e)
  {
    match a
    case ReadEvent(event) => ReadKeepsEvent(c, event, e);
    case MoveOverflow => MoveKeepsEvent(c, e);
    case DrainOne => MoveKeepsEvent(c, e);
    case DrainStop => DrainStopKeepsEvent(c, maxPending, e);
    case Abort => AbortKeepsEvent(c, e);
  }

  /** Moving an event between the deque, the local queue and the forwarder loses and duplicates nothing. */
  lemma EventStaysAccounted(c: Conn, maxPending: nat, a: Action, e: Event)
    requires Shape(c, maxPending) && EventAccounted(c, e) && Enabled(c, maxPending, a)
    ensures EventAccounted(Step(c, maxPending, a), e)
  {
    if ByForwarder(a) {
      ForwarderKeepsEvent(c, maxPending, a, e);
    } else if ByTaskOnEvents(a) {
      TaskKeepsEvent(c, maxPending, a, e);
    } else {
      OthersLeaveEvents(c, maxPending, a);
    }
  }

  lemma AdmitKeepsAction(c: Conn, maxPending: nat, action: Outbound, id: nat)
    requires ActionAccounted(c, id) && Enabled(c, maxPending, Admit(action))
    ensures ActionAccounted(AfterAdmit(c, action), id)
  {
    IdsAppend(c.outbound, action);
    assert AfterAdmit(c, action).history.admitted[id] == c.history.admitted[id] + One(action.id == id);
    assert Ids(AfterAdmit(c, action).outbound)[id] == Ids(c.outbound)[id] + One(action.id == id);
  }

  lemma RefusalKeepsAction(c: Conn, d: Conn, id: nat)
    requires ActionAccounted(c, id) && c.outbound != [] && d.outbound == c.outbound[1..] && d.pending == c.pending
    requires d.phase == c.phase && d.history == c.history.(notSent := c.history.notSent + multiset{c.outbound[0].id})
    ensures ActionAccounted(d, id)
  {
    assert Ids(c.outbound)[id] == Ids(d.outbound)[id] + One(c.outbound[0].id == id);
    assert d.history.notSent[id] == c.history.notSent[id] + One(c.outbound[0].id == id);
  }

  lemma HandOverKeepsAction(c: Conn, d: Conn, echo: nat, id: nat)
    requires ActionAccounted(c, id) && c.outbound != [] && d.outbound == c.outbound[1..]
    requires echo !in c.pending && d.pending == c.pending[echo := c.outbound[0]]
    requires d.phase == Transmitting(echo) && c.phase.Head?
    requires d.history.handed == c.history.handed + multiset{c.outbound[0].id}
    requires d.history == c.history.(handed := d.history.handed, echoes := d.history.echoes)
    ensures ActionAccounted(d, id)
  {
    assert Ids(c.outbound)[id] == Ids(d.outbound)[id] + One(c.outbound[0].id == id);
    assert PendingIds(d.pending)[id] == PendingIds(c.pending)[id] + One(c.outbound[0].id == id) by {
      PendingIdsWith(c.pending, echo, c.outbound[0]);
    }
    assert d.history.handed[id] == c.history.handed[id] + One(c.outbound[0].id == id);
  }

  lemma TransmitStartKeepsAction(c: Conn, maxPending: nat, now: int, t: Transmission, id: nat)
    requires PendingFits(c, maxPending) && ActionAccounted(c, id) && Enabled(c, maxPending, TakeOutbound(now, t))
    ensures ActionAccounted(AfterTransmitStart(c, maxPending, now, t), id)
  {
    var d := AfterTransmitStart(c, maxPending, now, t);
    if d.phase.Head? {
      RefusalKeepsAction(c, d, id);
    } else {
      HandOverKeepsAction(c, d, t.echo, id);
    }
  }

  /** One pending action is settled, as answered or as unknown. */
  lemma SettleOneKeepsAction(c: Conn, d: Conn, echo: nat, id: nat)
    requires ActionAccounted(c, id) && echo in c.pending && d.pending == c.pending - {echo}
    requires d.outbound == c.outbound && d.phase.Aborted? == c.phase.Aborted?
    requires || d.history == c.history.(unknown := c.history.unknown + multiset{c.pending[echo].id})
             || d.history == c.history.(answered := c.history.answered + multiset{c.pending[echo].id})
    ensures ActionAccounted(d, id)
  {
    PendingIdsWithout(c.pending, echo);
    assert PendingIds(c.pending)[id] == PendingIds(d.pending)[id] + One(c.pending[echo].id == id);
    assert d.history.answered[id] + d.history.unknown[id] == c.history.answered[id] + c.history.unknown[id]
           + One(c.pending[echo].id == id);
  }

  lemma ExpireKeepsAction(c: Conn, now: int, id: nat)
    requires ActionAccounted(c, id)
    ensures ActionAccounted(AfterExpire(c, now), id)
  {
    var expired := Expired(c.pending, now);
    PendingIdsSplit(c.pending, expired);
    assert AfterExpire(c, now).history.unknown[id] == c.history.unknown[id]
           + PendingIds(Restrict(c.pending, expired))[id];
    assert PendingIds(c.pending)[id] == PendingIds(c.pending - expired)[id]
           + PendingIds(Restrict(c.pending, expired))[id];
  }

  lemma FailAllKeepsAction(c: Conn, phase: Phase, id: nat)
    requires ActionAccounted(c, id) && !c.phase.Aborted? && !phase.Aborted?
    ensures ActionAccounted(AfterFailPending(AfterFailUnsent(c)).(phase := phase), id)
  {
    var d := AfterFailPending(AfterFailUnsent(c));
    assert d.history.notSent[id] == c.history.notSent[id] + Ids(c.outbound)[id];
    assert d.history.unknown[id] == c.history.unknown[id] + PendingIds(c.pending)[id];
  }

  lemma AbortKeepsAction(c: Conn, id: nat)
    requires ActionAccounted(c, id)
    ensures ActionAccounted(AfterAbort(c), id)
  {
    var d := AfterAbort(c);
    assert d.history.abandoned[id] == c.history.abandoned[id] + Ids(c.outbound)[id] + PendingIds(c.pending)[id];
    assert Ids(d.outbound) == multiset{} && PendingIds(d.pending) == multiset{};
  }

  lemma TransmitEndKeepsAction(c: Conn, ok: bool, id: nat)
    requires ActionAccounted(c, id) && c.phase.Transmitting?
    ensures ActionAccounted(AfterTransmitEnd(c, ok), id)
  {
    if !ok && c.phase.echo in c.pending {
      SettleOneKeepsAction(c, AfterTransmitEnd(c, ok), c.phase.echo, id);
    }
  }

  lemma ResponseKeepsAction(c: Conn, echo: nat, id: nat)
    requires ActionAccounted(c, id)
    ensures ActionAccounted(AfterResponse(c, echo), id)
  {
    if echo in c.pending {
      SettleOneKeepsAction(c, AfterResponse(c, echo), echo, id);
    }
  }

  lemma SameActionsAccounted(c: Conn, d: Conn, id: nat)
    requires ActionAccounted(c, id) && SameActions(c, d)
    ensures ActionAccounted(d, id)
  {
  }

  lemma ActionStaysAccounted(c: Conn, maxPending: nat, a: Action, id: nat)
    requires PendingFits(c, maxPending) && ActionAccounted(c, id) && Enabled(c, maxPending, a)
    ensures ActionAccounted(Step(c, maxPending, a), id)
  {
    if !MovesActions(a) {
      OthersLeaveActions(c, maxPending, a);
      SameActionsAccounted(c, Step(c, maxPending, a), id);
    } else {
      match a
      case Admit(action) => AdmitKeepsAction(c, maxPending, action, id);
      case Tick(now) => ExpireKeepsAction(c, now, id);
      case TakeOutbound(now, t) => TransmitStartKeepsAction(c, maxPending, now, t, id);
      case TransmitEnd(ok) => TransmitEndKeepsAction(c, ok, id);
      case ReadResponse(echo) => ResponseKeepsAction(c, echo, id);
      case FailAll => FailAllKeepsAction(c, Head, id);
      case Retire => FailAllKeepsAction(c, Draining, id);
      case Abort => AbortKeepsAction(c, id);
    }
  }

  lemma StepKeepsValid(c: Conn, maxPending: nat, a: Action)
    requires Valid(c, maxPending) && Enabled(c, maxPending, a)
    ensures Valid(Step(c, maxPending, a), maxPending)
  {
    SteadyStays(c, maxPending, a);
    PendingStillFits(c, maxPending, a);
    forall id ensures ActionAccounted(Step(c, maxPending, a), id) {
      ActionStaysAccounted(c, maxPending, a, id);
    }
    forall e ensures EventAccounted(Step(c, maxPending, a), e) {
      EventStaysAccounted(c, maxPending, a, e);
    }
  }

  lemma OpenedIsValid(maxPending: nat, leftOverFlag: bool)
    ensures Valid(Opened(leftOverFlag), maxPending)
  {
  }

  lemma NextIsValid(maxPending: nat, states: seq<Conn>, actions: seq<Action>, n: nat)
    requires n < |actions| < |states| && Follows(maxPending, states, actions, n) && Valid(states[n], maxPending)
    ensures Valid(states[n + 1], maxPending)
  {
    StepKeepsValid(states[n], maxPending, actions[n]);
  }

  lemma {:induction false} RunsAreValid(maxPending: nat, states: seq<Conn>, actions: seq<Action>, n: nat)
    requires Run(maxPending, states, actions) && n < |states|
    ensures Valid(states[n], maxPending)
  {
    if n == 0 {
      OpenedIsValid(maxPending, states[0] == Opened(true));
    } else {
      RunsAreValid(maxPending, states, actions, n - 1);
      NextIsValid(maxPending, states, actions, n - 1);
    }
  }
}
