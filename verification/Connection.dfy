/**
 One OneBot connection: the select loop, the event forwarder, and the admission of actions.

 `Conn` holds the queues and flags of the connection together with a record of what has happened so far.  The
 functions say what one uninterrupted piece of the code does; the class in ConnectionTask does the same to fields it
 updates.
 */
module Connection {
  const MAX_PENDING_EVENTS_PER_CONNECTION := 64

  /** One place is kept for the forwarder and two for the loop's own deque. */
  const LOCAL_QUEUE_CAPACITY := MAX_PENDING_EVENTS_PER_CONNECTION - 3

  type Event = nat

  /** An action with the identity of the caller waiting for it. */
  datatype Outbound = Outbound(id: nat, deadline: int)

  /** `Received` is the moment between taking an event and refreshing the flag. */
  datatype Forwarder = Idle | Received(event: Event) | Holding(event: Event) | Finished | Failed

  /** Where the connection task is.  At `Head` it waits in its select; `Flagging` and `Overflowed` are the moments
      between a branch's change to the queues and its next use of the lock or of the outbound queue. */
  datatype Phase =
    | Head
    | Transmitting(echo: nat)
    | Flagging
    | Overflowed
    | Stopping
    | Unpublished
    | Draining
    | Closed
    | Ended
    | Aborted

  /** What callers were told and what the runtime received; `echoes` are those that frames have carried. */
  datatype History = History(
    echoes: set<nat>,
    admitted: multiset<nat>,
    handed: multiset<nat>,
    notSent: multiset<nat>,
    answered: multiset<nat>,
    unknown: multiset<nat>,
    abandoned: multiset<nat>,
    accepted: multiset<Event>,
    delivered: multiset<Event>,
    lost: multiset<Event>)

  datatype Conn = Conn(
    phase: Phase,
    published: bool,
    queueFull: bool,
    producerWaiting: bool,
    outbound: seq<Outbound>,
    pending: map<nat, Outbound>,
    overflow: seq<Event>,
    local: seq<Event>,
    reserved: bool,
    forwarder: Forwarder,
    history: History)

  const NOTHING_YET :=
    History({}, multiset{}, multiset{}, multiset{}, multiset{}, multiset{}, multiset{}, multiset{}, multiset{},
          multiset{})

  /** A connection starts with empty queues; the full flag may be left over from an earlier connection. */
  function Opened(leftOverFlag: bool): Conn {
    Conn(Head, true, leftOverFlag, false, [], map[], [], [], false, Idle, NOTHING_YET)
  }

  /** Slots of the local queue that nobody uses; a waiting reservation may have been given one. */
  function FreeSlots(c: Conn): int {
    LOCAL_QUEUE_CAPACITY - |c.local| - if c.reserved then 1 else 0
  }

  predicate QueueClosed(c: Conn) {
    c.forwarder.Finished? || c.forwarder.Failed?
  }

  function Ids(actions: seq<Outbound>): multiset<nat> {
    if actions == [] then multiset{} else multiset{actions[0].id} + Ids(actions[1..])
  }

  ghost function PendingIds(pending: map<nat, Outbound>): multiset<nat>
    decreases |pending|
  {
    if pending == map[] then multiset{}
    else
      var echo :| echo in pending;
      assert (pending - {echo}).Keys == pending.Keys - {echo};
      multiset{pending[echo].id} + PendingIds(pending - {echo})
  }

  lemma {:induction false} PendingIdsWithout(pending: map<nat, Outbound>, echo: nat)
    requires echo in pending
    ensures PendingIds(pending) == PendingIds(pending - {echo}) + multiset{pending[echo].id}
    decreases |pending|
  {
    var other :| other in pending && PendingIds(pending) == multiset{pending[other].id} + PendingIds(pending - {other});
    if other != echo {
      var withoutOther, withoutEcho := pending - {other}, pending - {echo};
      assert withoutOther.Keys == pending.Keys - {other} && withoutEcho.Keys == pending.Keys - {echo};
      assert withoutOther - {echo} == withoutEcho - {other};
      PendingIdsWithout(withoutOther, echo);
      PendingIdsWithout(withoutEcho, other);
      SumsRegroup(multiset{pending[other].id}, PendingIds(withoutOther - {echo}), multiset{pending[echo].id});
      SumsRegroup(PendingIds(withoutOther - {echo}), multiset{pending[other].id}, multiset{pending[echo].id});
    }
  }

  lemma PendingIdsWith(pending: map<nat, Outbound>, echo: nat, action: Outbound)
    requires echo !in pending
    ensures PendingIds(pending[echo := action]) == PendingIds(pending) + multiset{action.id}
  {
    assert pending[echo := action] - {echo} == pending;
    PendingIdsWithout(pending[echo := action], echo);
  }

  lemma {:induction false} IdsAppend(actions: seq<Outbound>, action: Outbound)
    ensures Ids(actions + [action]) == Ids(actions) + multiset{action.id}
  {
    if actions == [] {
      assert actions + [action] == [action];
    } else {
      assert (actions + [action])[1..] == actions[1..] + [action];
      IdsAppend(actions[1..], action);
    }
  }

  // ----- admission -----

  /** An action is admitted under the lock: connected, no backpressure, and room in the outbound queue. */
  predicate Admits(c: Conn, maxPending: nat) {
    c.published && !c.queueFull && !c.producerWaiting && |c.outbound| < maxPending
  }

  function AfterAdmit(c: Conn, action: Outbound): Conn {
    c.(outbound := c.outbound + [action], history := c.history.(admitted := c.history.admitted + multiset{action.id}))
  }

  // ----- actions -----

  /** The loop left its select by another branch, so a waiting reservation is given back. */
  function LeaveSelect(c: Conn): Conn {
    c.(reserved := false)
  }

  datatype Transmission = Sends(echo: nat) | DoesNotEncode

  /** The front of the outbound queue is refused, and no frame goes out for it. */
  function AfterRefusal(c: Conn): Conn
    requires c.outbound != []
  {
    LeaveSelect(c).(outbound := c.outbound[1..],
                    history := c.history.(notSent := c.history.notSent + multiset{c.outbound[0].id}))
  }

  /** The front of the outbound queue becomes pending, and its frame goes to the socket. */
  function AfterHandOver(c: Conn, echo: nat): Conn
    requires c.outbound != []
  {
    LeaveSelect(c).(outbound := c.outbound[1..], pending := c.pending[echo := c.outbound[0]],
          phase := Transmitting(echo),
                    history := c.history.(handed := c.history.handed + multiset{c.outbound[0].id},
                                          echoes := c.history.echoes + {echo}))
  }

  function AfterTransmitStart(c: Conn, maxPending: nat, now: int, t: Transmission): Conn
    requires c.outbound != []
  {
    if c.outbound[0].deadline <= now || |c.pending| >= maxPending || t.DoesNotEncode? then AfterRefusal(c)
    else AfterHandOver(c, t.echo)
  }

  /** The socket took the frame, or failed and the action's fate is unknown. */
  function AfterTransmitEnd(c: Conn, ok: bool): Conn
    requires c.phase.Transmitting?
  {
    var echo := c.phase.echo;
    if ok then c.(phase := Head)
    else if echo !in c.pending then c.(phase := Stopping)
    else c.(phase := Stopping, pending := c.pending - {echo},
            history := c.history.(unknown := c.history.unknown + multiset{c.pending[echo].id}))
  }

  function AfterResponse(c: Conn, echo: nat): Conn {
    var left := LeaveSelect(c);
    if echo !in c.pending then left
    else left.(pending := c.pending - {echo},
          history := c.history.(answered := c.history.answered + multiset{c.pending[echo].id}))
  }

  predicate Overdue(action: Outbound, now: int) {
    action.deadline <= now
  }

  function Expired(pending: map<nat, Outbound>, now: int): set<nat> {
    set echo | echo in pending && Overdue(pending[echo], now)
  }

  function Restrict(pending: map<nat, Outbound>, echoes: set<nat>): map<nat, Outbound> {
    map echo | echo in pending && echo in echoes :: pending[echo]
  }

  lemma SumsRegroup(a: multiset<nat>, b: multiset<nat>, one: multiset<nat>)
    ensures a + b + one == a + (b + one) && a + one + b == a + b + one
  {
  }

  lemma {:induction false} PendingIdsSplit(pending: map<nat, Outbound>, gone: set<nat>)
    requires gone <= pending.Keys
    ensures PendingIds(pending) == PendingIds(pending - gone) + PendingIds(Restrict(pending, gone))
  {
    if gone == {} {
      assert pending - gone == pending && Restrict(pending, gone) == map[];
    } else {
      var echo :| echo in gone;
      var rest, fewer, one := pending - {echo}, gone - {echo}, multiset{pending[echo].id};
      PendingIdsSplit(rest, fewer);
      PendingIdsWithout(pending, echo);
      RestrictedIdsWithout(pending, gone, echo);
      WithoutTwice(pending, gone, echo);
      SumsRegroup(PendingIds(pending - gone), PendingIds(Restrict(rest, fewer)), one);
    }
  }

  lemma RestrictedIdsWithout(pending: map<nat, Outbound>, gone: set<nat>, echo: nat)
    requires gone <= pending.Keys && echo in gone
    ensures PendingIds(Restrict(pending, gone))
         == PendingIds(Restrict(pending - {echo}, gone - {echo})) + multiset{pending[echo].id}
  {
    RestrictWithout(pending, gone, echo);
    PendingIdsWithout(Restrict(pending, gone), echo);
  }

  lemma WithoutTwice(pending: map<nat, Outbound>, gone: set<nat>, echo: nat)
    requires echo in gone
    ensures pending - {echo} - (gone - {echo}) == pending - gone
  {
  }

  lemma RestrictWithout(pending: map<nat, Outbound>, gone: set<nat>, echo: nat)
    ensures Restrict(pending, gone) - {echo} == Restrict(pending - {echo}, gone - {echo})
  {
  }

  ghost function AfterExpire(c: Conn, now: int): Conn {
    var expired := Expired(c.pending, now);
    LeaveSelect(c).(pending := c.pending - expired,
                    history := c.history.(unknown := c.history.unknown + PendingIds(Restrict(c.pending, expired))))
  }

  function AfterFailUnsent(c: Conn): Conn {
    c.(outbound := [], history := c.history.(notSent := c.history.notSent + Ids(c.outbound)))
  }

  ghost function AfterFailPending(c: Conn): Conn {
    c.(pending := map[], history := c.history.(unknown := c.history.unknown + PendingIds(c.pending)))
  }

  // ----- events -----

  function Accept(c: Conn, event: Event): Conn {
    c.(history := c.history.(accepted := c.history.accepted + multiset{event}))
  }

  function AfterQueued(c: Conn, event: Event): Conn {
    var sent := Accept(c, event).(local := c.local + [event]);
    sent.(queueFull := FreeSlots(sent) == 0)
  }

  function AfterOverflow(c: Conn, event: Event): Conn {
    Accept(c, event).(overflow := c.overflow + [event], queueFull := true, producerWaiting := true,
                      phase := if |c.overflow| + 1 == 2 then Overflowed else Head)
  }

  /** A mapped event is queued, put into the deque when the queue is full, or refused when the queue is closed. */
  function AfterEvent(c: Conn, event: Event): Conn {
    var left := LeaveSelect(c);
    if QueueClosed(c) then left.(phase := Stopping)
    else if FreeSlots(left) > 0 then AfterQueued(left, event)
    else AfterOverflow(left, event)
  }

  function MoveFront(c: Conn): Conn
    requires c.overflow != []
  {
    c.(overflow := c.overflow[1..], local := c.local + [c.overflow[0]], reserved := false)
  }

  function AfterFlagging(c: Conn): Conn {
    c.(queueFull := FreeSlots(c) == 0, producerWaiting := c.overflow != [], phase := Head)
  }

  function AfterUnpublish(c: Conn): Conn {
    c.(published := false, queueFull := false, producerWaiting := false, phase := Unpublished)
  }

  /** The queue closed under the final flush: what the deque still holds is lost. */
  function AfterDrainStop(c: Conn): Conn {
    c.(overflow := [], phase := Closed, history := c.history.(lost := c.history.lost + multiset(c.overflow)))
  }

  // ----- the forwarder -----

  /** Taking an event frees its slot, or hands it to a reservation that waits for one. */
  function AfterForwarderRecv(c: Conn, assign: bool): Conn
    requires c.local != []
  {
    c.(local := c.local[1..], forwarder := Received(c.local[0]), reserved := c.reserved || assign)
  }

  function AfterForwarderFlag(c: Conn): Conn
    requires c.forwarder.Received?
  {
    c.(queueFull := FreeSlots(c) == 0, forwarder := Holding(c.forwarder.event))
  }

  function AfterForwarderDeliver(c: Conn): Conn
    requires c.forwarder.Holding?
  {
    c.(forwarder := Idle, history := c.history.(delivered := c.history.delivered + multiset{c.forwarder.event}))
  }

  /** The runtime's queue is closed or refuses the event; everything the local queue holds goes with it. */
  function AfterForwarderFail(c: Conn): Conn
    requires c.forwarder.Holding?
  {
    c.(forwarder := Failed, local := [], reserved := false,
       history := c.history.(lost := c.history.lost + multiset{c.forwarder.event} + multiset(c.local)))
  }

  function HeldByForwarder(c: Conn): multiset<Event> {
    if c.forwarder.Received? || c.forwarder.Holding? then multiset{c.forwarder.event} else multiset{}
  }

  /** The guard of a dropped task unpublishes the connection and stops the forwarder; the queues go with them. */
  function AfterReset(c: Conn): Conn {
    Conn(Aborted, false, if c.published then false else c.queueFull, if c.published then false else c.producerWaiting,
         [], map[], [], [], false, Failed, c.history)
  }

  /** Nothing that is queued or pending is settled or delivered any more. */
  ghost function AfterAbort(c: Conn): Conn {
    AfterReset(c).(history :=
      c.history.(abandoned := c.history.abandoned + Ids(c.outbound) + PendingIds(c.pending),
                 lost := c.history.lost + HeldByForwarder(c) + multiset(c.local) + multiset(c.overflow)))
  }
}
