/** In which order events are delivered, and exactly when that is the order in which they were read. */
module ConnectionOrder {
  import opened Connection
  import opened ConnectionProperties
  import opened ConnectionRuns

  /** The event the forwarder is about to pass on. */
  function InHand(f: Forwarder): seq<Event> {
    match f
    case Received(event) => [event]
    case Holding(event) => [event]
    case _ => []
  }

  /** Everything held, in the order in which it would be delivered if nothing more were read. */
  function Line(c: Conn): seq<Event> {
    InHand(c.forwarder) + c.local + c.overflow
  }

  /** An event is read into a free slot of the queue while an earlier one waits in the deque. */
  predicate Overtakes(c: Conn, a: Action) {
    a.ReadEvent? && !QueueClosed(c) && c.overflow != [] && FreeSlots(LeaveSelect(c)) > 0
  }

  function AcceptedBy(c: Conn, a: Action): seq<Event> {
    if a.ReadEvent? && !QueueClosed(c) then [a.event] else []
  }

  function DeliveredBy(c: Conn, a: Action): seq<Event> {
    if a.ForwarderDeliver? && c.forwarder.Holding? then [c.forwarder.event] else []
  }

  function Acceptances(states: seq<Conn>, actions: seq<Action>, n: nat): seq<Event>
    requires n <= |actions| < |states|
  {
    if n == 0 then [] else Acceptances(states, actions, n - 1) + AcceptedBy(states[n - 1], actions[n - 1])
  }

  function Deliveries(states: seq<Conn>, actions: seq<Action>, n: nat): seq<Event>
    requires n <= |actions| < |states|
  {
    if n == 0 then [] else Deliveries(states, actions, n - 1) + DeliveredBy(states[n - 1], actions[n - 1])
  }

  /** What has been delivered, and after it what is still held. */
  function Sequence(states: seq<Conn>, actions: seq<Action>, n: nat): seq<Event>
    requires n <= |actions| < |states|
  {
    Deliveries(states, actions, n) + Line(states[n])
  }

  ghost predicate InOrder(states: seq<Conn>, actions: seq<Action>, n: nat)
    requires n <= |actions| < |states|
  {
    forall k :: 0 <= k < n ==> !Overtakes(states[k], actions[k])
  }

  // ----- one step -----

  /** What a step does to the events delivered and held: nothing is added, or the accepted event is, at the end or, when
      it overtakes, in front of the deque. */
  predicate Extends(c: Conn, a: Action, before: seq<Event>, after: seq<Event>) {
    if Overtakes(c, a) then |c.overflow| <= |before| && after == Inserted(before, |c.overflow|, a.event)
    else after == before + AcceptedBy(c, a)
  }

  function Inserted(s: seq<Event>, behind: nat, event: Event): seq<Event>
    requires behind <= |s|
  {
    s[..|s| - behind] + [event] + s[|s| - behind..]
  }

  /** Behind `ahead` and before the deque, which may be empty. */
  lemma InsertedAhead(ahead: seq<Event>, overflow: seq<Event>, event: Event)
    ensures Inserted(ahead + overflow, |overflow|, event) == ahead + [event] + overflow
    ensures overflow == [] ==> ahead + [event] + overflow == ahead + overflow + [event]
  {
    var s := ahead + overflow;
    assert s[..|s| - |overflow|] == ahead && s[|s| - |overflow|..] == overflow;
  }

  lemma QueuedLine(c: Conn, event: Event)
    ensures Line(AfterQueued(LeaveSelect(c), event)) == InHand(c.forwarder) + c.local + [event] + c.overflow
  {
    assert InHand(c.forwarder) + (c.local + [event]) == InHand(c.forwarder) + c.local + [event];
  }

  lemma AsideLine(c: Conn, event: Event)
    ensures Line(AfterOverflow(LeaveSelect(c), event)) == Line(c) + [event]
  {
    var ahead := InHand(c.forwarder) + c.local;
    assert ahead + (c.overflow + [event]) == ahead + c.overflow + [event];
  }

  lemma ReadLine(c: Conn, event: Event)
    ensures Extends(c, ReadEvent(event), Line(c), Line(AfterEvent(c, event)))
  {
    if QueueClosed(c) {
      assert Line(AfterEvent(c, event)) == Line(c);
    } else if FreeSlots(LeaveSelect(c)) > 0 {
      QueuedLine(c, event);
      InsertedAhead(InHand(c.forwarder) + c.local, c.overflow, event);
    } else {
      AsideLine(c, event);
    }
  }

  /** Where an event goes that is read: into a free slot of the queue, and otherwise into the deque, where a second one
      makes the loop fail its actions; once the forwarder has ended the event is dropped and the loop stops. */
  lemma ReadGoesExactlyWhere(c: Conn, maxPending: nat, event: Event)
    requires Shape(c, maxPending) && Enabled(c, maxPending, ReadEvent(event))
    ensures var d, closed := Step(c, maxPending, ReadEvent(event)), c.forwarder.Finished? || c.forwarder.Failed?;
            var free := |c.local| < MAX_PENDING_EVENTS_PER_CONNECTION - 3;
            && d.local == c.local + (if !closed && free then [event] else [])
            && d.overflow == c.overflow + (if !closed && !free then [event] else [])
            && d.history.accepted == c.history.accepted + (if closed then multiset{} else multiset{event})
            && (d.phase.Stopping? <==> closed)
            && (d.phase.Overflowed? <==> !closed && !free && |c.overflow| == 1)
            && (d.phase.Head? <==> !closed && (free || c.overflow == []))
  {
  }

  lemma Joined(s: seq<Event>, t: seq<Event>, u: seq<Event>)
    ensures s + (t + u) == s + t + u
  {
  }

  lemma InsertedBehind(delivered: seq<Event>, before: seq<Event>, behind: nat, event: Event)
    requires behind <= |before|
    ensures Inserted(delivered + before, behind, event) == delivered + Inserted(before, behind, event)
  {
    var ahead, rest := before[..|before| - behind], before[|before| - behind..];
    assert before == ahead + rest;
    InsertedAhead(ahead, rest, event);
    InsertedAhead(delivered + ahead, rest, event);
    Joined(delivered, ahead, rest);
    Joined(delivered, ahead + [event], rest);
    Joined(delivered, ahead, [event]);
  }

  lemma ExtendsBehind(c: Conn, a: Action, delivered: seq<Event>, before: seq<Event>, after: seq<Event>)
    requires Extends(c, a, before, after)
    ensures Extends(c, a, delivered + before, delivered + after)
  {
    if Overtakes(c, a) {
      InsertedBehind(delivered, before, |c.overflow|, a.event);
    } else {
      Joined(delivered, before, AcceptedBy(c, a));
    }
  }

  lemma ReceivingKeepsLine(c: Conn, assign: bool)
    requires c.local != [] && c.forwarder.Idle?
    ensures Line(AfterForwarderRecv(c, assign)) == Line(c)
  {
    assert c.local == [c.local[0]] + c.local[1..];
  }

  lemma MovingKeepsLine(c: Conn)
    requires c.overflow != []
    ensures Line(MoveFront(c)) == Line(c)
  {
    assert c.overflow == [c.overflow[0]] + c.overflow[1..];
  }

  lemma SameEventsSameLine(c: Conn, d: Conn)
    requires SameEvents(c, d)
    ensures Line(d) == Line(c)
  {
  }

  predicate Loses(a: Action) {
    a.ForwarderFail? || a.Abort?
  }

  /** While the forwarder has not failed, every step but a failure or an abort extends the sequence. */
  lemma StepExtends(c: Conn, maxPending: nat, a: Action, delivered: seq<Event>)
    requires Shape(c, maxPending) && Enabled(c, maxPending, a) && !c.forwarder.Failed? && !Loses(a)
    ensures Extends(c, a, delivered + Line(c), delivered + DeliveredBy(c, a) + Line(Step(c, maxPending, a)))
  {
    Joined(delivered, DeliveredBy(c, a), Line(Step(c, maxPending, a)));
    LineExtends(c, maxPending, a);
    ExtendsBehind(c, a, delivered, Line(c), DeliveredBy(c, a) + Line(Step(c, maxPending, a)));
  }

  lemma LineExtends(c: Conn, maxPending: nat, a: Action)
    requires Shape(c, maxPending) && Enabled(c, maxPending, a) && !c.forwarder.Failed? && !Loses(a)
    ensures Extends(c, a, Line(c), DeliveredBy(c, a) + Line(Step(c, maxPending, a)))
  {
    if a.ReadEvent? {
      ReadLine(c, a.event);
      NothingBefore(Line(Step(c, maxPending, a)));
    } else if ByForwarder(a) {
      ForwarderExtends(c, maxPending, a);
    } else {
      OthersKeepLine(c, maxPending, a);
      NothingBefore(Line(c));
    }
  }

  lemma NothingBefore(s: seq<Event>)
    ensures [] + s == s == s + []
  {
  }

  lemma OthersKeepLine(c: Conn, maxPending: nat, a: Action)
    requires Shape(c, maxPending) && Enabled(c, maxPending, a) && !c.forwarder.Failed? && !Loses(a)
    requires !ByForwarder(a) && !a.ReadEvent?
    ensures Line(Step(c, maxPending, a)) == Line(c)
  {
    if ByTaskOnEvents(a) {
      match a
      case MoveOverflow => MovingKeepsLine(c);
      case DrainOne => MovingKeepsLine(c);
      case DrainStop =>
    } else {
      OthersLeaveEvents(c, maxPending, a);
      SameEventsSameLine(c, Step(c, maxPending, a));
    }
  }

  lemma ForwarderExtends(c: Conn, maxPending: nat, a: Action)
    requires Enabled(c, maxPending, a) && ByForwarder(a) && !Loses(a)
    ensures DeliveredBy(c, a) + Line(Step(c, maxPending, a)) == Line(c)
  {
    match a
    case ForwarderRecv(assign) => ReceivingKeepsLine(c, assign);
    case ForwarderFlag =>
    case ForwarderDeliver =>
    case ForwarderFinish =>
  }

  // ----- runs -----

  ghost predicate NothingLost(actions: seq<Action>, n: nat)
    requires n <= |actions|
  {
    forall k :: 0 <= k < n ==> !Loses(actions[k])
  }

  lemma SequenceExtends(maxPending: nat, states: seq<Conn>, actions: seq<Action>, n: nat)
    requires Run(maxPending, states, actions) && n < |actions| && NothingLost(actions, n + 1)
    ensures Extends(states[n], actions[n], Sequence(states, actions, n), Sequence(states, actions, n + 1))
  {
    assert Follows(maxPending, states, actions, n);
    RunsAreValid(maxPending, states, actions, n);
    OnlyFailuresFail(maxPending, states, actions, n);
    StepExtends(states[n], maxPending, actions[n], Deliveries(states, actions, n));
  }

  /** Without an overtaking read, what is delivered and what is held are together what was accepted, in that order. */
  lemma {:induction false} OrderIsKept(maxPending: nat, states: seq<Conn>, actions: seq<Action>, n: nat)
    requires Run(maxPending, states, actions) && n <= |actions|
    requires NothingLost(actions, n) && InOrder(states, actions, n)
    ensures Sequence(states, actions, n) == Acceptances(states, actions, n)
  {
    if n > 0 {
      OrderIsKept(maxPending, states, actions, n - 1);
      assert !Overtakes(states[n - 1], actions[n - 1]);
      SequenceExtends(maxPending, states, actions, n - 1);
    }
  }

  predicate Precedes(s: seq<Event>, e: Event, f: Event) {
    exists i, j :: 0 <= i < j < |s| && s[i] == e && s[j] == f
  }

  predicate Distinct(s: seq<Event>) {
    forall i, j :: 0 <= i < j < |s| ==> s[i] != s[j]
  }

  lemma InsertingKeepsOrder(s: seq<Event>, behind: nat, event: Event, e: Event, f: Event)
    requires behind <= |s| && Precedes(s, e, f)
    ensures Precedes(Inserted(s, behind, event), e, f)
  {
    var i, j :| 0 <= i < j < |s| && s[i] == e && s[j] == f;
    var t, at := Inserted(s, behind, event), |s| - behind;
    var i', j' := if i < at then i else i + 1, if j < at then j else j + 1;
    assert t[i'] == e && t[j'] == f;
  }

  lemma AppendingKeepsOrder(s: seq<Event>, t: seq<Event>, e: Event, f: Event)
    requires Precedes(s, e, f)
    ensures Precedes(s + t, e, f)
  {
    var i, j :| 0 <= i < j < |s| && s[i] == e && s[j] == f;
    assert (s + t)[i] == e && (s + t)[j] == f;
  }

  lemma ExtendingKeepsOrder(c: Conn, a: Action, before: seq<Event>, after: seq<Event>, e: Event, f: Event)
    requires Extends(c, a, before, after) && Precedes(before, e, f)
    ensures Precedes(after, e, f)
  {
    if Overtakes(c, a) {
      InsertingKeepsOrder(before, |c.overflow|, a.event, e, f);
    } else {
      AppendingKeepsOrder(before, AcceptedBy(c, a), e, f);
    }
  }

  /** Once one event is before another, it is delivered before it. */
  lemma {:induction false} OrderStays(maxPending: nat, states: seq<Conn>, actions: seq<Action>, m: nat, n: nat,
      e: Event, f: Event)
    requires Run(maxPending, states, actions) && m <= n <= |actions| && NothingLost(actions, n)
    requires Precedes(Sequence(states, actions, m), e, f)
    ensures Precedes(Sequence(states, actions, n), e, f)
  {
    if m < n {
      OrderStays(maxPending, states, actions, m, n - 1, e, f);
      SequenceExtends(maxPending, states, actions, n - 1);
      ExtendingKeepsOrder(states[n - 1], actions[n - 1], Sequence(states, actions, n - 1),
                          Sequence(states, actions, n), e, f);
    }
  }

  lemma {:induction false} AcceptancesStay(states: seq<Conn>, actions: seq<Action>, m: nat, n: nat, e: Event, f: Event)
    requires m <= n <= |actions| < |states| && Precedes(Acceptances(states, actions, m), e, f)
    ensures Precedes(Acceptances(states, actions, n), e, f)
  {
    if m < n {
      AcceptancesStay(states, actions, m, n - 1, e, f);
      AppendingKeepsOrder(Acceptances(states, actions, n - 1), AcceptedBy(states[n - 1], actions[n - 1]), e, f);
    }
  }

  lemma NewlyHeld(c: Conn, a: Action, before: seq<Event>, after: seq<Event>, e: Event)
    requires Extends(c, a, before, after) && e in after
    ensures e in before || e in AcceptedBy(c, a)
  {
  }

  lemma {:induction false} OnlyAcceptedIsHeld(maxPending: nat, states: seq<Conn>, actions: seq<Action>, n: nat,
      e: Event)
    requires Run(maxPending, states, actions) && n <= |actions| && NothingLost(actions, n)
    requires e in Sequence(states, actions, n)
    ensures e in Acceptances(states, actions, n)
  {
    if n > 0 {
      SequenceExtends(maxPending, states, actions, n - 1);
      NewlyHeld(states[n - 1], actions[n - 1], Sequence(states, actions, n - 1), Sequence(states, actions, n), e);
      if e in Sequence(states, actions, n - 1) {
        OnlyAcceptedIsHeld(maxPending, states, actions, n - 1, e);
      }
    }
  }

  /** An overtaking read puts its event before the front of the deque, which was accepted earlier. */
  lemma OvertakingSwaps(maxPending: nat, states: seq<Conn>, actions: seq<Action>, k: nat)
    requires Run(maxPending, states, actions) && k < |actions| && NothingLost(actions, k + 1)
    requires Overtakes(states[k], actions[k])
    ensures Precedes(Sequence(states, actions, k + 1), actions[k].event, states[k].overflow[0])
    ensures Precedes(Acceptances(states, actions, k + 1), states[k].overflow[0], actions[k].event)
  {
    var e, f, behind := actions[k].event, states[k].overflow[0], |states[k].overflow|;
    var s, t := Sequence(states, actions, k), Sequence(states, actions, k + 1);
    SequenceExtends(maxPending, states, actions, k);
    var at := |s| - behind;
    assert s[at] == f;
    assert t[at] == e && t[at + 1] == f;
    OnlyAcceptedIsHeld(maxPending, states, actions, k, f);
    var earlier := Acceptances(states, actions, k);
    var i :| 0 <= i < |earlier| && earlier[i] == f;
    assert (earlier + [e])[i] == f && (earlier + [e])[|earlier|] == e;
  }

  lemma NotBothWays(s: seq<Event>, e: Event, f: Event)
    requires Distinct(s) && Precedes(s, e, f)
    ensures !Precedes(s, f, e)
  {
  }

  /** For distinct events, the order of acceptance is kept exactly as long as no read overtakes. */
  lemma OrderIsKeptExactlyWhen(maxPending: nat, states: seq<Conn>, actions: seq<Action>, n: nat)
    requires Run(maxPending, states, actions) && n <= |actions| && NothingLost(actions, n)
    requires Distinct(Acceptances(states, actions, n))
    ensures Sequence(states, actions, n) == Acceptances(states, actions, n) <==> InOrder(states, actions, n)
  {
    if InOrder(states, actions, n) {
      OrderIsKept(maxPending, states, actions, n);
    } else {
      var k :| 0 <= k < n && Overtakes(states[k], actions[k]);
      var e, f := actions[k].event, states[k].overflow[0];
      OvertakingSwaps(maxPending, states, actions, k);
      OrderStays(maxPending, states, actions, k + 1, n, e, f);
      AcceptancesStay(states, actions, k + 1, n, f, e);
      if Sequence(states, actions, n) == Acceptances(states, actions, n) {
        NotBothWays(Acceptances(states, actions, n), f, e);
        assert false;
      }
    }
  }

  /** A connection that ends without a failure or an abort delivers distinct events in the order in which it accepted
      them exactly when no read overtook. */
  lemma DeliveryOrderExactlyWhen(maxPending: nat, states: seq<Conn>, actions: seq<Action>)
    requires Run(maxPending, states, actions) && states[|actions|].phase.Ended? && NothingLost(actions, |actions|)
    requires Distinct(Acceptances(states, actions, |actions|))
    ensures Deliveries(states, actions, |actions|) == Acceptances(states, actions, |actions|)
            <==> InOrder(states, actions, |actions|)
  {
    var n := |actions|;
    OrderIsKeptExactlyWhen(maxPending, states, actions, n);
    OnlyFailuresFail(maxPending, states, actions, n);
    RunsAreValid(maxPending, states, actions, n);
    assert Line(states[n]) == [];
  }

  // ----- with losses -----

  lemma FailedStaysFailed(c: Conn, maxPending: nat, a: Action)
    requires Enabled(c, maxPending, a) && c.forwarder.Failed?
    ensures Step(c, maxPending, a).forwarder.Failed? && DeliveredBy(c, a) == AcceptedBy(c, a) == []
  {
    if ByTaskOnEvents(a) {
      match a
      case ReadEvent(event) => ReadingLeavesForwarder(c, event);
      case MoveOverflow =>
      case DrainOne =>
      case DrainStop =>
      case Abort =>
    } else if !ByForwarder(a) {
      OthersLeaveEvents(c, maxPending, a);
    }
  }

  lemma LosingStepFails(c: Conn, maxPending: nat, a: Action)
    requires Enabled(c, maxPending, a) && Loses(a)
    ensures Step(c, maxPending, a).forwarder.Failed? && DeliveredBy(c, a) == AcceptedBy(c, a) == []
  {
  }

  lemma {:induction false} InOrderUntilFailure(maxPending: nat, states: seq<Conn>, actions: seq<Action>, n: nat)
    requires Run(maxPending, states, actions) && n <= |actions| && InOrder(states, actions, n)
    ensures Deliveries(states, actions, n) <= Acceptances(states, actions, n)
    ensures !states[n].forwarder.Failed? ==> Sequence(states, actions, n) == Acceptances(states, actions, n)
  {
    if n > 0 {
      var c, a := states[n - 1], actions[n - 1];
      InOrderUntilFailure(maxPending, states, actions, n - 1);
      assert Follows(maxPending, states, actions, n - 1);
      if c.forwarder.Failed? {
        FailedStaysFailed(c, maxPending, a);
      } else if Loses(a) {
        LosingStepFails(c, maxPending, a);
      } else {
        RunsAreValid(maxPending, states, actions, n - 1);
        StepExtends(c, maxPending, a, Deliveries(states, actions, n - 1));
        assert Sequence(states, actions, n) == Acceptances(states, actions, n);
      }
    }
  }

  /** Whatever fails and however the connection ends: as long as no read overtakes, the deliveries are the first of the
      accepted events, in their order. */
  lemma DeliveriesAreFirst(maxPending: nat, states: seq<Conn>, actions: seq<Action>, n: nat)
    requires Run(maxPending, states, actions) && n <= |actions| && InOrder(states, actions, n)
    ensures Deliveries(states, actions, n) <= Acceptances(states, actions, n)
  {
    InOrderUntilFailure(maxPending, states, actions, n);
  }
}
