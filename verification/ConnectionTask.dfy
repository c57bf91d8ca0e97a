/** The connection as the code updates it: shared flags, queues and the pending map, changed in place. */
module ConnectionTask {
  import opened Connection
  import opened ConnectionProperties
  import opened ConnectionRuns

  datatype Admission = Admitted | NotConnected | Backpressured | QueueUnavailable

  /** `done` was taken out of `before` and settled as unknown, which leaves `now`. */
  ghost predicate TakenOut(before: map<nat, Outbound>, done: set<nat>, now: map<nat, Outbound>,
      unknownBefore: multiset<nat>, unknown: multiset<nat>) {
    now == before - done && unknown == unknownBefore + PendingIds(Restrict(before, done))
  }

  lemma TakeOneOut(before: map<nat, Outbound>, done: set<nat>, now: map<nat, Outbound>, unknownBefore: multiset<nat>,
      unknown: multiset<nat>, echo: nat)
    requires TakenOut(before, done, now, unknownBefore, unknown) && echo in before && echo !in done
    ensures TakenOut(before, done + {echo}, now - {echo}, unknownBefore, unknown + multiset{before[echo].id})
  {
    var more := Restrict(before, done + {echo});
    assert more - {echo} == Restrict(before, done);
    PendingIdsWithout(more, echo);
    assert now - {echo} == before - (done + {echo});
  }

  /** What is settled and what is left make up what there was before. */
  predicate SameSum(settled: multiset<nat>, left: multiset<nat>, settledBefore: multiset<nat>,
      leftBefore: multiset<nat>) {
    settled + left == settledBefore + leftBefore
  }

  lemma SameSumStep(settled: multiset<nat>, left: multiset<nat>, id: nat, settledBefore: multiset<nat>,
      leftBefore: multiset<nat>)
    requires SameSum(settled, left + multiset{id}, settledBefore, leftBefore)
    ensures SameSum(settled + multiset{id}, left, settledBefore, leftBefore)
  {
  }

  class OneBotConnection {
    const maxPending: nat
    var phase: Phase
    var published: bool
    var queueFull: bool
    var producerWaiting: bool
    var outbound: seq<Outbound>
    var pending: map<nat, Outbound>
    var overflow: seq<Event>
    var local: seq<Event>
    var reserved: bool
    var forwarder: Forwarder
    ghost var history: History

    ghost function State(): Conn
      reads this
    {
      Conn(phase, published, queueFull, producerWaiting, outbound, pending, overflow, local, reserved, forwarder,
            history)
    }

    /** A new connection takes over the flags as it finds them. */
    constructor (maxPending: nat, leftOverFlag: bool)
      ensures State() == Opened(leftOverFlag) && this.maxPending == maxPending
    {
      this.maxPending := maxPending;
      phase, published, queueFull, producerWaiting := Head, true, leftOverFlag, false;
      outbound, pending, overflow, local := [], map[], [], [];
      reserved, forwarder, history := false, Idle, NOTHING_YET;
    }

    function Capacity(): int
      reads this
    {
      LOCAL_QUEUE_CAPACITY - |local| - if reserved then 1 else 0
    }

    // ----- callers -----

    method Admit(action: Outbound) returns (admission: Admission)
      modifies this`outbound, this`history
      ensures admission.Admitted? <==> Admits(old(State()), maxPending)
      ensures admission.NotConnected? <==> !old(published)
      ensures admission.Backpressured? <==> old(published && (queueFull || producerWaiting))
      ensures admission.Admitted? ==> outbound == old(outbound) + [action]
      ensures State() == if admission.Admitted? then AfterAdmit(old(State()), action) else old(State())
    {
      if !published {
        return NotConnected;
      }
      if queueFull || producerWaiting {
        return Backpressured;
      }
      if |outbound| >= maxPending {
        return QueueUnavailable;
      }
      outbound := outbound + [action];
      history := history.(admitted := history.admitted + multiset{action.id});
      return Admitted;
    }

    // ----- settling actions -----

    /** Every overdue action is settled as unknown; the others stay. */
    method ExpirePending(now: int)
      modifies this`pending, this`reserved, this`history
      ensures State() == AfterExpire(old(State()), now)
    {
      reserved := false;
      var expired := Expired(pending, now);
      var left := expired;
      while left != {}
        invariant left <= expired && !reserved && history == old(history).(unknown := history.unknown)
        invariant TakenOut(old(pending), expired - left, pending, old(history.unknown), history.unknown)
      {
        var echo :| echo in left;
        TakeOneOut(old(pending), expired - left, pending, old(history.unknown), history.unknown, echo);
        assert expired - (left - {echo}) == expired - left + {echo};
        history := history.(unknown := history.unknown + multiset{pending[echo].id});
        pending := pending - {echo};
        left := left - {echo};
      }
      assert expired - left == expired;
    }

    method FailPendingUnknown()
      modifies this`pending, this`history
      ensures State() == AfterFailPending(old(State()))
    {
      while pending != map[]
        invariant history == old(history).(unknown := history.unknown)
        invariant SameSum(history.unknown, PendingIds(pending), old(history.unknown), PendingIds(old(pending)))
        decreases |pending.Keys|
      {
        var echo :| echo in pending;
        PendingIdsWithout(pending, echo);
        SameSumStep(history.unknown, PendingIds(pending - {echo}), pending[echo].id, old(history.unknown),
              PendingIds(old(pending)));
        history := history.(unknown := history.unknown + multiset{pending[echo].id});
        pending := pending - {echo};
      }
    }

    method FailUnsent()
      modifies this`outbound, this`history
      ensures State() == AfterFailUnsent(old(State()))
    {
      while outbound != []
        invariant history == old(history).(notSent := history.notSent)
        invariant SameSum(history.notSent, Ids(outbound), old(history.notSent), Ids(old(outbound)))
        decreases |outbound|
      {
        assert Ids(outbound) == Ids(outbound[1..]) + multiset{outbound[0].id};
        SameSumStep(history.notSent, Ids(outbound[1..]), outbound[0].id, old(history.notSent), Ids(old(outbound)));
        history := history.(notSent := history.notSent + multiset{outbound[0].id});
        outbound := outbound[1..];
      }
    }

    /** The deque has reached its limit, so no action may keep the reader waiting. */
    method FailAll()
      modifies this`outbound, this`pending, this`phase, this`history
      ensures State() == AfterFailPending(AfterFailUnsent(old(State()))).(phase := Head)
    {
      FailUnsent();
      FailPendingUnknown();
      phase := Head;
    }

    method RefuseFront()
      requires outbound != []
      modifies this`outbound, this`reserved, this`history
      ensures State() == AfterRefusal(old(State()))
    {
      history := history.(notSent := history.notSent + multiset{outbound[0].id});
      outbound, reserved := outbound[1..], false;
    }

    method HandOverFront(echo: nat)
      requires outbound != []
      modifies this`outbound, this`pending, this`phase, this`reserved, this`history
      ensures State() == AfterHandOver(old(State()), echo)
    {
      history := history.(handed := history.handed + multiset{outbound[0].id}, echoes := history.echoes + {echo});
      pending, phase := pending[echo := outbound[0]], Transmitting(echo);
      outbound, reserved := outbound[1..], false;
    }

    /** The first half of sending: everything up to the write. */
    method StartTransmission(now: int, transmission: Transmission)
      requires outbound != []
      modifies this`outbound, this`pending, this`phase, this`reserved, this`history
      ensures State() == AfterTransmitStart(old(State()), maxPending, now, transmission)
    {
      if outbound[0].deadline <= now {
        RefuseFront();
        return;
      }
      if |pending| >= maxPending {
        RefuseFront();
        return;
      }
      match transmission
      case DoesNotEncode => RefuseFront();
      case Sends(echo) => HandOverFront(echo);
    }

    method EndTransmission(ok: bool)
      requires phase.Transmitting?
      modifies this`pending, this`phase, this`history
      ensures State() == AfterTransmitEnd(old(State()), ok)
    {
      var echo := phase.echo;
      if ok {
        phase := Head;
        return;
      }
      phase := Stopping;
      if echo in pending {
        history := history.(unknown := history.unknown + multiset{pending[echo].id});
        pending := pending - {echo};
      }
    }

    method ReadResponse(echo: nat)
      modifies this`pending, this`reserved, this`history
      ensures State() == AfterResponse(old(State()), echo)
    {
      reserved := false;
      if echo in pending {
        history := history.(answered := history.answered + multiset{pending[echo].id});
        pending := pending - {echo};
      }
    }

    // ----- events -----

    method Queue(event: Event)
      modifies this`local, this`queueFull, this`history
      ensures State() == AfterQueued(old(State()), event)
    {
      history := history.(accepted := history.accepted + multiset{event});
      local := local + [event];
      queueFull := Capacity() == 0;
    }

    method PutAside(event: Event)
      modifies this`overflow, this`queueFull, this`producerWaiting, this`phase, this`history
      ensures State() == AfterOverflow(old(State()), event)
    {
      history := history.(accepted := history.accepted + multiset{event});
      overflow := overflow + [event];
      queueFull, producerWaiting := true, true;
      phase := if |overflow| == 2 then Overflowed else Head;
    }

    method EnqueueLocalEvent(event: Event)
      modifies this`local, this`overflow, this`queueFull, this`producerWaiting, this`phase, this`reserved, this`history
      ensures State() == AfterEvent(old(State()), event)
    {
      reserved := false;
      if forwarder.Finished? || forwarder.Failed? {
        phase := Stopping;
      } else if Capacity() > 0 {
        Queue(event);
      } else {
        PutAside(event);
      }
    }

    /** A reservation came through: the front of the deque goes to the queue. */
    method MoveOverflow()
      requires overflow != []
      modifies this`local, this`overflow, this`reserved
      ensures State() == MoveFront(old(State()))
    {
      var event := overflow[0];
      overflow := overflow[1..];
      reserved := false;
      local := local + [event];
    }

    method RefreshFlags()
      modifies this`queueFull, this`producerWaiting, this`phase
      ensures State() == AfterFlagging(old(State()))
    {
      queueFull := Capacity() == 0;
      producerWaiting := overflow != [];
      phase := Head;
    }

    method Unpublish()
      modifies this`published, this`queueFull, this`producerWaiting, this`phase
      ensures State() == AfterUnpublish(old(State()))
    {
      published := false;
      queueFull := false;
      producerWaiting := false;
      phase := Unpublished;
    }

    // ----- the forwarder -----

    method ReceiveForForwarding(assign: bool)
      requires local != []
      modifies this`local, this`forwarder, this`reserved
      ensures State() == AfterForwarderRecv(old(State()), assign)
    {
      forwarder := Received(local[0]);
      local := local[1..];
      if assign {
        reserved := true;
      }
    }

    method RefreshFullFlag()
      requires forwarder.Received?
      modifies this`queueFull, this`forwarder
      ensures State() == AfterForwarderFlag(old(State()))
    {
      queueFull := Capacity() == 0;
      forwarder := Holding(forwarder.event);
    }

    /** The runtime takes the event, or the forwarder ends and drops its receiver. */
    method PassToRuntime(taken: bool)
      requires forwarder.Holding?
      modifies this`local, this`forwarder, this`reserved, this`history
      ensures State() == if taken then AfterForwarderDeliver(old(State())) else AfterForwarderFail(old(State()))
    {
      var event := forwarder.event;
      if taken {
        history := history.(delivered := history.delivered + multiset{event});
        forwarder := Idle;
        return;
      }
      history := history.(lost := history.lost + multiset{event} + multiset(local));
      forwarder, local, reserved := Failed, [], false;
    }

    /** No more events will come: the forwarder has seen the queue closed and empty. */
    method FinishForwarding()
      modifies this`forwarder
      ensures State() == old(State()).(forwarder := Finished)
    {
      forwarder := Finished;
    }

    // ----- the end of the connection -----

    method LeaveHead(stop: bool)
      modifies this`reserved, this`phase
      ensures State() == LeaveSelect(old(State())).(phase := if stop then Stopping else old(phase))
    {
      reserved := false;
      if stop {
        phase := Stopping;
      }
    }

    method Retire()
      modifies this`outbound, this`pending, this`phase, this`history
      ensures State() == AfterFailPending(AfterFailUnsent(old(State()))).(phase := Draining)
    {
      FailUnsent();
      FailPendingUnknown();
      phase := Draining;
    }

    /** The final flush is over: the deque is empty, or the queue is closed and what is left is lost. */
    method CloseQueue()
      modifies this`overflow, this`phase, this`history
      ensures State() == AfterDrainStop(old(State()))
    {
      history := history.(lost := history.lost + multiset(overflow));
      overflow := [];
      phase := Closed;
    }

    method End()
      modifies this`phase
      ensures State() == old(State()).(phase := Ended)
    {
      phase := Ended;
    }

    /** The task is dropped; its guard unpublishes it and stops the forwarder. */
    method Drop()
      modifies this
      ensures State() == AfterAbort(old(State()))
    {
      ghost var after := AfterAbort(State());
      Reset();
      history := after.history;
    }

    method Reset()
      modifies this`phase, this`published, this`queueFull, this`producerWaiting, this`outbound, this`pending
      modifies this`overflow, this`local, this`reserved, this`forwarder
      ensures State() == AfterReset(old(State()))
    {
      if published {
        queueFull, producerWaiting := false, false;
      }
      phase, published := Aborted, false;
      outbound, pending, overflow, local := [], map[], [], [];
      reserved, forwarder := false, Failed;
    }

    // ----- whole runs -----

    method PerformOnActions(a: Action)
      requires Enabled(State(), maxPending, a) && MovesActions(a)
      modifies this
      ensures State() == Step(old(State()), maxPending, a)
    {
      match a
      case Admit(action) =>
        var admission := Admit(action);
      case Tick(now) => ExpirePending(now);
      case TakeOutbound(now, transmission) => StartTransmission(now, transmission);
      case TransmitEnd(ok) => EndTransmission(ok);
      case ReadResponse(echo) => ReadResponse(echo);
      case FailAll => FailAll();
      case Retire => Retire();
      case Abort => Drop();
    }

    method PerformForwarder(a: Action)
      requires Enabled(State(), maxPending, a) && ByForwarder(a)
      modifies this
      ensures State() == Step(old(State()), maxPending, a)
    {
      match a
      case ForwarderRecv(assign) => ReceiveForForwarding(assign);
      case ForwarderFlag => RefreshFullFlag();
      case ForwarderDeliver => PassToRuntime(true);
      case ForwarderFail => PassToRuntime(false);
      case ForwarderFinish => FinishForwarding();
    }

    method PerformOnEvents(a: Action)
      requires Enabled(State(), maxPending, a) && !MovesActions(a) && !ByForwarder(a)
      modifies this
      ensures State() == Step(old(State()), maxPending, a)
    {
      match a
      case ReadEvent(event) => EnqueueLocalEvent(event);
      case ReadOther => LeaveHead(false);
      case MoveOverflow =>
        MoveOverflow();
        phase := Flagging;
      case RefreshFlags => RefreshFlags();
      case Break => LeaveHead(true);
      case Unpublish => Unpublish();
      case DrainOne => MoveOverflow();
      case DrainStop => CloseQueue();
      case CloseQueue => CloseQueue();
      case Join => End();
    }

    /** Every step of the connection is carried out by its handlers, and keeps the invariant. */
    method Perform(a: Action)
      requires Valid(State(), maxPending) && Enabled(State(), maxPending, a)
      modifies this
      ensures State() == Step(old(State()), maxPending, a) && Valid(State(), maxPending)
    {
      StepKeepsValid(State(), maxPending, a);
      if MovesActions(a) {
        PerformOnActions(a);
      } else if ByForwarder(a) {
        PerformForwarder(a);
      } else {
        PerformOnEvents(a);
      }
    }

    /** So is every run from an open connection.  One that ends has told every caller exactly once. */
    method Serve(actions: seq<Action>, ghost states: seq<Conn>)
      requires Run(maxPending, states, actions) && State() == states[0]
      modifies this
      ensures State() == states[|actions|] && Valid(State(), maxPending)
      ensures phase.Ended? ==> forall id :: Settled(State(), id) == history.admitted[id]
    {
      OpenedIsValid(maxPending, states[0] == Opened(true));
      for n := 0 to |actions|
        invariant State() == states[n] && Valid(State(), maxPending)
      {
        assert Follows(maxPending, states, actions, n);
        Perform(actions[n]);
      }
      if phase.Ended? {
        forall id ensures Settled(State(), id) == history.admitted[id] {
          EndedSettlesAll(maxPending, states, actions, |actions|, id);
        }
      }
    }
  }
}
