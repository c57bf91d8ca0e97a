/** What holds of a connection in every run. */
module ConnectionProperties {
  import opened Connection
  import opened ConnectionRuns

  // ----- actions -----

  /** How often the caller of action `id` has been told its outcome. */
  function Settled(c: Conn, id: nat): nat {
    c.history.notSent[id] + c.history.answered[id] + c.history.unknown[id]
  }

  /** An action is settled at most once, never unless it was admitted, and "not sent" rules out any frame for it. */
  lemma SettledAtMostOnce(maxPending: nat, states: seq<Conn>, actions: seq<Action>, n: nat, id: nat)
    requires Run(maxPending, states, actions) && n < |states|
    ensures Settled(states[n], id) <= states[n].history.admitted[id] <= 1
    ensures states[n].history.notSent[id] > 0 ==> states[n].history.handed[id] == 0
    ensures states[n].history.answered[id] + states[n].history.unknown[id] > 0 ==> states[n].history.handed[id] == 1
  {
    RunsAreValid(maxPending, states, actions, n);
    assert ActionAccounted(states[n], id);
  }

  /** A connection that ran to its end has settled every action it admitted exactly once. */
  lemma EndedSettlesAll(maxPending: nat, states: seq<Conn>, actions: seq<Action>, n: nat, id: nat)
    requires Run(maxPending, states, actions) && n < |states| && states[n].phase.Ended?
    ensures Settled(states[n], id) == states[n].history.admitted[id]
  {
    RunsAreValid(maxPending, states, actions, n);
    assert ActionAccounted(states[n], id);
    assert Ids(states[n].outbound) == multiset{} && PendingIds(states[n].pending) == multiset{};
  }

  /** Nothing that has happened to an action is taken back. */
  predicate Remembers(before: Conn, after: Conn, id: nat) {
    var h, k := before.history, after.history;
    && h.admitted[id] <= k.admitted[id] && h.handed[id] <= k.handed[id] && h.notSent[id] <= k.notSent[id]
    && h.answered[id] <= k.answered[id] && h.unknown[id] <= k.unknown[id]
  }

  lemma StepRemembers(c: Conn, maxPending: nat, a: Action, id: nat)
    requires Enabled(c, maxPending, a)
    ensures Remembers(c, Step(c, maxPending, a), id)
  {
    if !MovesActions(a) {
      OthersLeaveActions(c, maxPending, a);
    } else {
      match a
      case Admit(action) => AdmitRemembers(c, action, id);
      case Tick(now) => ExpireRemembers(c, now, id);
      case TakeOutbound(now, t) => TransmitRemembers(c, maxPending, now, t, id);
      case TransmitEnd(ok) => SettleRemembers(c, ok, 0, id);
      case ReadResponse(echo) => SettleRemembers(c, true, echo, id);
      case FailAll => FailRemembers(c, id);
      case Retire => FailRemembers(c, id);
      case Abort => AbortRemembers(c, id);
    }
  }

  lemma AdmitRemembers(c: Conn, action: Outbound, id: nat)
    ensures Remembers(c, AfterAdmit(c, action), id)
  {
  }

  lemma ExpireRemembers(c: Conn, now: int, id: nat)
    ensures Remembers(c, AfterExpire(c, now), id)
  {
  }

  lemma TransmitRemembers(c: Conn, maxPending: nat, now: int, t: Transmission, id: nat)
    requires c.outbound != []
    ensures Remembers(c, AfterTransmitStart(c, maxPending, now, t), id)
  {
  }

  lemma SettleRemembers(c: Conn, ok: bool, echo: nat, id: nat)
    ensures c.phase.Transmitting? ==> Remembers(c, AfterTransmitEnd(c, ok), id)
    ensures Remembers(c, AfterResponse(c, echo), id)
  {
  }

  lemma FailRemembers(c: Conn, id: nat)
    ensures Remembers(c, AfterFailPending(AfterFailUnsent(c)), id)
  {
  }

  lemma AbortRemembers(c: Conn, id: nat)
    ensures Remembers(c, AfterAbort(c), id)
  {
  }

  lemma RemembersOn(a: Conn, b: Conn, c: Conn, id: nat)
    requires Remembers(a, b, id) && Remembers(b, c, id)
    ensures Remembers(a, c, id)
  {
  }

  lemma RunRemembersOne(maxPending: nat, states: seq<Conn>, actions: seq<Action>, n: nat, id: nat)
    requires Run(maxPending, states, actions) && n < |actions|
    ensures Remembers(states[n], states[n + 1], id)
  {
    assert Follows(maxPending, states, actions, n);
    StepRemembers(states[n], maxPending, actions[n], id);
  }

  lemma {:induction false} RunsRemember(maxPending: nat, states: seq<Conn>, actions: seq<Action>, m: nat, n: nat,
      id: nat)
    requires Run(maxPending, states, actions) && m <= n < |states|
    ensures Remembers(states[m], states[n], id)
  {
    if m < n {
      RunsRemember(maxPending, states, actions, m, n - 1, id);
      RunRemembersOne(maxPending, states, actions, n - 1, id);
      RemembersOn(states[m], states[n - 1], states[n], id);
    }
  }

  /** Whoever was told "not sent" may retry: at no time, earlier or later, is a frame of the action handed to the
      socket. */
  lemma NotSentIsFinal(maxPending: nat, states: seq<Conn>, actions: seq<Action>, m: nat, n: nat, id: nat)
    requires Run(maxPending, states, actions) && m < |states| && n < |states| && states[m].history.notSent[id] > 0
    ensures states[n].history.handed[id] == 0
  {
    var last := if m < n then n else m;
    RunsRemember(maxPending, states, actions, m, last, id);
    RunsRemember(maxPending, states, actions, n, last, id);
    SettledAtMostOnce(maxPending, states, actions, last, id);
  }

  // ----- who is told what -----

  /** A frame goes out only when it is not refused; then its echo is used up. */
  predicate HandsOver(c: Conn, maxPending: nat, a: Action, echo: nat) {
    && a.TakeOutbound? && a.transmission == Sends(echo) && c.outbound != []
    && c.outbound[0].deadline > a.now && |c.pending| < maxPending
  }

  lemma PendingComesFromStep(c: Conn, maxPending: nat, a: Action, echo: nat)
    requires Enabled(c, maxPending, a) && echo in Step(c, maxPending, a).pending
    ensures var action := Step(c, maxPending, a).pending[echo];
            || (echo in c.pending && c.pending[echo] == action)
            || (HandsOver(c, maxPending, a, echo) && c.outbound[0] == action)
  {
    if !MovesActions(a) {
      OthersLeaveActions(c, maxPending, a);
    } else if a.TakeOutbound? {
      SentPending(c, maxPending, a.now, a.transmission, echo);
    } else if !a.Admit? {
      SettlingShrinksPending(c, a, echo);
    }
  }

  lemma SentPending(c: Conn, maxPending: nat, now: int, t: Transmission, echo: nat)
    requires c.outbound != [] && echo in AfterTransmitStart(c, maxPending, now, t).pending
    ensures var action := AfterTransmitStart(c, maxPending, now, t).pending[echo];
            || (echo in c.pending && c.pending[echo] == action)
            || (HandsOver(c, maxPending, TakeOutbound(now, t), echo) && c.outbound[0] == action)
  {
  }

  /** What remains pending when actions are settled is what was pending before. */
  lemma SettlingShrinksPending(c: Conn, a: Action, echo: nat)
    ensures a.Tick? ==> Shrinks(c, AfterExpire(c, a.now), echo)
    ensures a.TransmitEnd? && c.phase.Transmitting? ==> Shrinks(c, AfterTransmitEnd(c, a.ok), echo)
    ensures a.ReadResponse? ==> Shrinks(c, AfterResponse(c, a.echo), echo)
  {
  }

  predicate Shrinks(c: Conn, d: Conn, echo: nat) {
    echo in d.pending ==> echo in c.pending && c.pending[echo] == d.pending[echo]
  }

  lemma {:induction false} PendingWasHanded(maxPending: nat, states: seq<Conn>, actions: seq<Action>, n: nat, echo: nat)
      returns (m: nat)
    requires Run(maxPending, states, actions) && n < |states| && echo in states[n].pending
    ensures m < n && HandsOver(states[m], maxPending, actions[m], echo)
    ensures states[m].outbound[0] == states[n].pending[echo]
  {
    assert Follows(maxPending, states, actions, n - 1);
    PendingComesFromStep(states[n - 1], maxPending, actions[n - 1], echo);
    if echo in states[n - 1].pending && states[n - 1].pending[echo] == states[n].pending[echo] {
      m := PendingWasHanded(maxPending, states, actions, n - 1, echo);
    } else {
      m := n - 1;
    }
  }

  lemma EchoesGrow(c: Conn, maxPending: nat, a: Action)
    requires Enabled(c, maxPending, a)
    ensures c.history.echoes <= Step(c, maxPending, a).history.echoes
  {
    if !MovesActions(a) {
      OthersLeaveActions(c, maxPending, a);
    } else if a.TakeOutbound? {
      SendingAddsAnEcho(c, maxPending, a.now, a.transmission);
    }
  }

  lemma SendingAddsAnEcho(c: Conn, maxPending: nat, now: int, t: Transmission)
    requires c.outbound != []
    ensures c.history.echoes <= AfterTransmitStart(c, maxPending, now, t).history.echoes
  {
  }

  lemma {:induction false} EchoesStayUsed(maxPending: nat, states: seq<Conn>, actions: seq<Action>, m: nat, n: nat,
      echo: nat)
    requires Run(maxPending, states, actions) && m < n < |states| && HandsOver(states[m], maxPending, actions[m], echo)
    ensures echo in states[n].history.echoes
  {
    assert Follows(maxPending, states, actions, n - 1);
    if m + 1 < n {
      EchoesStayUsed(maxPending, states, actions, m, n - 1, echo);
      EchoesGrow(states[n - 1], maxPending, actions[n - 1]);
    }
  }

  /** No two frames of a connection carry the same echo. */
  lemma OneFramePerEcho(maxPending: nat, states: seq<Conn>, actions: seq<Action>, m: nat, n: nat, echo: nat)
    requires Run(maxPending, states, actions) && m < |actions| && n < |actions|
    requires HandsOver(states[m], maxPending, actions[m], echo) && HandsOver(states[n], maxPending, actions[n], echo)
    ensures m == n
  {
    assert Follows(maxPending, states, actions, m) && Follows(maxPending, states, actions, n);
    if m < n {
      EchoesStayUsed(maxPending, states, actions, m, n, echo);
    } else if n < m {
      EchoesStayUsed(maxPending, states, actions, n, m, echo);
    }
  }

  /** A response answers the action of the one frame that carried its echo. */
  lemma AnswersMatchFrames(maxPending: nat, states: seq<Conn>, actions: seq<Action>, n: nat, id: nat) returns (m: nat)
    requires Run(maxPending, states, actions) && n < |actions|
    requires states[n + 1].history.answered[id] > states[n].history.answered[id]
    ensures actions[n].ReadResponse? && m < n && HandsOver(states[m], maxPending, actions[m], actions[n].echo)
    ensures states[m].outbound[0].id == id
    ensures forall k :: 0 <= k < |actions| && HandsOver(states[k], maxPending, actions[k], actions[n].echo) ==> k == m
  {
    assert Follows(maxPending, states, actions, n);
    AnswersAreResponses(states[n], maxPending, actions[n], id);
    var echo := actions[n].echo;
    m := PendingWasHanded(maxPending, states, actions, n, echo);
    forall k | 0 <= k < |actions| && HandsOver(states[k], maxPending, actions[k], echo) ensures k == m {
      OneFramePerEcho(maxPending, states, actions, m, k, echo);
    }
  }

  lemma AnswersAreResponses(c: Conn, maxPending: nat, a: Action, id: nat)
    requires Enabled(c, maxPending, a) && Step(c, maxPending, a).history.answered[id] > c.history.answered[id]
    ensures a.ReadResponse? && a.echo in c.pending && c.pending[a.echo].id == id
  {
    if !MovesActions(a) {
      OthersLeaveActions(c, maxPending, a);
    } else {
      match a
      case Admit(_) =>
      case Tick(_) =>
      case TakeOutbound(now, t) => SendingAnswersNothing(c, maxPending, now, t);
      case TransmitEnd(ok) => WritingAnswersNothing(c, ok);
      case ReadResponse(_) =>
      case FailAll =>
      case Retire =>
      case Abort =>
    }
  }

  lemma SendingAnswersNothing(c: Conn, maxPending: nat, now: int, t: Transmission)
    requires c.outbound != []
    ensures AfterTransmitStart(c, maxPending, now, t).history.answered == c.history.answered
  {
  }

  lemma WritingAnswersNothing(c: Conn, ok: bool)
    requires c.phase.Transmitting?
    ensures AfterTransmitEnd(c, ok).history.answered == c.history.answered
  {
  }

  lemma {:induction false} PendingWithId(pending: map<nat, Outbound>, id: nat) returns (echo: nat)
    requires PendingIds(pending)[id] > 0
    ensures echo in pending && pending[echo].id == id
    decreases |pending|
  {
    echo :| echo in pending && PendingIds(pending) == multiset{pending[echo].id} + PendingIds(pending - {echo});
    if pending[echo].id != id {
      assert (pending - {echo}).Keys == pending.Keys - {echo};
      var other := PendingWithId(pending - {echo}, id);
      echo := other;
    }
  }

  /** The deadline tick gives up only actions whose deadline has come, and leaves none of those pending. */
  lemma TicksGiveUpTheOverdue(c: Conn, maxPending: nat, now: int, id: nat)
    requires Enabled(c, maxPending, Tick(now))
    ensures var d := Step(c, maxPending, Tick(now));
            && (forall echo :: echo in d.pending ==> d.pending[echo].deadline > now)
            && (d.history.unknown[id] > c.history.unknown[id] ==>
                  exists echo :: echo in c.pending && c.pending[echo].id == id && c.pending[echo].deadline <= now)
  {
    var overdue := Restrict(c.pending, Expired(c.pending, now));
    if PendingIds(overdue)[id] > 0 {
      var echo := PendingWithId(overdue, id);
      assert echo in c.pending && Overdue(c.pending[echo], now);
    }
  }

  // ----- reading and admission -----

  /** While the loop waits without reading, no action is queued or pending and none can be admitted: nobody waits for a
      reply that is not read.  Otherwise a published connection does not read only while it writes a frame or is between
      two steps of a branch. */
  lemma NotReadingExactlyWhen(maxPending: nat, states: seq<Conn>, actions: seq<Action>, n: nat)
    requires Run(maxPending, states, actions) && n < |states| && states[n].published
    ensures states[n].phase.Head? && !Reads(states[n]) ==>
              states[n].outbound == [] && states[n].pending == map[] && !Admits(states[n], maxPending)
    ensures var c := states[n];
            !Reads(c) <==> || c.phase.Transmitting? || c.phase.Flagging? || c.phase.Overflowed? || c.phase.Stopping?
                           || (c.phase.Head? && |c.overflow| == 2)
  {
    RunsAreValid(maxPending, states, actions, n);
  }

  /** A frame that is being written keeps the loop from reading until the write ends and no longer: a write that
      succeeds is followed by a state that reads, and one that fails ends the loop.  So does refreshing the flags, and
      so does settling everything, except that the latter leaves nothing that waits for a reply. */
  lemma ReadingResumes(maxPending: nat, states: seq<Conn>, actions: seq<Action>, n: nat)
    requires Run(maxPending, states, actions) && n < |states|
    ensures states[n].phase.Transmitting? ==>
              Reads(Step(states[n], maxPending, TransmitEnd(true)))
              && Step(states[n], maxPending, TransmitEnd(false)).phase.Stopping?
    ensures states[n].phase.Flagging? ==> Reads(Step(states[n], maxPending, RefreshFlags))
    ensures states[n].phase.Overflowed? ==>
              Step(states[n], maxPending, FailAll).outbound == []
                    && Step(states[n], maxPending, FailAll).pending == map[]
  {
    RunsAreValid(maxPending, states, actions, n);
  }

  /** The flags tell a caller the truth: while published, the waiting flag is up exactly when the deque is in use or its
      front was just moved, and with both flags down an event would find a free slot. */
  lemma FlagsAreExact(maxPending: nat, states: seq<Conn>, actions: seq<Action>, n: nat)
    requires Run(maxPending, states, actions) && n < |states| && states[n].published
    ensures states[n].producerWaiting <==> states[n].overflow != [] || states[n].phase.Flagging?
    ensures !states[n].queueFull && !states[n].producerWaiting ==> FreeSlots(states[n]) > 0
  {
    RunsAreValid(maxPending, states, actions, n);
  }

  /** An admitted action finds an empty deque and room for one more event. */
  lemma AdmissionMeansRoom(maxPending: nat, states: seq<Conn>, actions: seq<Action>, n: nat)
    requires Run(maxPending, states, actions) && n < |actions| && actions[n].Admit?
    ensures states[n].overflow == [] && FreeSlots(states[n]) > 0 && states[n].published
  {
    RunsAreValid(maxPending, states, actions, n);
    assert Follows(maxPending, states, actions, n);
  }

  // ----- events -----

  function Held(c: Conn): nat {
    |HeldByForwarder(c)| + |c.local| + |c.overflow|
  }

  /** Accepted events are delivered, held or lost, each as often as it was accepted; at most 64 are held. */
  lemma EventsAreConserved(maxPending: nat, states: seq<Conn>, actions: seq<Action>, n: nat)
    requires Run(maxPending, states, actions) && n < |states|
    ensures var c := states[n];
            c.history.accepted == c.history.delivered + HeldByForwarder(c) + multiset(c.local)
                  + multiset(c.overflow) + c.history.lost
    ensures Held(states[n]) <= MAX_PENDING_EVENTS_PER_CONNECTION
    ensures states[n].history.lost != multiset{} ==> states[n].forwarder.Failed?
  {
    RunsAreValid(maxPending, states, actions, n);
    var c := states[n];
    assert SameCounts(c.history.accepted, c.history.delivered + HeldByForwarder(c) + multiset(c.local)
           + multiset(c.overflow) + c.history.lost) by {
      forall e ensures c.history.accepted[e]
                       == (c.history.delivered + HeldByForwarder(c) + multiset(c.local) + multiset(c.overflow)
                          + c.history.lost)[e] {
        assert EventAccounted(c, e);
      }
    }
    if c.history.lost != multiset{} {
      var e :| e in c.history.lost;
      assert EventAccounted(c, e);
    }
  }

  ghost predicate SameCounts(a: multiset<Event>, b: multiset<Event>) {
    forall e :: a[e] == b[e]
  }

  lemma {:induction false} OnlyFailuresFail(maxPending: nat, states: seq<Conn>, actions: seq<Action>, n: nat)
    requires Run(maxPending, states, actions) && n < |states|
    requires forall k :: 0 <= k < n ==> !actions[k].ForwarderFail? && !actions[k].Abort?
    ensures !states[n].forwarder.Failed?
  {
    if n > 0 {
      OnlyFailuresFail(maxPending, states, actions, n - 1);
      assert Follows(maxPending, states, actions, n - 1);
      FailureNeedsAFailure(states[n - 1], maxPending, actions[n - 1]);
    }
  }

  lemma FailureNeedsAFailure(c: Conn, maxPending: nat, a: Action)
    requires Enabled(c, maxPending, a) && !c.forwarder.Failed? && !a.ForwarderFail? && !a.Abort?
    ensures !Step(c, maxPending, a).forwarder.Failed?
  {
    if ByForwarder(a) {
      match a
      case ForwarderRecv(_) =>
      case ForwarderFlag =>
      case ForwarderDeliver =>
      case ForwarderFinish =>
    } else if ByTaskOnEvents(a) {
      match a
      case ReadEvent(event) => ReadingLeavesForwarder(c, event);
      case MoveOverflow =>
      case DrainOne =>
      case DrainStop =>
    } else {
      OthersLeaveEvents(c, maxPending, a);
    }
  }

  lemma ReadingLeavesForwarder(c: Conn, event: Event)
    ensures AfterEvent(c, event).forwarder == c.forwarder
  {
  }

  /** An end without a runtime failure and without an abort delivers every accepted event exactly once, and leaves both
      flags down for the next connection. */
  lemma CleanEndDeliversAll(maxPending: nat, states: seq<Conn>, actions: seq<Action>)
    requires Run(maxPending, states, actions) && states[|actions|].phase.Ended?
    requires forall k :: 0 <= k < |actions| ==> !actions[k].ForwarderFail? && !actions[k].Abort?
    ensures states[|actions|].history.accepted == states[|actions|].history.delivered
    ensures !states[|actions|].queueFull && !states[|actions|].producerWaiting
  {
    var c := states[|actions|];
    OnlyFailuresFail(maxPending, states, actions, |actions|);
    EventsAreConserved(maxPending, states, actions, |actions|);
    RunsAreValid(maxPending, states, actions, |actions|);
    assert c.local == [] && c.overflow == [] && HeldByForwarder(c) == multiset{};
  }

  // ----- closing -----

  function Rank(p: Phase): nat {
    if p.Stopping? then 4 else if p.Unpublished? then 3 else if p.Draining? then 2 else if p.Closed? then 1 else 0
  }

  predicate Closing(c: Conn) {
    Rank(c.phase) > 0
  }

  /** The steps that are left at most: each event held has its way through the queue and the forwarder to go. */
  function ClosingWork(c: Conn): nat {
    Rank(c.phase) + 4 * |c.overflow| + 3 * |c.local|
    + (if c.forwarder.Received? then 2 else if c.forwarder.Holding? then 1 else 0)
    + if QueueClosed(c) then 0 else 1
  }

  lemma ForwardingUsesUpWork(c: Conn, maxPending: nat, a: Action)
    requires Enabled(c, maxPending, a) && ByForwarder(a)
    ensures ClosingWork(Step(c, maxPending, a)) < ClosingWork(c)
  {
  }

  lemma ClosingUsesUpWork(c: Conn, maxPending: nat, a: Action)
    requires Shape(c, maxPending) && Closing(c) && Enabled(c, maxPending, a) && !a.Abort?
    ensures if a.Admit? then ClosingWork(Step(c, maxPending, a)) == ClosingWork(c)
            else ClosingWork(Step(c, maxPending, a)) < ClosingWork(c)
  {
    match a
    case Admit(_) =>
    case Unpublish =>
    case Retire => SettlingLeavesEvents(c, 0, false, 0);
    case DrainOne =>
    case DrainStop =>
    case CloseQueue =>
    case Join =>
    case _ => ForwardingUsesUpWork(c, maxPending, a);
  }

  /** A step of the task or the forwarder that closing can always take. */
  function NextClosingStep(c: Conn): Action {
    match c.forwarder
    case Received(_) => ForwarderFlag
    case Holding(_) => ForwarderDeliver
    case Idle =>
      if c.phase.Stopping? then Unpublish else if c.phase.Unpublished? then Retire
      else if c.local != [] then ForwarderRecv(false)
      else if c.phase.Draining? then (if c.overflow == [] then CloseQueue else DrainOne)
      else ForwarderFinish
    case _ =>
      if c.phase.Stopping? then Unpublish else if c.phase.Unpublished? then Retire
      else if c.phase.Draining? then (if c.overflow == [] then CloseQueue else DrainStop)
      else Join
  }

  lemma ClosingIsNeverStuck(maxPending: nat, states: seq<Conn>, actions: seq<Action>, n: nat)
    requires Run(maxPending, states, actions) && n < |states| && Closing(states[n])
    ensures Enabled(states[n], maxPending, NextClosingStep(states[n])) && !NextClosingStep(states[n]).Abort?
    ensures ClosingWork(Step(states[n], maxPending, NextClosingStep(states[n]))) < ClosingWork(states[n])
  {
    RunsAreValid(maxPending, states, actions, n);
    NextClosingStepIsEnabled(states[n], maxPending);
    ClosingUsesUpWork(states[n], maxPending, NextClosingStep(states[n]));
  }

  lemma NextClosingStepIsEnabled(c: Conn, maxPending: nat)
    requires Shape(c, maxPending) && Closing(c)
    ensures Enabled(c, maxPending, NextClosingStep(c)) && !NextClosingStep(c).Admit? && !NextClosingStep(c).Abort?
  {
  }
}
