/** In which order actions go out, what becomes of each, and exactly when one is admitted. */
module ConnectionActions {
  import opened Connection
  import opened ConnectionLimits
  import opened ConnectionProperties
  import opened ConnectionRuns

  // ----- first in, first out -----

  predicate Clears(a: Action) {
    a.FailAll? || a.Retire? || a.Abort?
  }

  function AdmittedBy(a: Action): seq<Outbound> {
    if a.Admit? then [a.action] else []
  }

  function TakenBy(c: Conn, a: Action): seq<Outbound> {
    if a.TakeOutbound? && c.outbound != [] then [c.outbound[0]] else []
  }

  /** The actions admitted by the steps from m on and before n. */
  function Admissions(actions: seq<Action>, m: nat, n: nat): seq<Outbound>
    requires m <= n <= |actions|
  {
    if m == n then [] else Admissions(actions, m, n - 1) + AdmittedBy(actions[n - 1])
  }

  /** The actions taken out of the queue by these steps. */
  function Takings(states: seq<Conn>, actions: seq<Action>, m: nat, n: nat): seq<Outbound>
    requires m <= n <= |actions| < |states|
  {
    if m == n then [] else Takings(states, actions, m, n - 1) + TakenBy(states[n - 1], actions[n - 1])
  }

  /** A step takes the front, adds the admitted action at the back, empties the queue, or leaves it alone. */
  lemma StepMovesOutbound(c: Conn, maxPending: nat, a: Action)
    requires Enabled(c, maxPending, a)
    ensures Clears(a) ==> Step(c, maxPending, a).outbound == []
    ensures !Clears(a) ==> c.outbound + AdmittedBy(a) == TakenBy(c, a) + Step(c, maxPending, a).outbound
  {
    if !MovesActions(a) {
      OthersLeaveActions(c, maxPending, a);
    } else if a.TakeOutbound? {
      TakingTakesFront(c, maxPending, a.now, a.transmission);
    }
  }

  lemma TakingTakesFront(c: Conn, maxPending: nat, now: int, t: Transmission)
    requires c.outbound != []
    ensures c.outbound == [c.outbound[0]] + AfterTransmitStart(c, maxPending, now, t).outbound
  {
  }

  lemma Regroup(q: seq<Outbound>, admitted: seq<Outbound>, taken: seq<Outbound>, q': seq<Outbound>,
      one: seq<Outbound>, out: seq<Outbound>, q'': seq<Outbound>)
    requires q + admitted == taken + q' && q' + one == out + q''
    ensures q + (admitted + one) == taken + out + q''
  {
    assert q + (admitted + one) == q + admitted + one;
    assert taken + q' + one == taken + (q' + one);
    assert taken + (out + q'') == taken + out + q'';
  }

  /** Over any stretch in which the queue is not emptied at once: what was queued and then admitted is, in this order,
      what was taken and is still queued. */
  lemma {:induction false} ActionsStayInOrder(maxPending: nat, states: seq<Conn>, actions: seq<Action>, m: nat, n: nat)
    requires Run(maxPending, states, actions) && m <= n <= |actions|
    requires forall k :: m <= k < n ==> !Clears(actions[k])
    ensures states[m].outbound + Admissions(actions, m, n) == Takings(states, actions, m, n) + states[n].outbound
  {
    if m < n {
      ActionsStayInOrder(maxPending, states, actions, m, n - 1);
      assert Follows(maxPending, states, actions, n - 1);
      StepMovesOutbound(states[n - 1], maxPending, actions[n - 1]);
      Regroup(states[m].outbound, Admissions(actions, m, n - 1), Takings(states, actions, m, n - 1),
              states[n - 1].outbound, AdmittedBy(actions[n - 1]), TakenBy(states[n - 1], actions[n - 1]),
              states[n].outbound);
    }
  }

  predicate AdmitsAt(actions: seq<Action>, k: nat, action: Outbound) {
    k < |actions| && actions[k] == Admit(action)
  }

  /** A place in the queue was a place behind it before the step, or belongs to the action just admitted. */
  lemma PlaceBefore(c: Conn, maxPending: nat, a: Action, i: nat)
    requires Enabled(c, maxPending, a) && i < |Step(c, maxPending, a).outbound|
    ensures var j, action := i + |TakenBy(c, a)|, Step(c, maxPending, a).outbound[i];
            if j < |c.outbound| then c.outbound[j] == action
            else a == Admit(action) && j == |c.outbound|
  {
    StepMovesOutbound(c, maxPending, a);
    var whole := c.outbound + AdmittedBy(a);
    assert whole[i + |TakenBy(c, a)|] == Step(c, maxPending, a).outbound[i];
  }

  lemma PlaceInRun(maxPending: nat, states: seq<Conn>, actions: seq<Action>, n: nat, i: nat) returns (j: nat)
    requires Run(maxPending, states, actions) && n < |states| && i < |states[n].outbound|
    ensures n > 0 && j == i + |TakenBy(states[n - 1], actions[n - 1])|
    ensures if j < |states[n - 1].outbound| then states[n - 1].outbound[j] == states[n].outbound[i]
            else j == |states[n - 1].outbound| && AdmitsAt(actions, n - 1, states[n].outbound[i])
  {
    assert Follows(maxPending, states, actions, n - 1);
    PlaceBefore(states[n - 1], maxPending, actions[n - 1], i);
    j := i + |TakenBy(states[n - 1], actions[n - 1])|;
  }

  lemma {:induction false} QueuedWasAdmitted(maxPending: nat, states: seq<Conn>, actions: seq<Action>, n: nat, i: nat)
      returns (k: nat)
    requires Run(maxPending, states, actions) && n < |states| && i < |states[n].outbound|
    ensures k < n && AdmitsAt(actions, k, states[n].outbound[i])
  {
    var j := PlaceInRun(maxPending, states, actions, n, i);
    if j < |states[n - 1].outbound| {
      k := QueuedWasAdmitted(maxPending, states, actions, n - 1, j);
    } else {
      k := n - 1;
    }
  }

  lemma {:induction false} QueueIsByAdmission(maxPending: nat, states: seq<Conn>, actions: seq<Action>, n: nat, i: nat,
      j: nat)
      returns (a: nat, b: nat)
    requires Run(maxPending, states, actions) && n < |states| && i < j < |states[n].outbound|
    ensures a < b < n && AdmitsAt(actions, a, states[n].outbound[i]) && AdmitsAt(actions, b, states[n].outbound[j])
  {
    var i' := PlaceInRun(maxPending, states, actions, n, i);
    var j' := PlaceInRun(maxPending, states, actions, n, j);
    if j' < |states[n - 1].outbound| {
      a, b := QueueIsByAdmission(maxPending, states, actions, n - 1, i', j');
    } else {
      a := QueuedWasAdmitted(maxPending, states, actions, n - 1, i');
      b := n - 1;
    }
  }

  /** What is queued at step n was queued at step m too, or has been admitted since. */
  lemma {:induction false} QueuedSince(maxPending: nat, states: seq<Conn>, actions: seq<Action>, m: nat, n: nat, i: nat)
      returns (k: nat)
    requires Run(maxPending, states, actions) && m <= n < |states| && i < |states[n].outbound|
    ensures || (k < |states[m].outbound| && states[m].outbound[k] == states[n].outbound[i])
            || (m <= k < n && AdmitsAt(actions, k, states[n].outbound[i]))
  {
    if m == n {
      k := i;
    } else {
      var j := PlaceInRun(maxPending, states, actions, n, i);
      if j < |states[n - 1].outbound| {
        k := QueuedSince(maxPending, states, actions, m, n - 1, j);
      } else {
        k := n - 1;
      }
    }
  }

  /** Of two actions taken out of the queue in a run, the one taken first was admitted first. */
  lemma TakenInOrder(maxPending: nat, states: seq<Conn>, actions: seq<Action>, p: nat, q: nat) returns (a: nat, b: nat)
    requires Run(maxPending, states, actions) && p < q < |actions|
    requires actions[p].TakeOutbound? && actions[q].TakeOutbound?
    ensures states[p].outbound != [] && states[q].outbound != []
    ensures a < b && AdmitsAt(actions, a, states[p].outbound[0]) && AdmitsAt(actions, b, states[q].outbound[0])
  {
    assert Follows(maxPending, states, actions, p) && Follows(maxPending, states, actions, q);
    StepMovesOutbound(states[p], maxPending, actions[p]);
    var k := QueuedSince(maxPending, states, actions, p + 1, q, 0);
    if k < |states[p + 1].outbound| && states[p + 1].outbound[k] == states[q].outbound[0] {
      assert states[p].outbound[1 + k] == states[p + 1].outbound[k];
      a, b := QueueIsByAdmission(maxPending, states, actions, p, 0, 1 + k);
    } else {
      a := QueuedWasAdmitted(maxPending, states, actions, p, 0);
      b := k;
    }
  }

  lemma AdmittedOnce(maxPending: nat, states: seq<Conn>, actions: seq<Action>, a: nat, b: nat, x: Outbound, y: Outbound)
    requires Run(maxPending, states, actions) && AdmitsAt(actions, a, x) && AdmitsAt(actions, b, y) && x.id == y.id
    ensures a == b
  {
    if a != b {
      var first, second := if a < b then a else b, if a < b then b else a;
      assert Follows(maxPending, states, actions, first) && Follows(maxPending, states, actions, second);
      RunsRemember(maxPending, states, actions, first + 1, second, x.id);
    }
  }

  /** Frames go out in the order of admission: of two actions that both get a frame, the one admitted first gets it
      first. */
  lemma FramesFollowAdmissions(maxPending: nat, states: seq<Conn>, actions: seq<Action>, a: nat, b: nat, p: nat, q: nat,
      first: nat, second: nat)
    requires Run(maxPending, states, actions) && a < b && p < |actions| && q < |actions|
    requires HandsOver(states[p], maxPending, actions[p], first) && AdmitsAt(actions, a, states[p].outbound[0])
    requires HandsOver(states[q], maxPending, actions[q], second) && AdmitsAt(actions, b, states[q].outbound[0])
    ensures p < q
  {
    if p == q {
      AdmittedOnce(maxPending, states, actions, a, b, states[p].outbound[0], states[q].outbound[0]);
    } else if q < p {
      var b', a' := TakenInOrder(maxPending, states, actions, q, p);
      AdmittedOnce(maxPending, states, actions, a, a', states[p].outbound[0], states[p].outbound[0]);
      AdmittedOnce(maxPending, states, actions, b, b', states[q].outbound[0], states[q].outbound[0]);
    }
  }

  // ----- what becomes of an action -----

  /** The front of the queue gets a frame exactly when its time has not come, fewer actions than the limit are pending,
      and it can be encoded; it is then pending under the echo of the frame.  Otherwise it is told "not sent". */
  lemma HandedOverExactlyWhen(c: Conn, maxPending: nat, now: int, t: Transmission)
    requires Enabled(c, maxPending, TakeOutbound(now, t))
    ensures var d, action := Step(c, maxPending, TakeOutbound(now, t)), c.outbound[0];
            var sent := now < action.deadline && |c.pending| < maxPending && t.Sends?;
            && d.history.handed == c.history.handed + (if sent then multiset{action.id} else multiset{})
            && d.history.notSent == c.history.notSent + (if sent then multiset{} else multiset{action.id})
            && d.pending == (if sent then c.pending[t.echo := action] else c.pending)
            && (if sent then d.phase == Transmitting(t.echo) else d.phase == Head)
  {
  }

  /** A response answers exactly the action that is pending under its echo, and no other is touched. */
  lemma AnsweredExactlyWhen(c: Conn, maxPending: nat, echo: nat, id: nat)
    requires Enabled(c, maxPending, ReadResponse(echo))
    ensures var d := Step(c, maxPending, ReadResponse(echo));
            && (d.history.answered[id] > c.history.answered[id] <==> echo in c.pending && c.pending[echo].id == id)
            && d.pending.Keys == c.pending.Keys - {echo}
            && (forall other :: other in d.pending ==> d.pending[other] == c.pending[other])
  {
  }

  /** A write that fails tells its action "unknown" at once, and no other. */
  lemma FailedWriteIsUnknown(maxPending: nat, states: seq<Conn>, actions: seq<Action>, n: nat, id: nat)
    requires Run(maxPending, states, actions) && n < |actions| && actions[n].TransmitEnd?
    ensures states[n].phase.Transmitting? && states[n].phase.echo in states[n].pending
    ensures var c, d := states[n], states[n + 1];
            && (d.history.unknown[id] > c.history.unknown[id]
                <==> !actions[n].ok && c.pending[c.phase.echo].id == id)
            && (!actions[n].ok ==> c.phase.echo !in d.pending)
            && (actions[n].ok ==> d.pending == c.pending)
  {
    RunsAreValid(maxPending, states, actions, n);
    assert Follows(maxPending, states, actions, n);
  }

  // ----- when an action is admitted -----

  /** Why the full flag of a published connection may be up although the queue has a free slot: it is about to be
      refreshed, an event waits in the deque, the queue is closed, or the flag was left over and no event has come. */
  predicate FlagHasReason(c: Conn, leftOver: bool) {
    c.published && c.queueFull && FreeSlots(c) > 0 ==>
      || c.forwarder.Received? || c.phase.Flagging? || c.overflow != [] || QueueClosed(c)
      || (leftOver && c.history.accepted == multiset{})
  }

  lemma ReadingHasReason(c: Conn, event: Event, leftOver: bool)
    requires FlagHasReason(c, leftOver) && (c.reserved ==> c.overflow != [])
    ensures FlagHasReason(AfterEvent(c, event), leftOver)
  {
  }

  lemma MovingHasReason(c: Conn, leftOver: bool)
    requires FlagHasReason(c, leftOver) && c.overflow != []
    ensures FlagHasReason(MoveFront(c).(phase := Flagging), leftOver)
    ensures !c.published ==> FlagHasReason(MoveFront(c), leftOver)
    ensures !c.published ==> FlagHasReason(AfterDrainStop(c), leftOver)
  {
  }

  lemma RefreshingHasReason(c: Conn, leftOver: bool)
    ensures FlagHasReason(AfterFlagging(c), leftOver) && FlagHasReason(AfterUnpublish(c), leftOver)
    ensures FlagHasReason(AfterAbort(c), leftOver)
    ensures c.forwarder.Received? ==> FlagHasReason(AfterForwarderFlag(c), leftOver)
    ensures c.local != [] ==> FlagHasReason(AfterForwarderRecv(c, false), leftOver)
    ensures c.local != [] ==> FlagHasReason(AfterForwarderRecv(c, true), leftOver)
    ensures c.forwarder.Holding? ==> FlagHasReason(AfterForwarderFail(c), leftOver)
  {
  }

  lemma DeliveringHasReason(c: Conn, leftOver: bool)
    requires FlagHasReason(c, leftOver) && c.forwarder.Holding?
    ensures FlagHasReason(AfterForwarderDeliver(c), leftOver)
  {
  }

  /** A step that leaves the events alone at most gives a reservation back, which is held only for a waiting event. */
  lemma LeavingHasReason(c: Conn, d: Conn, leftOver: bool)
    requires FlagHasReason(c, leftOver) && (c.reserved ==> c.overflow != [])
    requires SameEvents(c, d) && d.queueFull == c.queueFull && d.published == c.published
    requires (c.phase.Flagging? ==> d.phase.Flagging?) && (d.reserved ==> c.reserved)
    ensures FlagHasReason(d, leftOver)
  {
  }

  lemma SendingLeavesPlace(c: Conn, maxPending: nat, now: int, t: Transmission)
    requires c.outbound != [] && c.phase.Head?
    ensures !AfterTransmitStart(c, maxPending, now, t).reserved
  {
  }

  lemma SettlingLeavesPlace(c: Conn, now: int, ok: bool, echo: nat)
    ensures !AfterExpire(c, now).reserved && !AfterResponse(c, echo).reserved
    ensures c.phase.Transmitting? ==> AfterTransmitEnd(c, ok).reserved == c.reserved
    ensures AfterFailPending(AfterFailUnsent(c)).reserved == c.reserved
  {
  }

  lemma OthersLeavePlace(c: Conn, maxPending: nat, a: Action)
    requires Enabled(c, maxPending, a) && !ByForwarder(a) && !ByTaskOnEvents(a) && !SetsFullFlag(a)
    ensures c.phase.Flagging? ==> Step(c, maxPending, a).phase.Flagging?
    ensures Step(c, maxPending, a).reserved ==> c.reserved
  {
    match a
    case Admit(action) =>
    case TakeOutbound(now, t) => SendingLeavesPlace(c, maxPending, now, t);
    case Tick(now) => SettlingLeavesPlace(c, now, false, 0);
    case TransmitEnd(ok) => SettlingLeavesPlace(c, 0, ok, 0);
    case ReadResponse(echo) => SettlingLeavesPlace(c, 0, false, echo);
    case FailAll => SettlingLeavesPlace(c, 0, false, 0);
    case Retire => SettlingLeavesPlace(c, 0, false, 0);
    case _ =>
  }

  lemma ForwarderHasReason(c: Conn, maxPending: nat, a: Action, leftOver: bool)
    requires Shape(c, maxPending) && FlagHasReason(c, leftOver) && Enabled(c, maxPending, a) && ByForwarder(a)
    ensures FlagHasReason(Step(c, maxPending, a), leftOver)
  {
    match a
    case ForwarderRecv(assign) => RefreshingHasReason(c, leftOver);
    case ForwarderFlag => RefreshingHasReason(c, leftOver);
    case ForwarderDeliver => DeliveringHasReason(c, leftOver);
    case ForwarderFail => RefreshingHasReason(c, leftOver);
    case ForwarderFinish =>
  }

  lemma StepHasReason(c: Conn, maxPending: nat, a: Action, leftOver: bool)
    requires Shape(c, maxPending) && FlagHasReason(c, leftOver) && Enabled(c, maxPending, a)
    ensures FlagHasReason(Step(c, maxPending, a), leftOver)
  {
    if ByForwarder(a) {
      ForwarderHasReason(c, maxPending, a, leftOver);
    } else if !ByTaskOnEvents(a) && !SetsFullFlag(a) {
      OthersKeepFlags(c, maxPending, a);
      OthersLeaveEvents(c, maxPending, a);
      OthersLeavePlace(c, maxPending, a);
      LeavingHasReason(c, Step(c, maxPending, a), leftOver);
    } else {
      match a
      case ReadEvent(event) => ReadingHasReason(c, event, leftOver);
      case MoveOverflow => MovingHasReason(c, leftOver);
      case DrainOne => MovingHasReason(c, leftOver);
      case DrainStop => MovingHasReason(c, leftOver);
      case RefreshFlags => RefreshingHasReason(c, leftOver);
      case Unpublish => RefreshingHasReason(c, leftOver);
      case Abort => RefreshingHasReason(c, leftOver);
    }
  }

  lemma {:induction false} FlagAlwaysHasReason(maxPending: nat, states: seq<Conn>, actions: seq<Action>, n: nat)
    requires Run(maxPending, states, actions) && n < |states|
    ensures FlagHasReason(states[n], states[0].queueFull)
  {
    if n > 0 {
      FlagAlwaysHasReason(maxPending, states, actions, n - 1);
      assert Follows(maxPending, states, actions, n - 1);
      RunsAreValid(maxPending, states, actions, n - 1);
      StepHasReason(states[n - 1], maxPending, actions[n - 1], states[0].queueFull);
    }
  }

  /** Backpressure is what it seems.  Whenever no flag is about to be refreshed, a published connection with a live
      forwarder, which did not start with a left-over flag or has had an event since, admits an action exactly when
      nothing waits in the deque, the event queue has a free slot, and so has the outbound queue. */
  lemma AdmitsExactlyWhen(maxPending: nat, states: seq<Conn>, actions: seq<Action>, n: nat)
    requires Run(maxPending, states, actions) && n < |states| && states[n].published && !states[n].phase.Flagging?
    requires states[n].forwarder.Idle? || states[n].forwarder.Holding?
    requires !states[0].queueFull || states[n].history.accepted != multiset{}
    ensures var c := states[n];
            Admits(c, maxPending) <==>
              c.overflow == [] && FreeSlots(c) > 0 && |c.outbound| < maxPending
  {
    RunsAreValid(maxPending, states, actions, n);
    FlagAlwaysHasReason(maxPending, states, actions, n);
  }
}
