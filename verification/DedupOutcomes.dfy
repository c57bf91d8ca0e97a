/** Which answer a claim gets, and which entry makes room for another. */
module DedupOutcomes {
  import opened Common
  import opened DedupStore
  import opened DedupRuns
  import opened DedupProperties

  // ----- the verdict of a claim -----

  /** Some committed entry has no waiters. */
  ghost predicate CanMakeRoom(s: MemoryState) {
    exists key :: IsCommitted(s, key) && key !in s.waiters
  }

  lemma RoomIsInTheQueue(s: MemoryState, capacity: nat)
    requires StoreValid(s, capacity)
    ensures CanMakeRoom(s) <==> s.evictable != []
  {
    if key :| IsCommitted(s, key) && key !in s.waiters {
      assert Evictable(s, (key, s.entries[key].token));
    }
    if s.evictable != [] {
      assert Evictable(s, s.evictable[0]);
    }
  }

  /** What the entries, the waiters and the number of pending claims say the answer must be. */
  ghost predicate AnswerFits(s: MemoryState, capacity: nat, key: DedupKey, guard: bool, newToken: Token, v: Verdict) {
    var room, mayWait := |s.entries| < capacity || CanMakeRoom(s), guard || s.pendingClaims < capacity;
    && (v.Duplicate? <==> key in s.entries && s.entries[key].Committed?)
    && (v.Granted? <==> key !in s.entries && room)
    && (v.OnKey? <==> key in s.entries && s.entries[key].InFlight? && mayWait)
    && (v.OnCapacity? <==> key !in s.entries && !room && mayWait)
    && (v.Saturated? <==> (if key in s.entries then s.entries[key].InFlight? else !room) && !mayWait)
    && (v.Granted? ==> v.token == newToken)
    && (v.OnKey? ==> v.token == s.entries[key].token && Get(s.channels, v.token) == Some(v.seen))
    && (v.OnCapacity? ==> v.seen == s.capacityVersion)
  }

  /** Duplicate exactly for a committed key, granted exactly for a free one with room, and otherwise the claim waits or,
      when it may not, is refused. */
  lemma VerdictExactlyWhen(s: MemoryState, capacity: nat, key: DedupKey, guard: bool, pin: bool, newToken: Token)
    requires StoreValid(s, capacity)
    ensures AnswerFits(s, capacity, key, guard, newToken, AfterPass(s, capacity, key, guard, pin, newToken).verdict)
  {
    RoomIsInTheQueue(s, capacity);
    EvictionRemovesFront(s, capacity);
    EvictionMakesRoom(s, capacity);
  }

  /** In all runs a claim that is tried gets the answer that fits, whether it is new or has waited. */
  lemma ClaimsGetTheirVerdict(capacity: nat, states: seq<System>, actions: seq<Action>, n: nat)
    requires Run(capacity, states, actions) && n < |actions| && actions[n].Attempt?
    ensures actions[n].i < |states[n].tasks| == |states[n + 1].tasks|
    ensures states[n + 1].tasks[actions[n].i].phase.Decided?
    ensures var t, t' := states[n].tasks[actions[n].i], states[n + 1].tasks[actions[n].i];
            AnswerFits(states[n].store, capacity, t.key, t.guard, actions[n].newToken, t'.phase.verdict)
  {
    RunsAreValid(capacity, states, actions, n);
    var t := states[n].tasks[actions[n].i];
    VerdictExactlyWhen(states[n].store, capacity, t.key, t.guard, t.pin, actions[n].newToken);
  }

  /** When the owner of a key releases it, the claims that waited for it are woken, and the first that is tried while
      the key is free and there is room owns it. */
  lemma ReleasedKeyIsGranted(sys: System, capacity: nat, i: nat, newToken: Token)
    requires Valid(sys, capacity) && Enabled(sys, Attempt(i, newToken)) && Waiting(sys.tasks[i])
    requires sys.tasks[i].key !in sys.store.entries
    requires |sys.store.entries| < capacity || CanMakeRoom(sys.store)
    ensures var sys' := Step(sys, capacity, Attempt(i, newToken));
            && sys'.tasks[i] == Task(sys.tasks[i].key, Decided(Granted(newToken)), false, false)
            && Slot(sys'.store, sys.tasks[i].key) == Some(InFlight(newToken))
  {
    var t := sys.tasks[i];
    VerdictExactlyWhen(sys.store, capacity, t.key, t.guard, t.pin, newToken);
    PassGrantsItsKey(sys.store, capacity, t.key, t.guard, t.pin, newToken);
    GrantHoldsNothing(sys.store, capacity, t.key, t.guard, t.pin, newToken);
  }

  lemma GrantHoldsNothing(s: MemoryState, capacity: nat, key: DedupKey, guard: bool, pin: bool, newToken: Token)
    ensures var pass := AfterPass(s, capacity, key, guard, pin, newToken);
            pass.verdict.Granted? ==> !pass.guard && !pass.pin
  {
  }

  predicate RefusalFits(t: Task) {
    t.phase.Refused? <==> |t.key.adapter| + |t.key.event| > 1024
  }

  lemma RefusalsStillFit(sys: System, capacity: nat, a: Action, i: nat)
    requires Enabled(sys, a) && i < |Step(sys, capacity, a).tasks|
    requires i < |sys.tasks| ==> RefusalFits(sys.tasks[i])
    ensures RefusalFits(Step(sys, capacity, a).tasks[i])
  {
  }

  /** A claim is refused for its size exactly when the two parts of its key have more than 1024 bytes. */
  lemma {:induction false} RefusedExactlyWhen(capacity: nat, states: seq<System>, actions: seq<Action>, n: nat, i: nat)
    requires Run(capacity, states, actions) && n < |states| && i < |states[n].tasks|
    ensures states[n].tasks[i].phase.Refused?
            <==> |states[n].tasks[i].key.adapter| + |states[n].tasks[i].key.event| > 1024
  {
    if n > 0 {
      if i < |states[n - 1].tasks| {
        RefusedExactlyWhen(capacity, states, actions, n - 1, i);
      }
      RefusalsStillFit(states[n - 1], capacity, actions[n - 1], i);
    }
  }

  // ----- the oldest entry makes room -----

  type Item = (DedupKey, Token)

  /** One step leaves the queue of evictable entries, takes its front, or adds an entry that has just become evictable
      at its back. */
  predicate QueueMoves(s: MemoryState, s': MemoryState) {
    || s'.evictable == s.evictable
    || (s.evictable != [] && s'.evictable == s.evictable[1..])
    || (|s'.evictable| == |s.evictable| + 1 && s'.evictable[..|s.evictable|] == s.evictable
        && !Evictable(s, s'.evictable[|s.evictable|]))
  }

  lemma UnpinMovesQueue(s: MemoryState, key: DedupKey, guard: bool, pin: bool)
    ensures QueueMoves(s, AfterSurrender(s, key, guard, pin))
    ensures key !in s.entries ==> AfterSurrender(s, key, guard, pin).evictable == s.evictable
  {
  }

  lemma PassMovesQueue(s: MemoryState, capacity: nat, key: DedupKey, guard: bool, pin: bool, newToken: Token)
    requires StoreValid(s, capacity)
    ensures QueueMoves(s, AfterPass(s, capacity, key, guard, pin, newToken).state)
  {
    match Slot(s, key)
    case Some(Committed(_)) => UnpinMovesQueue(s, key, guard, pin);
    case Some(InFlight(_)) =>
    case None =>
      EvictionRemovesFront(s, capacity);
      EvictionMakesRoom(s, capacity);
      UnpinMovesQueue(AfterEviction(s, capacity), key, guard, pin);
  }

  lemma StepMovesQueue(sys: System, capacity: nat, a: Action)
    requires Valid(sys, capacity) && Enabled(sys, a)
    ensures QueueMoves(sys.store, Step(sys, capacity, a).store)
  {
    match a
    case Attempt(i, newToken) =>
      PassMovesQueue(sys.store, capacity, sys.tasks[i].key, sys.tasks[i].guard, sys.tasks[i].pin, newToken);
    case Cancel(i) => UnpinMovesQueue(sys.store, sys.tasks[i].key, sys.tasks[i].guard, false);
    case DropPin(i) => UnpinMovesQueue(sys.store, sys.tasks[i].key, false, sys.tasks[i].pin);
    case _ =>
  }

  /** From step m to step n the first could have been evicted, and at step m the second could not. */
  ghost predicate LongerEvictable(states: seq<System>, m: nat, n: nat, first: Item, second: Item)
    requires m <= n < |states|
  {
    && !Evictable(states[m].store, second)
    && forall k :: m <= k <= n ==> Evictable(states[k].store, first)
  }

  /** Of two places in the queue, either the entries were there before, in this order, or the second is new. */
  lemma PlacesBefore(s: MemoryState, s': MemoryState, i: nat, j: nat) returns (i': nat, j': nat)
    requires EvictableExact(s) && QueueMoves(s, s') && i < j < |s'.evictable|
    ensures i' < |s.evictable| && s.evictable[i'] == s'.evictable[i]
    ensures Evictable(s, s'.evictable[j]) ==> i' < j' < |s.evictable| && s.evictable[j'] == s'.evictable[j]
  {
    i', j' := i, j;
    if s'.evictable != s.evictable && s.evictable != [] && s'.evictable == s.evictable[1..] {
      i', j' := i + 1, j + 1;
    }
  }

  /** The queue is in the order in which its entries became evictable. */
  lemma {:induction false} QueueIsByAge(capacity: nat, states: seq<System>, actions: seq<Action>, n: nat, i: nat,
      j: nat)
      returns (m: nat)
    requires Run(capacity, states, actions) && n < |states| && i < j < |states[n].store.evictable|
    ensures m <= n
    ensures LongerEvictable(states, m, n, states[n].store.evictable[i], states[n].store.evictable[j])
  {
    StepBeforeQueue(capacity, states, actions, n);
    var before, after := states[n - 1].store, states[n].store;
    var i', j' := PlacesBefore(before, after, i, j);
    if Evictable(before, after.evictable[j]) {
      m := QueueIsByAge(capacity, states, actions, n - 1, i', j');
    } else {
      m := n - 1;
    }
  }

  lemma StepBeforeQueue(capacity: nat, states: seq<System>, actions: seq<Action>, n: nat)
    requires Run(capacity, states, actions) && n < |states| && states[n].store.evictable != []
    ensures n > 0 && EvictableExact(states[n - 1].store) && EvictableExact(states[n].store)
    ensures QueueMoves(states[n - 1].store, states[n].store)
  {
    RunsAreValid(capacity, states, actions, n);
    RunsAreValid(capacity, states, actions, n - 1);
    StepMovesQueue(states[n - 1], capacity, actions[n - 1]);
  }

  lemma ForgottenIsFront(sys: System, capacity: nat, a: Action, key: DedupKey)
    requires Valid(sys, capacity) && Enabled(sys, a)
    requires IsCommitted(sys.store, key) && Slot(Step(sys, capacity, a).store, key) == None
    ensures sys.store.evictable != [] && sys.store.evictable[0] == (key, sys.store.entries[key].token)
  {
    SlotTransitions(sys, capacity, a, key);
    var t := sys.tasks[a.i];
    EvictionRemovesFront(sys.store, capacity);
    SurrenderSignals(AfterEviction(sys.store, capacity), t.key, t.guard, t.pin);
    assert Evictable(sys.store, sys.store.evictable[0]);
  }

  /** A committed entry is forgotten only when it is the one that has been evictable for longest: every other entry that
      could have gone became evictable later. */
  lemma OldestIsForgotten(capacity: nat, states: seq<System>, actions: seq<Action>, n: nat, key: DedupKey,
      token: Token, other: Item)
      returns (m: nat)
    requires Run(capacity, states, actions) && n < |actions|
    requires Slot(states[n].store, key) == Some(Committed(token)) && Slot(states[n + 1].store, key) == None
    requires Evictable(states[n].store, other) && other != (key, token)
    ensures m <= n && LongerEvictable(states, m, n, (key, token), other)
  {
    RunsAreValid(capacity, states, actions, n);
    ForgottenIsFront(states[n], capacity, actions[n], key);
    assert EvictableExact(states[n].store);
    assert other in states[n].store.evictable;
    var j :| 0 <= j < |states[n].store.evictable| && states[n].store.evictable[j] == other;
    m := QueueIsByAge(capacity, states, actions, n, 0, j);
  }
}
