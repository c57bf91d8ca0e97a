/**
 Every interleaving of claims, cancellations, commits and releases on one deduplication store.

 A step is one critical section of the store's mutex, or one signal that a release sends after it has
 unlocked.  Commits and releases take any key and token, so stale and forged claims are included.
 */
module DedupRuns {
  import opened Common
  import opened DedupStore

  /** A claim call is `Ready` until its first pass; a pass decides to wait or to return.  Dropping its
      future gives up the guard first (`Dropping`) and the pin second (`Dropped`). */
  datatype Phase = Ready | Decided(verdict: Verdict) | Refused | Dropping | Dropped

  datatype Task = Task(key: DedupKey, phase: Phase, guard: bool, pin: bool)

  /** What a release still has to signal now that it has unlocked. */
  datatype Release = KeyThenCapacity(token: Token) | CapacityOnly | Signalled

  datatype System = System(store: MemoryState, tasks: seq<Task>, releases: seq<Release>)

  datatype Action =
    | Begin(key: DedupKey)
    | Attempt(i: nat, newToken: Token)
    | Cancel(i: nat)
    | DropPin(i: nat)
    | CommitClaim(key: DedupKey, token: Token)
    | ReleaseClaim(key: DedupKey, token: Token)
    | Signal(r: nat)

  const INITIAL := System(EMPTY, [], [])

  predicate Waiting(t: Task) {
    t.phase.Decided? && (t.phase.verdict.OnKey? || t.phase.verdict.OnCapacity?)
  }

  predicate Live(t: Task) {
    t.phase.Ready? || Waiting(t)
  }

  /** The watched channel has moved past the version seen at the subscription. */
  predicate Woken(s: MemoryState, t: Task)
    requires Waiting(t)
  {
    match t.phase.verdict
    case OnKey(token, seen) => token in s.channels && s.channels[token] > seen
    case OnCapacity(seen) => s.capacityVersion > seen
    case _ => false
  }

  predicate Runnable(s: MemoryState, t: Task) {
    t.phase.Ready? || (Waiting(t) && Woken(s, t))
  }

  predicate Enabled(sys: System, a: Action) {
    match a
    case Begin(_) => true
    case Attempt(i, newToken) => i < |sys.tasks| && Runnable(sys.store, sys.tasks[i]) && newToken !in sys.store.channels
    case Cancel(i) => i < |sys.tasks| && Live(sys.tasks[i])
    case DropPin(i) => i < |sys.tasks| && sys.tasks[i].phase.Dropping?
    case CommitClaim(_, _) => true
    case ReleaseClaim(_, _) => true
    case Signal(r) => r < |sys.releases| && !sys.releases[r].Signalled?
  }

  function Step(sys: System, capacity: nat, a: Action): System
    requires Enabled(sys, a)
  {
    match a
    case Begin(key) =>
      sys.(tasks := sys.tasks + [Task(key, if Oversized(key) then Refused else Ready, false, false)])
    case Attempt(i, newToken) =>
      var t := sys.tasks[i];
      var pass := AfterPass(sys.store, capacity, t.key, t.guard, t.pin, newToken);
      System(pass.state, sys.tasks[i := Task(t.key, Decided(pass.verdict), pass.guard, pass.pin)], sys.releases)
    case Cancel(i) =>
      var t := sys.tasks[i];
      System(AfterSurrender(sys.store, t.key, t.guard, false),
            sys.tasks[i := t.(phase := Dropping, guard := false)], sys.releases)
    case DropPin(i) =>
      var t := sys.tasks[i];
      System(AfterSurrender(sys.store, t.key, false, t.pin), sys.tasks[i := t.(phase := Dropped, pin := false)],
            sys.releases)
    case CommitClaim(key, token) =>
      sys.(store := AfterCommit(sys.store, key, token).0)
    case ReleaseClaim(key, token) =>
      var (store, _, removed) := AfterRelease(sys.store, key, token);
      System(store, sys.tasks, if removed then sys.releases + [KeyThenCapacity(token)] else sys.releases)
    case Signal(r) =>
      if sys.releases[r].KeyThenCapacity? then
        System(SignalKey(sys.store, sys.releases[r].token), sys.tasks, sys.releases[r := CapacityOnly])
      else
        System(SignalCapacity(sys.store), sys.tasks, sys.releases[r := Signalled])
  }

  /** A run lists the states between its actions. */
  ghost predicate Run(capacity: nat, states: seq<System>, actions: seq<Action>) {
    && |states| == |actions| + 1
    && states[0] == INITIAL
    && forall n :: 0 <= n < |actions| ==>
       Enabled(states[n], actions[n]) && states[n + 1] == Step(states[n], capacity, actions[n])
  }

  // ----- the invariant -----

  /** A committed entry that no waiter holds on to. */
  predicate Evictable(s: MemoryState, item: (DedupKey, Token)) {
    Slot(s, item.0) == Some(Committed(item.1)) && item.0 !in s.waiters
  }

  ghost predicate EvictableExact(s: MemoryState) {
    && (forall i :: 0 <= i < |s.evictable| ==> Evictable(s, s.evictable[i]))
    && (forall item :: Evictable(s, item) ==> item in s.evictable)
    && (forall i, j :: 0 <= i < j < |s.evictable| ==> s.evictable[i].0 != s.evictable[j].0)
  }

  ghost predicate StoreValid(s: MemoryState, capacity: nat) {
    && |s.entries| <= capacity
    && (forall key :: key in s.waiters ==> s.waiters[key] > 0)
    && (forall key :: key in s.entries ==> s.entries[key].token in s.channels)
    && EvictableExact(s)
  }

  function PinOn(key: DedupKey): Task -> nat {
    (t: Task) => if t.pin && t.key == key then 1 else 0
  }

  function HoldsGuard(): Task -> nat {
    (t: Task) => if t.guard then 1 else 0
  }

  ghost predicate Accounted(sys: System, capacity: nat) {
    && sys.store.pendingClaims == Sum(sys.tasks, HoldsGuard()) <= capacity
    && forall key :: Waiters(sys.store, key) == Sum(sys.tasks, PinOn(key))
  }

  /** Which of guard and pin a claim holds in each phase. */
  predicate HoldsFitPhase(t: Task) {
    match t.phase
    case Ready => !t.guard && !t.pin
    case Decided(OnKey(_, _)) => t.guard && t.pin
    case Decided(OnCapacity(_)) => t.guard
    case Dropping => !t.guard
    case _ => !t.guard && !t.pin
  }

  ghost predicate KeySignalUnsent(sys: System, token: Token) {
    KeyThenCapacity(token) in sys.releases
  }

  ghost predicate CapacitySignalUnsent(sys: System) {
    exists r :: 0 <= r < |sys.releases| && !sys.releases[r].Signalled?
  }

  predicate Full(s: MemoryState, capacity: nat) {
    |s.entries| >= capacity && s.evictable == []
  }

  /** No wake-up is lost: a claim waits without an unseen signal only while what it waits for still holds,
      or a release that changed it has yet to signal. */
  ghost predicate WaitJustified(sys: System, capacity: nat, t: Task)
    requires Waiting(t)
  {
    match t.phase.verdict
    case OnKey(token, seen) =>
      && token in sys.store.channels && seen <= sys.store.channels[token]
      && (seen == sys.store.channels[token] ==>
            Slot(sys.store, t.key) == Some(InFlight(token)) || KeySignalUnsent(sys, token))
    case OnCapacity(seen) =>
      && seen <= sys.store.capacityVersion
      && (seen == sys.store.capacityVersion ==>
            !IsCommitted(sys.store, t.key) && (Full(sys.store, capacity) || CapacitySignalUnsent(sys)))
    case _ => true
  }

  ghost predicate Valid(sys: System, capacity: nat) {
    && StoreValid(sys.store, capacity)
    && Accounted(sys, capacity)
    && (forall i :: 0 <= i < |sys.tasks| ==> HoldsFitPhase(sys.tasks[i]))
    && (forall i :: 0 <= i < |sys.tasks| && Waiting(sys.tasks[i]) ==> WaitJustified(sys, capacity, sys.tasks[i]))
  }

  // ----- store lemmas -----

  function WithoutFront(s: MemoryState): MemoryState
    requires s.evictable != []
  {
    s.(evictable := s.evictable[1..], entries := s.entries - {s.evictable[0].0})
  }

  /** On a valid store, making room removes the front of the queue and nothing else. */
  lemma EvictionRemovesFront(s: MemoryState, capacity: nat)
    requires StoreValid(s, capacity)
    ensures AfterEviction(s, capacity) == if |s.entries| < capacity || s.evictable == [] then s else WithoutFront(s)
  {
    if |s.entries| >= capacity && s.evictable != [] {
      assert s.evictable[0].0 in s.entries;
      assert s.entries.Keys == WithoutFront(s).entries.Keys + {s.evictable[0].0};
      assert |WithoutFront(s).entries| < capacity;
    }
  }

  lemma FrontIsGone(s: MemoryState)
    requires EvictableExact(s) && s.evictable != []
    ensures EvictableExact(WithoutFront(s))
  {
    var after := WithoutFront(s);
    forall item | Evictable(after, item) ensures item in after.evictable {
      assert Evictable(s, item);
    }
  }

  lemma EvictionKeepsStore(s: MemoryState, capacity: nat)
    requires StoreValid(s, capacity)
    ensures StoreValid(AfterEviction(s, capacity), capacity)
  {
    EvictionRemovesFront(s, capacity);
    if |s.entries| >= capacity && s.evictable != [] {
      FrontIsGone(s);
      assert s.entries.Keys == WithoutFront(s).entries.Keys + {s.evictable[0].0};
    }
  }

  lemma SameEvictable(s: MemoryState, s': MemoryState)
    requires EvictableExact(s) && s'.evictable == s.evictable
    requires forall item :: Evictable(s', item) <==> Evictable(s, item)
    ensures EvictableExact(s')
  {
  }

  lemma OneMoreEvictable(s: MemoryState, s': MemoryState, item: (DedupKey, Token))
    requires EvictableExact(s) && s'.evictable == s.evictable + [item] && Evictable(s', item)
    requires forall other :: Evictable(s, other) ==> other.0 != item.0 && Evictable(s', other)
    requires forall other :: Evictable(s', other) && other.0 != item.0 ==> Evictable(s, other)
    ensures EvictableExact(s')
  {
    assert s'.evictable[|s.evictable|] == item;
    forall other | Evictable(s', other) ensures other in s'.evictable {
      if other.0 != item.0 {
        assert other in s.evictable;
      }
    }
  }

  lemma UnpinKeepsStore(s: MemoryState, capacity: nat, key: DedupKey)
    requires StoreValid(s, capacity)
    ensures StoreValid(AfterUnpin(s, key), capacity)
  {
    var after := AfterUnpin(s, key);
    if key in s.waiters && Pred(s.waiters[key]) == 0 && IsCommitted(s, key) {
      OneMoreEvictable(s, after, (key, s.entries[key].token));
    } else {
      SameEvictable(s, after);
    }
  }

  lemma CommitKeepsStore(s: MemoryState, capacity: nat, key: DedupKey, token: Token)
    requires StoreValid(s, capacity)
    ensures StoreValid(AfterCommit(s, key, token).0, capacity)
    ensures AfterCommit(s, key, token).0.waiters == s.waiters
    ensures AfterCommit(s, key, token).0.pendingClaims == s.pendingClaims
  {
    var after := AfterCommit(s, key, token).0;
    if Slot(s, key) == Some(InFlight(token)) {
      assert after.entries.Keys == s.entries.Keys;
      assert |after.entries| == |s.entries|;
      if Waiters(s, key) == 0 {
        OneMoreEvictable(s, after, (key, token));
      } else {
        SameEvictable(s, after);
      }
    }
  }

  lemma ReleaseKeepsStore(s: MemoryState, capacity: nat, key: DedupKey, token: Token)
    requires StoreValid(s, capacity)
    ensures StoreValid(AfterRelease(s, key, token).0, capacity)
  {
    var after := AfterRelease(s, key, token).0;
    assert after.entries.Keys <= s.entries.Keys;
    if after != s {
      assert s.entries.Keys == after.entries.Keys + {key};
    }
  }

  // ----- every step keeps the invariant -----

  /** What a waiting claim may have subscribed to never changes silently: the channel moves on, or a
      release that still has to signal is there to move it on. */
  ghost predicate ChangesAreSignalled(sys: System, sys': System, capacity: nat) {
    && (forall token :: token in sys.store.channels ==>
          token in sys'.store.channels && sys.store.channels[token] <= sys'.store.channels[token])
    && (forall token :: token in sys.store.channels && sys'.store.channels[token] == sys.store.channels[token] ==>
          && (forall key :: Slot(sys.store, key) == Some(InFlight(token)) ==>
                Slot(sys'.store, key) == Some(InFlight(token)) || KeySignalUnsent(sys', token))
          && (KeySignalUnsent(sys, token) ==> KeySignalUnsent(sys', token)))
    && sys.store.capacityVersion <= sys'.store.capacityVersion
    && (sys'.store.capacityVersion == sys.store.capacityVersion ==>
          && (forall key :: IsCommitted(sys'.store, key) ==> IsCommitted(sys.store, key))
          && (Full(sys.store, capacity) ==> Full(sys'.store, capacity) || CapacitySignalUnsent(sys'))
          && (CapacitySignalUnsent(sys) ==> CapacitySignalUnsent(sys')))
  }

  lemma JustificationCarries(sys: System, sys': System, capacity: nat, t: Task)
    requires Waiting(t) && WaitJustified(sys, capacity, t)
    requires ChangesAreSignalled(sys, sys', capacity)
    ensures WaitJustified(sys', capacity, t)
  {
  }

  /** Replacing task i by one that holds the guard and pin given keeps the counts exact when the store's
      counters moved with it. */
  lemma CountsFollow(sys: System, capacity: nat, i: nat, t: Task, store: MemoryState)
    requires Accounted(sys, capacity) && i < |sys.tasks| && t.key == sys.tasks[i].key
    requires store.pendingClaims + HoldsGuard()(sys.tasks[i]) == sys.store.pendingClaims + HoldsGuard()(t)
    requires store.pendingClaims <= capacity
    requires forall key :: Waiters(store, key) + PinOn(key)(sys.tasks[i]) == Waiters(sys.store, key) + PinOn(key)(t)
    ensures Accounted(System(store, sys.tasks[i := t], sys.releases), capacity)
  {
    SumUpdate(sys.tasks, i, t, HoldsGuard());
    forall key ensures Waiters(store, key) == Sum(sys.tasks[i := t], PinOn(key)) {
      SumUpdate(sys.tasks, i, t, PinOn(key));
    }
  }

  /** A claim that holds a guard or a pin is counted, so giving one back never underflows. */
  lemma HoldsAreCounted(sys: System, capacity: nat, i: nat)
    requires Accounted(sys, capacity) && i < |sys.tasks|
    ensures sys.tasks[i].guard ==> sys.store.pendingClaims > 0
    ensures sys.tasks[i].pin ==> Waiters(sys.store, sys.tasks[i].key) > 0
  {
    SumAtLeast(sys.tasks, i, HoldsGuard());
    SumAtLeast(sys.tasks, i, PinOn(sys.tasks[i].key));
  }

  /** Giving up a pin uncounts it, and making an entry evictable is signalled. */
  lemma UnpinEffect(s: MemoryState, key: DedupKey)
    requires Waiters(s, key) > 0
    ensures var s' := AfterUnpin(s, key);
            && s'.entries == s.entries && s'.channels == s.channels && s'.pendingClaims == s.pendingClaims
            && (forall k :: Waiters(s', k) + One(k == key) == Waiters(s, k))
            && s.capacityVersion <= s'.capacityVersion
            && (s'.capacityVersion == s.capacityVersion ==> s'.evictable == s.evictable)
  {
  }

  /** The counters move by exactly what is given back. */
  lemma SurrenderEffect(s: MemoryState, capacity: nat, key: DedupKey, guard: bool, pin: bool)
    requires StoreValid(s, capacity)
    requires (guard ==> s.pendingClaims > 0) && (pin ==> Waiters(s, key) > 0)
    ensures var s' := AfterSurrender(s, key, guard, pin);
            && StoreValid(s', capacity)
            && s'.entries == s.entries && s'.channels == s.channels
            && s'.pendingClaims + One(guard) == s.pendingClaims
            && (forall k :: Waiters(s', k) + One(pin && k == key) == Waiters(s, k))
  {
    var unguarded := AfterSurrender(s, key, guard, false);
    assert StoreValid(unguarded, capacity);
    if pin {
      UnpinEffect(unguarded, key);
      UnpinKeepsStore(unguarded, capacity, key);
    }
  }

  lemma GrantKeepsStore(s: MemoryState, capacity: nat, key: DedupKey, newToken: Token)
    requires StoreValid(s, capacity) && |s.entries| < capacity && key !in s.entries
    ensures StoreValid(AfterGrant(s, key, newToken), capacity)
  {
    var after := AfterGrant(s, key, newToken);
    assert after.entries.Keys == s.entries.Keys + {key};
    assert |after.entries| == |s.entries| + 1;
    GrantIsNotEvictable(s, key, newToken);
    SameEvictable(s, after);
  }

  lemma GrantIsNotEvictable(s: MemoryState, key: DedupKey, newToken: Token)
    requires key !in s.entries
    ensures forall item :: Evictable(AfterGrant(s, key, newToken), item) <==> Evictable(s, item)
  {
    forall item ensures Evictable(AfterGrant(s, key, newToken), item) <==> Evictable(s, item) {
      if item.0 != key {
        assert Slot(AfterGrant(s, key, newToken), item.0) == Slot(s, item.0);
      }
    }
  }

  /** Only an in-flight entry gains a pin, so no queued eviction is affected. */
  lemma PinKeepsStore(s: MemoryState, capacity: nat, key: DedupKey)
    requires StoreValid(s, capacity) && key in s.entries && s.entries[key].InFlight?
    ensures StoreValid(AfterPin(s, key), capacity)
  {
  }

  ghost predicate PassAccounted(s: MemoryState, capacity: nat, key: DedupKey, guard: bool, pin: bool, pass: Pass) {
    && StoreValid(pass.state, capacity)
    && pass.state.pendingClaims + One(guard) == s.pendingClaims + One(pass.guard)
    && pass.state.pendingClaims <= capacity
    && (forall k :: Waiters(pass.state, k) + One(pin && k == key) == Waiters(s, k) + One(pass.pin && k == key))
  }

  lemma InFlightPassAccounted(s: MemoryState, capacity: nat, key: DedupKey, token: Token, guard: bool, pin: bool)
    requires StoreValid(s, capacity) && s.pendingClaims <= capacity && Slot(s, key) == Some(InFlight(token))
    ensures PassAccounted(s, capacity, key, guard, pin, PassOnInFlight(s, capacity, key, token, guard, pin))
  {
    PinKeepsStore(AfterAdmission(s, guard), capacity, key);
  }

  lemma AbsentPassAccounted(s: MemoryState, capacity: nat, key: DedupKey, guard: bool, pin: bool, newToken: Token)
    requires StoreValid(s, capacity) && s.pendingClaims <= capacity && key !in s.entries
    requires (guard ==> s.pendingClaims > 0) && (pin ==> Waiters(s, key) > 0)
    ensures PassAccounted(s, capacity, key, guard, pin, PassOnAbsent(s, capacity, key, guard, pin, newToken))
  {
    if |s.entries| < capacity {
      SurrenderEffect(s, capacity, key, guard, pin);
      GrantKeepsStore(AfterSurrender(s, key, guard, pin), capacity, key, newToken);
    }
  }

  lemma CommittedPassAccounted(s: MemoryState, capacity: nat, key: DedupKey, guard: bool, pin: bool)
    requires StoreValid(s, capacity) && s.pendingClaims <= capacity
    requires (guard ==> s.pendingClaims > 0) && (pin ==> Waiters(s, key) > 0)
    ensures PassAccounted(s, capacity, key, guard, pin,
            Pass(AfterSurrender(s, key, guard, pin), Duplicate, false, false))
  {
    SurrenderEffect(s, capacity, key, guard, pin);
  }

  lemma EvictingPassAccounted(s: MemoryState, capacity: nat, key: DedupKey, guard: bool, pin: bool, newToken: Token)
    requires StoreValid(s, capacity) && s.pendingClaims <= capacity && key !in s.entries
    requires (guard ==> s.pendingClaims > 0) && (pin ==> Waiters(s, key) > 0)
    ensures PassAccounted(s, capacity, key, guard, pin,
            PassOnAbsent(AfterEviction(s, capacity), capacity, key, guard, pin, newToken))
  {
    EvictionRemovesFront(s, capacity);
    EvictionKeepsStore(s, capacity);
    var evicted := AfterEviction(s, capacity);
    AbsentPassAccounted(evicted, capacity, key, guard, pin, newToken);
    assert forall k :: Waiters(evicted, k) == Waiters(s, k);
  }

  /** One pass through the claim loop keeps the store valid, and its counters move with the guard and
      the pin of the claim. */
  lemma PassKeepsStore(s: MemoryState, capacity: nat, key: DedupKey, guard: bool, pin: bool, newToken: Token)
    requires StoreValid(s, capacity) && s.pendingClaims <= capacity
    requires (guard ==> s.pendingClaims > 0) && (pin ==> Waiters(s, key) > 0)
    ensures PassAccounted(s, capacity, key, guard, pin, AfterPass(s, capacity, key, guard, pin, newToken))
  {
    match Slot(s, key)
    case Some(Committed(_)) =>
      CommittedPassAccounted(s, capacity, key, guard, pin);
    case Some(InFlight(token)) =>
      InFlightPassAccounted(s, capacity, key, token, guard, pin);
    case None =>
      EvictingPassAccounted(s, capacity, key, guard, pin, newToken);
  }

  /** What a step that sends its signals under the lock satisfies on its own. */
  ghost predicate StoreSignals(s: MemoryState, s': MemoryState, capacity: nat) {
    && (forall token :: token in s.channels ==> token in s'.channels && s.channels[token] <= s'.channels[token])
    && (forall key :: key in s.entries && s.entries[key].InFlight? ==>
          var token := s.entries[key].token;
          token in s.channels && (Slot(s', key) == Some(InFlight(token)) || s'.channels[token] > s.channels[token]))
    && s.capacityVersion <= s'.capacityVersion
    && (s'.capacityVersion == s.capacityVersion ==>
          && (forall key :: IsCommitted(s', key) ==> IsCommitted(s, key))
          && (Full(s, capacity) ==> Full(s', capacity)))
  }

  lemma StoreSignalsSuffice(sys: System, sys': System, capacity: nat)
    requires StoreSignals(sys.store, sys'.store, capacity) && sys'.releases == sys.releases
    ensures ChangesAreSignalled(sys, sys', capacity)
  {
  }

  lemma SurrenderSignals(s: MemoryState, key: DedupKey, guard: bool, pin: bool)
    ensures var s' := AfterSurrender(s, key, guard, pin);
            && s'.entries == s.entries && s'.channels == s.channels
            && s.capacityVersion <= s'.capacityVersion
            && (s'.capacityVersion == s.capacityVersion ==> s'.evictable == s.evictable)
  {
  }

  /** Evicting the front and inserting an in-flight entry for an absent key is no change a waiter watches. */
  lemma GrantSignals(s: MemoryState, capacity: nat, evicted: MemoryState, key: DedupKey, newToken: Token)
    requires forall k :: k in s.entries ==> s.entries[k].token in s.channels
    requires forall k :: k in s.entries && s.entries[k].InFlight? ==> Slot(evicted, k) == Slot(s, k)
    requires forall k :: IsCommitted(evicted, k) ==> IsCommitted(s, k)
    requires evicted.channels == s.channels && newToken !in s.channels && key !in s.entries
    requires s.capacityVersion <= evicted.capacityVersion && !Full(s, capacity)
    ensures StoreSignals(s, AfterGrant(evicted, key, newToken), capacity)
  {
  }

  lemma InFlightPassSignals(s: MemoryState, capacity: nat, key: DedupKey, token: Token, guard: bool, pin: bool)
    requires forall k :: k in s.entries ==> s.entries[k].token in s.channels
    ensures StoreSignals(s, PassOnInFlight(s, capacity, key, token, guard, pin).state, capacity)
  {
  }

  /** What making room does to a store that a waiting claim watches: nothing, but for unpinned committed entries. */
  ghost predicate MakesRoom(s: MemoryState, capacity: nat, evicted: MemoryState) {
    && evicted.channels == s.channels && evicted.capacityVersion == s.capacityVersion && evicted.waiters == s.waiters
    && (evicted == s
        || (!Full(s, capacity) && |s.entries| == capacity && |evicted.entries| < capacity
            && forall k :: Slot(evicted, k) == Slot(s, k)
                           || (IsCommitted(s, k) && k !in s.waiters && Slot(evicted, k) == None)))
  }

  lemma EvictionMakesRoom(s: MemoryState, capacity: nat)
    requires StoreValid(s, capacity)
    ensures MakesRoom(s, capacity, AfterEviction(s, capacity))
    ensures |AfterEviction(s, capacity).entries| >= capacity ==> AfterEviction(s, capacity) == s && s.evictable == []
  {
    EvictionRemovesFront(s, capacity);
    if |s.entries| >= capacity && s.evictable != [] {
      FrontGoes(s);
    }
  }

  lemma FrontGoes(s: MemoryState)
    requires EvictableExact(s) && s.evictable != []
    ensures |WithoutFront(s).entries| == |s.entries| - 1
    ensures forall k :: Slot(WithoutFront(s), k) == Slot(s, k)
                        || (IsCommitted(s, k) && k !in s.waiters && Slot(WithoutFront(s), k) == None)
  {
    var front := s.evictable[0];
    assert Evictable(s, front);
    assert s.entries.Keys == WithoutFront(s).entries.Keys + {front.0};
  }

  lemma AbsentPassSignals(s: MemoryState, capacity: nat, evicted: MemoryState, key: DedupKey, guard: bool, pin: bool,
      newToken: Token)
    requires MakesRoom(s, capacity, evicted) && (|evicted.entries| >= capacity ==> evicted == s)
    requires forall k :: k in s.entries ==> s.entries[k].token in s.channels
    requires newToken !in s.channels && key !in s.entries
    ensures StoreSignals(s, PassOnAbsent(evicted, capacity, key, guard, pin, newToken).state, capacity)
  {
    if |evicted.entries| < capacity {
      SurrenderSignals(evicted, key, guard, pin);
      RoomIsForGranting(s, capacity, evicted);
      GrantSignals(s, capacity, AfterSurrender(evicted, key, guard, pin), key, newToken);
    }
  }

  lemma RoomIsForGranting(s: MemoryState, capacity: nat, evicted: MemoryState)
    requires MakesRoom(s, capacity, evicted) && |evicted.entries| < capacity
    ensures !Full(s, capacity)
    ensures forall k :: k in s.entries && s.entries[k].InFlight? ==> Slot(evicted, k) == Slot(s, k)
    ensures forall k :: IsCommitted(evicted, k) ==> IsCommitted(s, k)
  {
    forall k | IsCommitted(evicted, k) ensures IsCommitted(s, k) {
      assert Slot(evicted, k) == Slot(s, k);
    }
  }

  /** A pass changes nothing silently. */
  lemma PassSignals(s: MemoryState, capacity: nat, key: DedupKey, guard: bool, pin: bool, newToken: Token)
    requires StoreValid(s, capacity) && newToken !in s.channels
    ensures StoreSignals(s, AfterPass(s, capacity, key, guard, pin, newToken).state, capacity)
  {
    match Slot(s, key)
    case Some(Committed(_)) =>
      SurrenderSignals(s, key, guard, pin);
    case Some(InFlight(token)) =>
      InFlightPassSignals(s, capacity, key, token, guard, pin);
    case None =>
      EvictionMakesRoom(s, capacity);
      AbsentPassSignals(s, capacity, AfterEviction(s, capacity), key, guard, pin, newToken);
  }

  /** The verdict fits what the claim then holds, and a wait is justified at the moment it starts. */
  ghost predicate VerdictFits(sys: System, capacity: nat, key: DedupKey, guard: bool, pin: bool, pass: Pass) {
    var t := Task(key, Decided(pass.verdict), pass.guard, pass.pin);
    && ((pin ==> guard) ==> HoldsFitPhase(t))
    && (Waiting(t) ==> WaitJustified(sys.(store := pass.state), capacity, t) && !Woken(pass.state, t))
  }

  lemma InFlightVerdictFits(sys: System, capacity: nat, key: DedupKey, token: Token, guard: bool, pin: bool)
    requires StoreValid(sys.store, capacity) && Slot(sys.store, key) == Some(InFlight(token))
    ensures VerdictFits(sys, capacity, key, guard, pin, PassOnInFlight(sys.store, capacity, key, token, guard, pin))
  {
  }

  lemma AbsentVerdictFits(sys: System, capacity: nat, s: MemoryState, key: DedupKey, guard: bool, pin: bool,
        newToken: Token)
    requires key !in s.entries && (|s.entries| >= capacity ==> s.evictable == [])
    ensures VerdictFits(sys, capacity, key, guard, pin, PassOnAbsent(s, capacity, key, guard, pin, newToken))
  {
  }

  lemma VerdictJustified(sys: System, capacity: nat, key: DedupKey, guard: bool, pin: bool, newToken: Token)
    requires StoreValid(sys.store, capacity)
    ensures VerdictFits(sys, capacity, key, guard, pin, AfterPass(sys.store, capacity, key, guard, pin, newToken))
  {
    match Slot(sys.store, key)
    case Some(Committed(_)) =>
    case Some(InFlight(token)) =>
      InFlightVerdictFits(sys, capacity, key, token, guard, pin);
    case None =>
      EvictionMakesRoom(sys.store, capacity);
      StaysAbsent(sys.store, capacity, AfterEviction(sys.store, capacity), key);
      AbsentVerdictFits(sys, capacity, AfterEviction(sys.store, capacity), key, guard, pin, newToken);
  }

  lemma StaysAbsent(s: MemoryState, capacity: nat, evicted: MemoryState, key: DedupKey)
    requires MakesRoom(s, capacity, evicted) && key !in s.entries
    ensures key !in evicted.entries
  {
    assert Slot(evicted, key) == Slot(s, key) || IsCommitted(s, key);
  }

  lemma OthersStayJustified(sys: System, sys': System, capacity: nat, i: nat)
    requires Valid(sys, capacity) && i <= |sys.tasks| == |sys'.tasks|
    requires forall j :: 0 <= j < |sys.tasks| && j != i ==> sys'.tasks[j] == sys.tasks[j]
    requires ChangesAreSignalled(sys, sys', capacity)
    ensures forall j :: 0 <= j < |sys'.tasks| && j != i && Waiting(sys'.tasks[j]) ==>
              WaitJustified(sys', capacity, sys'.tasks[j])
  {
    forall j | 0 <= j < |sys'.tasks| && j != i && Waiting(sys'.tasks[j])
      ensures WaitJustified(sys', capacity, sys'.tasks[j])
    {
      JustificationCarries(sys, sys', capacity, sys.tasks[j]);
    }
  }

  /** What is left to show for a step of one claim. */
  lemma ClaimStepKeepsValid(sys: System, sys': System, capacity: nat, i: nat)
    requires Valid(sys, capacity) && i < |sys.tasks| == |sys'.tasks|
    requires StoreValid(sys'.store, capacity) && Accounted(sys', capacity)
    requires sys'.releases == sys.releases && StoreSignals(sys.store, sys'.store, capacity)
    requires forall j :: 0 <= j < |sys.tasks| && j != i ==> sys'.tasks[j] == sys.tasks[j]
    requires HoldsFitPhase(sys'.tasks[i])
    requires Waiting(sys'.tasks[i]) ==> WaitJustified(sys', capacity, sys'.tasks[i])
    ensures Valid(sys', capacity)
  {
    StoreSignalsSuffice(sys, sys', capacity);
    OthersStayJustified(sys, sys', capacity, i);
  }

  lemma PassKeepsValid(sys: System, capacity: nat, i: nat, pass: Pass)
    requires Valid(sys, capacity) && i < |sys.tasks| && (sys.tasks[i].pin ==> sys.tasks[i].guard)
    requires PassAccounted(sys.store, capacity, sys.tasks[i].key, sys.tasks[i].guard, sys.tasks[i].pin, pass)
    requires VerdictFits(sys, capacity, sys.tasks[i].key, sys.tasks[i].guard, sys.tasks[i].pin, pass)
    requires StoreSignals(sys.store, pass.state, capacity)
    ensures var t := Task(sys.tasks[i].key, Decided(pass.verdict), pass.guard, pass.pin);
            Valid(System(pass.state, sys.tasks[i := t], sys.releases), capacity)
  {
    var t := Task(sys.tasks[i].key, Decided(pass.verdict), pass.guard, pass.pin);
    var sys' := System(pass.state, sys.tasks[i := t], sys.releases);
    CountsFollow(sys, capacity, i, t, pass.state);
    if Waiting(t) {
      assert WaitJustified(sys.(store := pass.state), capacity, t);
      JustifiedByStore(sys.(store := pass.state), sys', capacity, t);
    }
    ClaimStepKeepsValid(sys, sys', capacity, i);
  }

  lemma JustifiedByStore(sys: System, sys': System, capacity: nat, t: Task)
    requires Waiting(t) && WaitJustified(sys, capacity, t) && sys'.store == sys.store && sys'.releases == sys.releases
    ensures WaitJustified(sys', capacity, t)
  {
  }

  lemma AttemptKeepsValid(sys: System, capacity: nat, i: nat, newToken: Token)
    requires Valid(sys, capacity) && Enabled(sys, Attempt(i, newToken))
    ensures Valid(Step(sys, capacity, Attempt(i, newToken)), capacity)
  {
    var s, t := sys.store, sys.tasks[i];
    HoldsAreCounted(sys, capacity, i);
    PassKeepsStore(s, capacity, t.key, t.guard, t.pin, newToken);
    VerdictJustified(sys, capacity, t.key, t.guard, t.pin, newToken);
    PassSignals(s, capacity, t.key, t.guard, t.pin, newToken);
    assert HoldsFitPhase(t);
    PassKeepsValid(sys, capacity, i, AfterPass(s, capacity, t.key, t.guard, t.pin, newToken));
  }

  lemma GiveBackSignals(s: MemoryState, capacity: nat, key: DedupKey, guard: bool, pin: bool)
    requires StoreValid(s, capacity)
    ensures StoreSignals(s, AfterSurrender(s, key, guard, pin), capacity)
  {
    SurrenderSignals(s, key, guard, pin);
  }

  lemma CancelKeepsValid(sys: System, capacity: nat, i: nat)
    requires Valid(sys, capacity) && Enabled(sys, Cancel(i))
    ensures Valid(Step(sys, capacity, Cancel(i)), capacity)
  {
    var t, sys' := sys.tasks[i], Step(sys, capacity, Cancel(i));
    HoldsAreCounted(sys, capacity, i);
    SurrenderEffect(sys.store, capacity, t.key, t.guard, false);
    CountsFollow(sys, capacity, i, sys'.tasks[i], sys'.store);
    GiveBackSignals(sys.store, capacity, t.key, t.guard, false);
    ClaimStepKeepsValid(sys, sys', capacity, i);
  }

  lemma DropPinKeepsValid(sys: System, capacity: nat, i: nat)
    requires Valid(sys, capacity) && Enabled(sys, DropPin(i))
    ensures Valid(Step(sys, capacity, DropPin(i)), capacity)
  {
    var t, sys' := sys.tasks[i], Step(sys, capacity, DropPin(i));
    HoldsAreCounted(sys, capacity, i);
    SurrenderEffect(sys.store, capacity, t.key, false, t.pin);
    CountsFollow(sys, capacity, i, sys'.tasks[i], sys'.store);
    GiveBackSignals(sys.store, capacity, t.key, false, t.pin);
    ClaimStepKeepsValid(sys, sys', capacity, i);
  }

  lemma BeginKeepsValid(sys: System, capacity: nat, key: DedupKey)
    requires Valid(sys, capacity)
    ensures Valid(Step(sys, capacity, Begin(key)), capacity)
  {
    var sys' := Step(sys, capacity, Begin(key));
    var t := sys'.tasks[|sys.tasks|];
    SumAppend(sys.tasks, t, HoldsGuard());
    forall k ensures Waiters(sys'.store, k) == Sum(sys'.tasks, PinOn(k)) {
      SumAppend(sys.tasks, t, PinOn(k));
    }
    forall j | 0 <= j < |sys'.tasks| && Waiting(sys'.tasks[j]) ensures WaitJustified(sys', capacity, sys'.tasks[j]) {
      assert sys'.tasks[j] == sys.tasks[j];
    }
  }

  /** A release that removes its entry leaves both of its signals unsent. */
  lemma ReleaseIsSignalled(sys: System, capacity: nat, key: DedupKey, token: Token)
    requires StoreValid(sys.store, capacity)
    ensures ChangesAreSignalled(sys, Step(sys, capacity, ReleaseClaim(key, token)), capacity)
  {
    var sys' := Step(sys, capacity, ReleaseClaim(key, token));
    if Slot(sys.store, key) == Some(InFlight(token)) {
      assert sys'.releases[|sys.releases|] == KeyThenCapacity(token);
      assert forall k :: k != key ==> Slot(sys'.store, k) == Slot(sys.store, k);
      assert CapacitySignalUnsent(sys');
    } else {
      assert sys' == sys;
    }
  }

  lemma SignalIsSignalled(sys: System, capacity: nat, r: nat)
    requires StoreValid(sys.store, capacity) && Enabled(sys, Signal(r))
    ensures ChangesAreSignalled(sys, Step(sys, capacity, Signal(r)), capacity)
  {
    var sys' := Step(sys, capacity, Signal(r));
    forall t | KeySignalUnsent(sys, t) && t in sys.store.channels && sys'.store.channels[t] == sys.store.channels[t]
      ensures KeySignalUnsent(sys', t)
    {
      var q :| 0 <= q < |sys.releases| && sys.releases[q] == KeyThenCapacity(t);
      assert sys'.releases[q] == KeyThenCapacity(t);
    }
    if sys.releases[r].KeyThenCapacity? {
      assert !sys'.releases[r].Signalled?;
    }
  }

  /** What is left to show for a step of an owner. */
  lemma OwnerStepKeepsValid(sys: System, sys': System, capacity: nat)
    requires Valid(sys, capacity) && sys'.tasks == sys.tasks
    requires StoreValid(sys'.store, capacity) && ChangesAreSignalled(sys, sys', capacity)
    requires sys'.store.waiters == sys.store.waiters && sys'.store.pendingClaims == sys.store.pendingClaims
    ensures Valid(sys', capacity)
  {
    assert forall k :: Waiters(sys'.store, k) == Waiters(sys.store, k);
    OthersStayJustified(sys, sys', capacity, |sys.tasks|);
  }

  lemma CommitSignals(s: MemoryState, capacity: nat, key: DedupKey, token: Token)
    requires StoreValid(s, capacity)
    ensures StoreSignals(s, AfterCommit(s, key, token).0, capacity)
  {
    assert forall k :: k in s.entries ==> s.entries[k].token in s.channels;
  }

  lemma CommitKeepsValid(sys: System, capacity: nat, key: DedupKey, token: Token)
    requires Valid(sys, capacity)
    ensures Valid(Step(sys, capacity, CommitClaim(key, token)), capacity)
  {
    var store' := AfterCommit(sys.store, key, token).0;
    var sys' := sys.(store := store');
    assert Step(sys, capacity, CommitClaim(key, token)) == sys';
    CommitKeepsStore(sys.store, capacity, key, token);
    CommitSignals(sys.store, capacity, key, token);
    StoreSignalsSuffice(sys, sys', capacity);
    OwnerStepKeepsValid(sys, sys', capacity);
  }

  lemma ReleaseKeepsValid(sys: System, capacity: nat, key: DedupKey, token: Token)
    requires Valid(sys, capacity)
    ensures Valid(Step(sys, capacity, ReleaseClaim(key, token)), capacity)
  {
    var sys' := Step(sys, capacity, ReleaseClaim(key, token));
    ReleaseKeepsStore(sys.store, capacity, key, token);
    ReleaseIsSignalled(sys, capacity, key, token);
    ReleaseKeepsCounts(sys, capacity, key, token);
    OwnerStepKeepsValid(sys, sys', capacity);
  }

  lemma ReleaseKeepsCounts(sys: System, capacity: nat, key: DedupKey, token: Token)
    ensures var sys' := Step(sys, capacity, ReleaseClaim(key, token));
            && sys'.tasks == sys.tasks && sys'.store == AfterRelease(sys.store, key, token).0
            && sys'.store.waiters == sys.store.waiters && sys'.store.pendingClaims == sys.store.pendingClaims
  {
  }

  lemma SignalKeepsValid(sys: System, capacity: nat, r: nat)
    requires Valid(sys, capacity) && Enabled(sys, Signal(r))
    ensures Valid(Step(sys, capacity, Signal(r)), capacity)
  {
    SignalIsSignalled(sys, capacity, r);
    OwnerStepKeepsValid(sys, Step(sys, capacity, Signal(r)), capacity);
  }

  lemma StepKeepsValid(sys: System, capacity: nat, a: Action)
    requires Valid(sys, capacity) && Enabled(sys, a)
    ensures Valid(Step(sys, capacity, a), capacity)
  {
    match a
    case Begin(key) => BeginKeepsValid(sys, capacity, key);
    case Attempt(i, newToken) => AttemptKeepsValid(sys, capacity, i, newToken);
    case Cancel(i) => CancelKeepsValid(sys, capacity, i);
    case DropPin(i) => DropPinKeepsValid(sys, capacity, i);
    case CommitClaim(key, token) => CommitKeepsValid(sys, capacity, key, token);
    case ReleaseClaim(key, token) => ReleaseKeepsValid(sys, capacity, key, token);
    case Signal(r) => SignalKeepsValid(sys, capacity, r);
  }

  /** The invariant holds in every state of every run. */
  lemma {:induction false} RunsAreValid(capacity: nat, states: seq<System>, actions: seq<Action>, n: nat)
    requires Run(capacity, states, actions) && n < |states|
    ensures Valid(states[n], capacity)
  {
    if n > 0 {
      RunsAreValid(capacity, states, actions, n - 1);
      StepKeepsValid(states[n - 1], capacity, actions[n - 1]);
    }
  }
}
