/** What the deduplication store promises over whole runs. */
module DedupProperties {
  import opened Common
  import opened DedupStore
  import opened DedupRuns

  // ----- waiting claims -----

  /** Steps the store's users take on their own: retrying after a wake-up, finishing a drop, sending a signal. */
  predicate Internal(a: Action) {
    a.Attempt? || a.DropPin? || a.Signal?
  }

  function SignalsLeft(): Release -> nat {
    (r: Release) => match r case KeyThenCapacity(_) => 2 case CapacityOnly => 1 case Signalled => 0
  }

  function Unfinished(): Task -> nat {
    (t: Task) => if Live(t) || t.phase.Dropping? then 1 else 0
  }

  function CanRun(s: MemoryState): Task -> nat {
    (t: Task) => if Runnable(s, t) then 1 else 0
  }

  datatype Work = Work(signals: nat, unfinished: nat, runnable: nat)

  function WorkLeft(sys: System): Work {
    Work(Sum(sys.releases, SignalsLeft()), Sum(sys.tasks, Unfinished()), Sum(sys.tasks, CanRun(sys.store)))
  }

  predicate LessWork(a: Work, b: Work) {
    || a.signals < b.signals
    || (a.signals == b.signals && a.unfinished < b.unfinished)
    || (a.signals == b.signals && a.unfinished == b.unfinished && a.runnable < b.runnable)
  }

  /** A pass that ends in another wait wakes nobody. */
  lemma WaitingWakesNobody(s: MemoryState, capacity: nat, key: DedupKey, guard: bool, pin: bool, newToken: Token)
    requires StoreValid(s, capacity)
    ensures var pass := AfterPass(s, capacity, key, guard, pin, newToken);
            pass.verdict.OnKey? || pass.verdict.OnCapacity? ==>
              pass.state.channels == s.channels && pass.state.capacityVersion == s.capacityVersion
  {
    match Slot(s, key)
    case Some(Committed(_)) =>
    case Some(InFlight(_)) =>
    case None =>
      EvictionMakesRoom(s, capacity);
      AbsentWaitWakesNobody(AfterEviction(s, capacity), capacity, key, guard, pin, newToken);
  }

  lemma AbsentWaitWakesNobody(evicted: MemoryState, capacity: nat, key: DedupKey, guard: bool, pin: bool,
        newToken: Token)
    ensures var pass := PassOnAbsent(evicted, capacity, key, guard, pin, newToken);
            pass.verdict.OnKey? || pass.verdict.OnCapacity? ==>
              pass.state.channels == evicted.channels && pass.state.capacityVersion == evicted.capacityVersion
  {
  }

  /** No claim can spin: every internal step uses up some work, so internal steps alone always come to an end. */
  lemma InternalStepsUseUpWork(sys: System, capacity: nat, a: Action)
    requires Valid(sys, capacity) && Internal(a) && Enabled(sys, a)
    ensures LessWork(WorkLeft(Step(sys, capacity, a)), WorkLeft(sys))
  {
    var sys' := Step(sys, capacity, a);
    match a
    case Signal(r) =>
      SumUpdate(sys.releases, r, sys'.releases[r], SignalsLeft());
    case DropPin(i) =>
      SumUpdate(sys.tasks, i, sys'.tasks[i], Unfinished());
    case Attempt(i, newToken) =>
      var t := sys.tasks[i];
      SumUpdate(sys.tasks, i, sys'.tasks[i], Unfinished());
      if Waiting(sys'.tasks[i]) {
        WaitingWakesNobody(sys.store, capacity, t.key, t.guard, t.pin, newToken);
        VerdictJustified(sys, capacity, t.key, t.guard, t.pin, newToken);
        SumPointwise(sys.tasks, CanRun(sys'.store), CanRun(sys.store));
        SumUpdate(sys.tasks, i, sys'.tasks[i], CanRun(sys'.store));
      }
  }

  ghost predicate Settled(sys: System) {
    && (forall r :: 0 <= r < |sys.releases| ==> sys.releases[r].Signalled?)
    && (forall i :: 0 <= i < |sys.tasks| ==> !Runnable(sys.store, sys.tasks[i]) && !sys.tasks[i].phase.Dropping?)
  }

  lemma SomethingToDo(sys: System) returns (a: Action)
    requires !Settled(sys)
    ensures Internal(a) && Enabled(sys, a)
  {
    if r :| 0 <= r < |sys.releases| && !sys.releases[r].Signalled? {
      a := Signal(r);
    } else {
      var i :| 0 <= i < |sys.tasks| && (Runnable(sys.store, sys.tasks[i]) || sys.tasks[i].phase.Dropping?);
      var newToken := FreshNumber(sys.store.channels.Keys);
      a := if sys.tasks[i].phase.Dropping? then DropPin(i) else Attempt(i, newToken);
    }
  }

  ghost predicate InternalRun(capacity: nat, states: seq<System>, actions: seq<Action>) {
    && |states| == |actions| + 1
    && forall n :: 0 <= n < |actions| ==>
         Internal(actions[n]) && Enabled(states[n], actions[n])
               && states[n + 1] == Step(states[n], capacity, actions[n])
  }

  lemma InternalRunPrepend(sys: System, capacity: nat, a: Action, states: seq<System>, actions: seq<Action>)
    requires Internal(a) && Enabled(sys, a)
    requires InternalRun(capacity, states, actions) && states[0] == Step(sys, capacity, a)
    ensures InternalRun(capacity, [sys] + states, [a] + actions)
  {
  }

  /** From every valid state the internal steps lead to a settled one. */
  lemma {:induction false} InternalRunsSettle(sys: System, capacity: nat) returns (states: seq<System>,
      actions: seq<Action>)
    requires Valid(sys, capacity)
    ensures InternalRun(capacity, states, actions) && states[0] == sys
    ensures Settled(states[|actions|]) && Valid(states[|actions|], capacity)
    decreases WorkLeft(sys).signals, WorkLeft(sys).unfinished, WorkLeft(sys).runnable
  {
    states, actions := [sys], [];
    if !Settled(sys) {
      var a := SomethingToDo(sys);
      var next := Step(sys, capacity, a);
      StepKeepsValid(sys, capacity, a);
      InternalStepsUseUpWork(sys, capacity, a);
      var states', actions' := InternalRunsSettle(next, capacity);
      InternalRunPrepend(sys, capacity, a, states', actions');
      states, actions := [sys] + states', [a] + actions';
      assert states[|actions|] == states'[|actions'|];
    }
  }

  /** In a settled state a waiting claim never pins a committed entry. */
  lemma SettledPinsHoldNoCommit(sys: System, capacity: nat, i: nat)
    requires Valid(sys, capacity) && Settled(sys) && i < |sys.tasks| && sys.tasks[i].pin
    ensures !IsCommitted(sys.store, sys.tasks[i].key)
  {
    assert WaitJustified(sys, capacity, sys.tasks[i]);
  }

  lemma SettledCommitsAreEvictable(sys: System, capacity: nat, key: DedupKey)
    requires Valid(sys, capacity) && Settled(sys) && IsCommitted(sys.store, key)
    ensures sys.store.evictable != []
  {
    if Waiters(sys.store, key) > 0 {
      var i := SumPositive(sys.tasks, PinOn(key));
      SettledPinsHoldNoCommit(sys, capacity, i);
    } else {
      assert Evictable(sys.store, (key, sys.store.entries[key].token));
    }
  }

  /** In a settled state a claim waits only for an owner: the owner of its own key with the token it watched,
      or, when it waits for room, a full store in which every entry is owned. */
  lemma WaitsAreForOwners(sys: System, capacity: nat, i: nat)
    requires Valid(sys, capacity) && Settled(sys)
    requires i < |sys.tasks| && Waiting(sys.tasks[i])
    ensures sys.tasks[i].phase.verdict.OnKey? ==>
              Slot(sys.store, sys.tasks[i].key) == Some(InFlight(sys.tasks[i].phase.verdict.token))
    ensures sys.tasks[i].phase.verdict.OnCapacity? ==>
              |sys.store.entries| == capacity && forall key :: key in sys.store.entries ==>
                    sys.store.entries[key].InFlight?
  {
    assert WaitJustified(sys, capacity, sys.tasks[i]);
    if sys.tasks[i].phase.verdict.OnCapacity? {
      forall key | key in sys.store.entries ensures sys.store.entries[key].InFlight? {
        if sys.store.entries[key].Committed? {
          SettledCommitsAreEvictable(sys, capacity, key);
        }
      }
    }
  }

  /** No deadlock: while a claim of a settled store of at least one entry is unfinished, somebody owns an entry,
      and finishing with it is what the claim waits for. */
  lemma UnfinishedClaimsHaveAnOwner(sys: System, capacity: nat, i: nat)
    requires Valid(sys, capacity) && Settled(sys) && capacity > 0
    requires i < |sys.tasks| && Live(sys.tasks[i])
    ensures exists key :: key in sys.store.entries && sys.store.entries[key].InFlight?
  {
    WaitsAreForOwners(sys, capacity, i);
    if sys.tasks[i].phase.verdict.OnCapacity? {
      assert sys.store.entries.Keys != {};
      var key :| key in sys.store.entries.Keys;
      assert sys.store.entries[key].InFlight?;
    }
  }

  /** No wake-up is lost in any run: a claim that waits without an unseen signal waits for something that still
      holds, or a release has yet to signal. */
  lemma NoLostWakeUp(capacity: nat, states: seq<System>, actions: seq<Action>, n: nat, i: nat)
    requires Run(capacity, states, actions) && n < |states|
    requires i < |states[n].tasks| && Waiting(states[n].tasks[i]) && !Woken(states[n].store, states[n].tasks[i])
    ensures var sys, t := states[n], states[n].tasks[i];
            match t.phase.verdict
            case OnKey(token, _) => Slot(sys.store, t.key) == Some(InFlight(token)) || KeySignalUnsent(sys, token)
            case OnCapacity(_) =>
              || (|sys.store.entries| == capacity && forall k :: IsCommitted(sys.store, k) ==>
                 Waiters(sys.store, k) > 0)
              || CapacitySignalUnsent(sys)
            case _ => true
  {
    RunsAreValid(capacity, states, actions, n);
    assert WaitJustified(states[n], capacity, states[n].tasks[i]);
    if Full(states[n].store, capacity) {
      forall k | IsCommitted(states[n].store, k) ensures Waiters(states[n].store, k) > 0 {
        assert !Evictable(states[n].store, (k, states[n].store.entries[k].token));
      }
    }
  }

  // ----- pinned duplicates -----

  /** Where a claim can be once it was pinned on a key committed with this token. */
  predicate SeesCommit(sys: System, i: nat, key: DedupKey, token: Token) {
    && i < |sys.tasks| && sys.tasks[i].key == key
    && (|| (sys.tasks[i].pin && Slot(sys.store, key) == Some(Committed(token)))
        || sys.tasks[i].phase == Decided(Duplicate)
        || sys.tasks[i].phase.Dropped?)
  }

  /** What a pass does to any one key: it grants the key it claims, or forgets an unpinned committed key of a
      full store to make room, or leaves the key alone. */
  lemma PassOnSlot(s: MemoryState, capacity: nat, key: DedupKey, guard: bool, pin: bool, newToken: Token, k: DedupKey)
    requires StoreValid(s, capacity)
    ensures var pass := AfterPass(s, capacity, key, guard, pin, newToken);
            || Slot(pass.state, k) == Slot(s, k)
            || (&& k == key && pass.verdict == Granted(newToken) && Slot(s, k) == None
                && Slot(pass.state, k) == Some(InFlight(newToken)))
            || (k != key && pass.verdict == Granted(newToken) && IsCommitted(s, k) && Slot(pass.state, k) == None
                && Waiters(s, k) == 0 && |s.entries| == capacity)
  {
    match Slot(s, key)
    case Some(Committed(_)) => SurrenderSignals(s, key, guard, pin);
    case Some(InFlight(_)) =>
    case None =>
      EvictionMakesRoom(s, capacity);
      AbsentPassOnSlot(s, capacity, AfterEviction(s, capacity), key, guard, pin, newToken, k);
  }

  lemma AbsentPassOnSlot(s: MemoryState, capacity: nat, evicted: MemoryState, key: DedupKey, guard: bool, pin: bool,
      newToken: Token, k: DedupKey)
    requires MakesRoom(s, capacity, evicted) && key !in s.entries && (|evicted.entries| >= capacity ==> evicted == s)
    ensures var pass := PassOnAbsent(evicted, capacity, key, guard, pin, newToken);
            || Slot(pass.state, k) == Slot(s, k)
            || (&& k == key && pass.verdict == Granted(newToken) && Slot(s, k) == None
                && Slot(pass.state, k) == Some(InFlight(newToken)))
            || (k != key && pass.verdict == Granted(newToken) && IsCommitted(s, k) && Slot(pass.state, k) == None
                && Waiters(s, k) == 0 && |s.entries| == capacity)
  {
    SurrenderSignals(evicted, key, guard, pin);
    assert Slot(evicted, k) == Slot(s, k) || (IsCommitted(s, k) && k !in s.waiters && Slot(evicted, k) == None);
  }

  lemma PassStaysPinned(sys: System, capacity: nat, j: nat, newToken: Token, i: nat, key: DedupKey, token: Token)
    requires StoreValid(sys.store, capacity) && Enabled(sys, Attempt(j, newToken)) && SeesCommit(sys, i, key, token)
    requires sys.tasks[i].pin && Waiters(sys.store, key) > 0
    ensures SeesCommit(Step(sys, capacity, Attempt(j, newToken)), i, key, token)
  {
    var t := sys.tasks[j];
    if Slot(sys.store, key) == Some(Committed(token)) {
      PassOnSlot(sys.store, capacity, t.key, t.guard, t.pin, newToken, key);
      if j == i {
        assert AfterPass(sys.store, capacity, key, t.guard, t.pin, newToken).verdict == Duplicate;
      }
    }
  }

  lemma ReturnStaysPinned(sys: System, capacity: nat, j: nat, i: nat, key: DedupKey, token: Token)
    requires j < |sys.tasks| && SeesCommit(sys, i, key, token) && sys.tasks[i].pin
    ensures Enabled(sys, Cancel(j)) ==> SeesCommit(Step(sys, capacity, Cancel(j)), i, key, token)
    ensures Enabled(sys, DropPin(j)) ==> SeesCommit(Step(sys, capacity, DropPin(j)), i, key, token)
  {
    SurrenderSignals(sys.store, sys.tasks[j].key, sys.tasks[j].guard, false);
    SurrenderSignals(sys.store, sys.tasks[j].key, false, sys.tasks[j].pin);
  }

  lemma CommitStaysPinned(sys: System, capacity: nat, a: Action, i: nat, key: DedupKey, token: Token)
    requires Valid(sys, capacity) && Enabled(sys, a) && SeesCommit(sys, i, key, token)
    ensures SeesCommit(Step(sys, capacity, a), i, key, token)
  {
    if sys.tasks[i].pin {
      SumAtLeast(sys.tasks, i, PinOn(key));
      assert Waiters(sys.store, key) > 0;
      match a
      case Attempt(j, newToken) =>
        PassStaysPinned(sys, capacity, j, newToken, i, key, token);
      case Cancel(j) => ReturnStaysPinned(sys, capacity, j, i, key, token);
      case DropPin(j) => ReturnStaysPinned(sys, capacity, j, i, key, token);
      case _ =>
    }
  }

  /** A claim pinned on a key when the key is committed never gets the key granted: for as long as it is not
      cancelled its entry stays, whatever else happens, and the only thing it can return is "duplicate". */
  lemma {:induction false} PinnedClaimNeverRunsTwice(capacity: nat, states: seq<System>, actions: seq<Action>, n: nat,
      m: nat, i: nat, key: DedupKey, token: Token)
    requires Run(capacity, states, actions) && n <= m < |states|
    requires i < |states[n].tasks| && states[n].tasks[i].pin && states[n].tasks[i].key == key
    requires Slot(states[n].store, key) == Some(Committed(token))
    ensures SeesCommit(states[m], i, key, token)
    ensures states[m].tasks[i].phase.Decided? ==> !states[m].tasks[i].phase.verdict.Granted?
  {
    if m > n {
      PinnedClaimNeverRunsTwice(capacity, states, actions, n, m - 1, i, key, token);
      CommitStaysSeen(capacity, states, actions, m - 1, i, key, token);
    }
    SeenIsNotGranted(capacity, states, actions, m, i, key, token);
  }

  lemma CommitStaysSeen(capacity: nat, states: seq<System>, actions: seq<Action>, n: nat, i: nat, key: DedupKey,
      token: Token)
    requires Run(capacity, states, actions) && n < |actions| && SeesCommit(states[n], i, key, token)
    ensures SeesCommit(states[n + 1], i, key, token)
  {
    RunsAreValid(capacity, states, actions, n);
    CommitStaysPinned(states[n], capacity, actions[n], i, key, token);
  }

  lemma SeenIsNotGranted(capacity: nat, states: seq<System>, actions: seq<Action>, n: nat, i: nat, key: DedupKey,
      token: Token)
    requires Run(capacity, states, actions) && n < |states| && SeesCommit(states[n], i, key, token)
    ensures states[n].tasks[i].phase.Decided? ==> !states[n].tasks[i].phase.verdict.Granted?
  {
    RunsAreValid(capacity, states, actions, n);
    assert HoldsFitPhase(states[n].tasks[i]);
  }

  // ----- one owner a key -----

  /** Everything one step can do to one key, as a transition of the map from keys to free, owned or done. */
  lemma SlotTransitions(sys: System, capacity: nat, a: Action, key: DedupKey)
    requires Valid(sys, capacity) && Enabled(sys, a)
    ensures var sys' := Step(sys, capacity, a);
            var before, after := Slot(sys.store, key), Slot(sys'.store, key);
            before == after
            || match before {
                 // granted, and the claim that gets it owns it with a token nobody has had
                 case None => a.Attempt? && a.newToken !in sys.store.channels && after == Some(InFlight(a.newToken))
                   && sys.tasks[a.i].key == key && sys'.tasks[a.i].phase == Decided(Granted(a.newToken))
                 // finished by its own token, never forgotten
                 case Some(InFlight(token)) =>
                   || (a == CommitClaim(key, token) && after == Some(Committed(token)))
                   || (a == ReleaseClaim(key, token) && after == None)
                 // forgotten only to make room in a full store for another key, and only unpinned
                 case Some(Committed(_)) => after == None && a.Attempt? && sys.tasks[a.i].key != key
                   && Waiters(sys.store, key) == 0 && |sys.store.entries| == capacity
                   && sys'.tasks[a.i].phase == Decided(Granted(a.newToken))
               }
  {
    match a
    case Attempt(i, newToken) =>
      PassOnSlot(sys.store, capacity, sys.tasks[i].key, sys.tasks[i].guard, sys.tasks[i].pin, newToken, key);
    case Cancel(i) => SurrenderSignals(sys.store, sys.tasks[i].key, sys.tasks[i].guard, false);
    case DropPin(i) => SurrenderSignals(sys.store, sys.tasks[i].key, false, sys.tasks[i].pin);
    case _ =>
  }

  lemma OwnerStep(sys: System, capacity: nat, a: Action, key: DedupKey, token: Token)
    requires Valid(sys, capacity) && Enabled(sys, a)
    requires Slot(sys.store, key) == Some(InFlight(token))
    requires Slot(Step(sys, capacity, a).store, key) != Some(InFlight(token))
    ensures a == CommitClaim(key, token) || a == ReleaseClaim(key, token)
  {
    SlotTransitions(sys, capacity, a, key);
  }

  /** An owner is undisturbed: its entry leaves the in-flight state only by its own commit or release. */
  lemma {:induction false} OwnerFinishesFirst(capacity: nat, states: seq<System>, actions: seq<Action>, n: nat, m: nat,
      key: DedupKey, token: Token)
      returns (q: nat)
    requires Run(capacity, states, actions) && n <= m < |states|
    requires Slot(states[n].store, key) == Some(InFlight(token))
    requires Slot(states[m].store, key) != Some(InFlight(token))
    ensures n <= q < m && Slot(states[q].store, key) == Some(InFlight(token))
    ensures actions[q] == CommitClaim(key, token) || actions[q] == ReleaseClaim(key, token)
  {
    if Slot(states[m - 1].store, key) == Some(InFlight(token)) {
      q := m - 1;
      RunsAreValid(capacity, states, actions, q);
      OwnerStep(states[q], capacity, actions[q], key, token);
    } else {
      q := OwnerFinishesFirst(capacity, states, actions, n, m - 1, key, token);
    }
  }

  /** Step n grants the key to the claim that takes it. */
  predicate GrantsAt(states: seq<System>, actions: seq<Action>, n: nat, key: DedupKey, token: Token)
    requires n < |actions| < |states|
  {
    && actions[n].Attempt? && actions[n].i < |states[n].tasks| && actions[n].i < |states[n + 1].tasks|
    && states[n].tasks[actions[n].i].key == key
    && states[n + 1].tasks[actions[n].i].phase == Decided(Granted(token))
  }

  lemma GrantTakesAFreeKey(capacity: nat, states: seq<System>, actions: seq<Action>, n: nat, key: DedupKey,
      token: Token)
    requires Run(capacity, states, actions) && n < |actions| && GrantsAt(states, actions, n, key, token)
    ensures Slot(states[n].store, key) == None && Slot(states[n + 1].store, key) == Some(InFlight(token))
  {
    RunsAreValid(capacity, states, actions, n);
    var t := states[n].tasks[actions[n].i];
    PassOnSlot(states[n].store, capacity, key, t.guard, t.pin, actions[n].newToken, key);
    PassGrantsItsKey(states[n].store, capacity, key, t.guard, t.pin, actions[n].newToken);
  }

  lemma PassGrantsItsKey(s: MemoryState, capacity: nat, key: DedupKey, guard: bool, pin: bool, newToken: Token)
    ensures var pass := AfterPass(s, capacity, key, guard, pin, newToken);
            pass.verdict.Granted? ==>
                  pass.verdict == Granted(newToken) && Slot(pass.state, key) == Some(InFlight(newToken))
  {
  }

  /** Between two grants of one key the first owner has committed or released. */
  lemma GrantsAreExclusive(capacity: nat, states: seq<System>, actions: seq<Action>, n: nat, m: nat, key: DedupKey,
      first: Token, second: Token)
      returns (q: nat)
    requires Run(capacity, states, actions) && n < m < |actions|
    requires GrantsAt(states, actions, n, key, first) && GrantsAt(states, actions, m, key, second)
    ensures n < q < m && (actions[q] == CommitClaim(key, first) || actions[q] == ReleaseClaim(key, first))
    ensures Slot(states[q].store, key) == Some(InFlight(first))
  {
    GrantTakesAFreeKey(capacity, states, actions, n, key, first);
    GrantTakesAFreeKey(capacity, states, actions, m, key, second);
    q := OwnerFinishesFirst(capacity, states, actions, n + 1, m, key, first);
  }

  predicate Holds(s: MemoryState, key: DedupKey, token: Token) {
    key in s.entries && s.entries[key].token == token
  }

  lemma ChannelsGrow(sys: System, capacity: nat, a: Action)
    requires Valid(sys, capacity) && Enabled(sys, a)
    ensures sys.store.channels.Keys <= Step(sys, capacity, a).store.channels.Keys
  {
    match a
    case Attempt(i, newToken) =>
      PassSignals(sys.store, capacity, sys.tasks[i].key, sys.tasks[i].guard, sys.tasks[i].pin, newToken);
    case Cancel(i) => SurrenderSignals(sys.store, sys.tasks[i].key, sys.tasks[i].guard, false);
    case DropPin(i) => SurrenderSignals(sys.store, sys.tasks[i].key, false, sys.tasks[i].pin);
    case _ =>
  }

  lemma StaleAfterStep(sys: System, capacity: nat, a: Action, key: DedupKey, token: Token)
    requires Valid(sys, capacity) && Enabled(sys, a)
    requires token in sys.store.channels && !Holds(sys.store, key, token)
    ensures token in Step(sys, capacity, a).store.channels && !Holds(Step(sys, capacity, a).store, key, token)
  {
    ChannelsGrow(sys, capacity, a);
    SlotTransitions(sys, capacity, a, key);
  }

  /** A token that was issued and is no longer the one stored for a key is stale for good: committing or
      releasing with it never changes the store again. */
  lemma {:induction false} StaleTokensStayStale(capacity: nat, states: seq<System>, actions: seq<Action>, n: nat,
      m: nat, key: DedupKey, token: Token)
    requires Run(capacity, states, actions) && n <= m < |states|
    requires token in states[n].store.channels && !Holds(states[n].store, key, token)
    ensures token in states[m].store.channels && !Holds(states[m].store, key, token)
    ensures AfterCommit(states[m].store, key, token) == (states[m].store, Failed(Permanent))
    ensures AfterRelease(states[m].store, key, token).0 == states[m].store
  {
    if n < m {
      StaleTokensStayStale(capacity, states, actions, n, m - 1, key, token);
      RunsAreValid(capacity, states, actions, m - 1);
      StaleAfterStep(states[m - 1], capacity, actions[m - 1], key, token);
    }
  }

  /** A token other than the stored one is refused and changes nothing, whether it is stale or forged. */
  lemma ForgedTokensChangeNothing(s: MemoryState, key: DedupKey, token: Token)
    ensures AfterCommit(s, key, token).1 == Done <==> Holds(s, key, token)
    ensures AfterRelease(s, key, token).1 == Done <==> (Holds(s, key, token) || Slot(s, key) == None)
    ensures !Holds(s, key, token) ==>
              AfterCommit(s, key, token).0 == s
                    && AfterRelease(s, key, token) == (s, AfterRelease(s, key, token).1, false)
  {
  }

  /** Repeating a finalization that succeeded changes nothing and succeeds again; a commit cannot be released,
      and a release cannot be committed. */
  lemma FinalizationIsIdempotent(s: MemoryState, key: DedupKey, token: Token)
    requires Holds(s, key, token)
    ensures var committed := AfterCommit(s, key, token).0;
            && AfterCommit(committed, key, token) == (committed, Done)
            && AfterRelease(committed, key, token) == (committed, Done, false)
    ensures s.entries[key].InFlight? ==>
              var released := AfterRelease(s, key, token).0;
              && AfterRelease(released, key, token) == (released, Done, false)
              && AfterCommit(released, key, token) == (released, Failed(Permanent))
  {
  }

  // ----- oversized keys -----

  ghost predicate OversizedRefused(sys: System) {
    && (forall i :: 0 <= i < |sys.tasks| && Oversized(sys.tasks[i].key) ==> sys.tasks[i].phase.Refused?)
    && (forall key :: key in sys.store.entries ==> !Oversized(key))
  }

  lemma RefusalStays(sys: System, capacity: nat, a: Action)
    requires Valid(sys, capacity) && Enabled(sys, a) && OversizedRefused(sys)
    ensures OversizedRefused(Step(sys, capacity, a))
  {
    var sys' := Step(sys, capacity, a);
    forall key | key in sys'.store.entries ensures !Oversized(key) {
      SlotTransitions(sys, capacity, a, key);
      assert Slot(sys'.store, key).Some?;
    }
  }

  /** A claim for a key of more than 1024 bytes is refused and never reaches the store, in any run. */
  lemma {:induction false} OversizedKeysAreRefused(capacity: nat, states: seq<System>, actions: seq<Action>, n: nat)
    requires Run(capacity, states, actions) && n < |states|
    ensures OversizedRefused(states[n])
  {
    if n > 0 {
      OversizedKeysAreRefused(capacity, states, actions, n - 1);
      RunsAreValid(capacity, states, actions, n - 1);
      RefusalStays(states[n - 1], capacity, actions[n - 1]);
    }
  }

  // ----- accounting -----

  /** In every state of every run: the store is within its capacity, the pending claims are exactly the guards
      held and no more than the capacity, and the waiters of a key are exactly the pins held on it. */
  lemma CountsAreExact(capacity: nat, states: seq<System>, actions: seq<Action>, n: nat)
    requires Run(capacity, states, actions) && n < |states|
    ensures |states[n].store.entries| <= capacity
    ensures states[n].store.pendingClaims == Sum(states[n].tasks, HoldsGuard()) <= capacity
    ensures forall key :: Waiters(states[n].store, key) == Sum(states[n].tasks, PinOn(key))
    ensures forall key :: key in states[n].store.waiters ==> states[n].store.waiters[key] > 0
  {
    RunsAreValid(capacity, states, actions, n);
  }

  /** In every state of every run the eviction queue holds, once each, exactly the committed entries without waiters. */
  lemma QueueIsExact(capacity: nat, states: seq<System>, actions: seq<Action>, n: nat, key: DedupKey, token: Token)
    requires Run(capacity, states, actions) && n < |states|
    ensures (key, token) in states[n].store.evictable
            <==> Slot(states[n].store, key) == Some(Committed(token)) && Waiters(states[n].store, key) == 0
    ensures forall i, j :: 0 <= i < j < |states[n].store.evictable| ==>
              states[n].store.evictable[i] != states[n].store.evictable[j]
  {
    RunsAreValid(capacity, states, actions, n);
    assert EvictableExact(states[n].store);
  }

  /** A pin is held without a guard exactly while a dropped claim has given up the one and not yet the other. */
  lemma PinWithoutGuard(capacity: nat, states: seq<System>, actions: seq<Action>, n: nat, i: nat)
    requires Run(capacity, states, actions) && n < |states| && i < |states[n].tasks| && states[n].tasks[i].pin
    ensures !states[n].tasks[i].guard <==> states[n].tasks[i].phase.Dropping?
  {
    RunsAreValid(capacity, states, actions, n);
    assert HoldsFitPhase(states[n].tasks[i]);
  }

  /** Such a state is reached: the second claim for a key parks, and its future is dropped. */
  lemma PinOutlivesGuard() returns (states: seq<System>, actions: seq<Action>)
    ensures Run(1, states, actions) && |states[|actions|].tasks| == 2
    ensures states[|actions|].tasks[1].pin && !states[|actions|].tasks[1].guard
  {
    var key := DedupKey("a", "e");
    actions := [Begin(key), Attempt(0, 1), Begin(key), Attempt(1, 2), Cancel(1)];
    var s1 := Step(INITIAL, 1, actions[0]);
    var s2 := Step(s1, 1, actions[1]);
    assert Slot(s2.store, key) == Some(InFlight(1));
    var s3 := Step(s2, 1, actions[2]);
    var s4 := Step(s3, 1, actions[3]);
    assert s4.tasks[1].pin && Waiting(s4.tasks[1]);
    var s5 := Step(s4, 1, actions[4]);
    states := [INITIAL, s1, s2, s3, s4, s5];
  }
}
