/**
 The bounded in-memory event deduplication store.

 `MemoryState` is what the store's mutex protects, together with the version
 counters of the watch channels that parked claims subscribe to.  The functions
 say what one critical section does to it; the class in MemoryStore performs the
 same critical sections step by step on mutable fields.
 */
module DedupStore {
  import opened Common

  const MAX_DEDUP_KEY_BYTES := 1024

  /** Both parts are strings of bytes. */
  datatype DedupKey = DedupKey(adapter: string, event: string)

  predicate Oversized(key: DedupKey) {
    |key.adapter| + |key.event| > MAX_DEDUP_KEY_BYTES
  }

  type Token = nat

  datatype Entry = InFlight(token: Token) | Committed(token: Token)

  /** The channel of an in-flight entry is created with its token and outlives the entry, so it
      is found by that token. */
  datatype MemoryState = MemoryState(
    entries: map<DedupKey, Entry>,
    waiters: map<DedupKey, nat>,
    pendingClaims: nat,
    evictable: seq<(DedupKey, Token)>,
    channels: map<Token, nat>,
    capacityVersion: nat)

  const EMPTY := MemoryState(map[], map[], 0, [], map[], 0)

  datatype ErrorKind = Retryable | Permanent

  datatype Finalized = Done | Failed(kind: ErrorKind)

  function Slot(s: MemoryState, key: DedupKey): Option<Entry> {
    Get(s.entries, key)
  }

  predicate IsCommitted(s: MemoryState, key: DedupKey) {
    key in s.entries && s.entries[key].Committed?
  }

  function Waiters(s: MemoryState, key: DedupKey): nat {
    if key in s.waiters then s.waiters[key] else 0
  }

  function Signalled(channels: map<Token, nat>, token: Token): map<Token, nat> {
    if token in channels then channels[token := channels[token] + 1] else channels
  }

  function SignalCapacity(s: MemoryState): MemoryState {
    s.(capacityVersion := s.capacityVersion + 1)
  }

  function SignalKey(s: MemoryState, token: Token): MemoryState {
    s.(channels := Signalled(s.channels, token))
  }

  function AfterPin(s: MemoryState, key: DedupKey): MemoryState {
    s.(waiters := s.waiters[key := Waiters(s, key) + 1])
  }

  function AfterUnpin(s: MemoryState, key: DedupKey): MemoryState {
    if key !in s.waiters then s
    else if Pred(s.waiters[key]) > 0 then s.(waiters := s.waiters[key := Pred(s.waiters[key])])
    else
      var unpinned := SignalCapacity(s.(waiters := s.waiters - {key}));
      if IsCommitted(s, key) then unpinned.(evictable := s.evictable + [(key, s.entries[key].token)])
      else unpinned
  }

  /** Drops the oldest evictable entries until the store is below its capacity or none is left. */
  function AfterEviction(s: MemoryState, capacity: nat): MemoryState
    decreases |s.evictable|
  {
    if |s.entries| < capacity || s.evictable == [] then s
    else
      var (expired, token) := s.evictable[0];
      var popped := s.(evictable := s.evictable[1..]);
      AfterEviction(
        if Slot(s, expired) == Some(Committed(token)) then popped.(entries := s.entries - {expired})
        else popped,
        capacity)
  }

  /** What one pass through the claim loop decides.  `OnKey` and `OnCapacity` are the two waits; they
      remember the version of the channel at the subscription. */
  datatype Verdict =
    | Duplicate
    | Granted(token: Token)
    | OnKey(token: Token, seen: nat)
    | OnCapacity(seen: nat)
    | Saturated

  /** `guard` and `pin` say whether the claim now holds a pending-claim guard and a waiter pin. */
  datatype Pass = Pass(state: MemoryState, verdict: Verdict, guard: bool, pin: bool)

  function AfterAdmission(s: MemoryState, guard: bool): MemoryState {
    if guard then s else s.(pendingClaims := s.pendingClaims + 1)
  }

  /** Gives back whatever a finishing claim still holds. */
  function AfterSurrender(s: MemoryState, key: DedupKey, guard: bool, pin: bool): MemoryState {
    var unguarded := if guard then s.(pendingClaims := Pred(s.pendingClaims)) else s;
    if pin then AfterUnpin(unguarded, key) else unguarded
  }

  function AfterGrant(s: MemoryState, key: DedupKey, newToken: Token): MemoryState {
    s.(entries := s.entries[key := InFlight(newToken)], channels := s.channels[newToken := 0])
  }

  function PassOnInFlight(s: MemoryState, capacity: nat, key: DedupKey, token: Token, guard: bool, pin: bool): Pass {
    var seen := if token in s.channels then s.channels[token] else 0;
    if !guard && s.pendingClaims >= capacity then Pass(s, Saturated, guard, pin)
    else
      var admitted := AfterAdmission(s, guard);
      Pass(if pin then admitted else AfterPin(admitted, key), OnKey(token, seen), true, true)
  }

  function PassOnAbsent(s: MemoryState, capacity: nat, key: DedupKey, guard: bool, pin: bool, newToken: Token): Pass {
    if |s.entries| >= capacity then
      if !guard && s.pendingClaims >= capacity then Pass(s, Saturated, guard, pin)
      else Pass(AfterAdmission(s, guard), OnCapacity(s.capacityVersion), true, pin)
    else
      Pass(AfterGrant(AfterSurrender(s, key, guard, pin), key, newToken), Granted(newToken), false, false)
  }

  function AfterPass(s: MemoryState, capacity: nat, key: DedupKey, guard: bool, pin: bool, newToken: Token): Pass {
    match Slot(s, key)
    case Some(Committed(_)) => Pass(AfterSurrender(s, key, guard, pin), Duplicate, false, false)
    case Some(InFlight(token)) => PassOnInFlight(s, capacity, key, token, guard, pin)
    case None => PassOnAbsent(AfterEviction(s, capacity), capacity, key, guard, pin, newToken)
  }

  function AfterCommit(s: MemoryState, key: DedupKey, token: Token): (MemoryState, Finalized) {
    match Slot(s, key)
    case None => (s, Failed(Permanent))
    case Some(entry) =>
      if entry.token != token then (s, Failed(Permanent))
      else if entry.Committed? then (s, Done)
      else
        var committed := s.(entries := s.entries[key := Committed(token)]);
        var queued := if Waiters(s, key) == 0 then committed.(evictable := s.evictable + [(key, token)])
                      else committed;
        (SignalCapacity(SignalKey(queued, token)), Done)
  }

  /** The part of a release that runs under the lock.  The flag says that the entry was removed, so that
      its channel and then the capacity channel are still to be signalled, without the lock. */
  function AfterRelease(s: MemoryState, key: DedupKey, token: Token): (MemoryState, Finalized, bool) {
    match Slot(s, key)
    case None => (s, Done, false)
    case Some(entry) =>
      if entry.token != token then (s, Failed(Permanent), false)
      else if entry.Committed? then (s, Done, false)
      else (s.(entries := s.entries - {key}), Done, true)
  }

  /** `try_new` refuses a capacity of zero. */
  function TryNew(capacity: nat): (r: Option<MemoryState>) {
    if capacity == 0 then None else Some(EMPTY)
  }
}
