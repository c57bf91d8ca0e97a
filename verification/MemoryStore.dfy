/** The store as the code updates it: fields under one mutex, one method for each critical section. */
module MemoryStore {
  import opened Common
  import opened DedupStore
  import opened DedupRuns
  import opened DedupOutcomes

  class MemoryDedupStore {
    const capacity: nat
    var entries: map<DedupKey, Entry>
    var waiters: map<DedupKey, nat>
    var pendingClaims: nat
    var evictable: seq<(DedupKey, Token)>
    var channels: map<Token, nat>
    var capacityVersion: nat

    function State(): MemoryState
      reads this
    {
      MemoryState(entries, waiters, pendingClaims, evictable, channels, capacityVersion)
    }

    /** The part of the invariant of all runs that speaks of the store alone. */
    ghost predicate Valid()
      reads this
    {
      StoreValid(State(), capacity)
    }

    constructor (capacity: nat)
      requires TryNew(capacity).Some?
      ensures this.capacity == capacity && State() == EMPTY && Valid()
    {
      this.capacity := capacity;
      entries, waiters, pendingClaims, evictable, channels, capacityVersion := map[], map[], 0, [], map[], 0;
    }

    method PinWaiter(key: DedupKey)
      modifies this`waiters
      ensures State() == AfterPin(old(State()), key)
      ensures old(Valid() && key in entries && entries[key].InFlight?) ==> Valid()
    {
      if Valid() && key in entries && entries[key].InFlight? {
        PinKeepsStore(State(), capacity, key);
      }
      var count := if key in waiters then waiters[key] else 0;
      waiters := waiters[key := count + 1];
    }

    method UnpinWaiter(key: DedupKey)
      modifies this
      ensures State() == AfterUnpin(old(State()), key)
      ensures old(Valid()) ==> Valid()
    {
      if Valid() {
        UnpinKeepsStore(State(), capacity, key);
      }
      var remove := false;
      if key in waiters {
        waiters := waiters[key := Pred(waiters[key])];
        remove := waiters[key] == 0;
      }
      if remove {
        assert waiters - {key} == old(waiters) - {key};
        waiters := waiters - {key};
        if key in entries && entries[key].Committed? {
          evictable := evictable + [(key, entries[key].token)];
        }
        capacityVersion := capacityVersion + 1;
      }
    }

    method EvictCommitted()
      modifies this`entries, this`evictable
      ensures State() == AfterEviction(old(State()), capacity)
      ensures old(Valid()) ==> Valid()
    {
      if Valid() {
        EvictionKeepsStore(State(), capacity);
      }
      while |entries| >= capacity
        invariant waiters == old(waiters) && pendingClaims == old(pendingClaims)
        invariant channels == old(channels) && capacityVersion == old(capacityVersion)
        invariant AfterEviction(State(), capacity) == AfterEviction(old(State()), capacity)
        decreases |evictable|
      {
        if evictable == [] {
          break;
        }
        var (expired, token) := evictable[0];
        evictable := evictable[1..];
        if expired in entries && entries[expired] == Committed(token) {
          entries := entries - {expired};
        }
      }
    }

    /** `None` is the refusal when as many claims already wait as the store has entries. */
    method AdmitPendingClaim(guard: bool) returns (admitted: bool)
      modifies this`pendingClaims
      ensures admitted == (guard || old(pendingClaims) < capacity)
      ensures State() == if admitted then AfterAdmission(old(State()), guard) else old(State())
    {
      if guard {
        return true;
      }
      if pendingClaims >= capacity {
        return false;
      }
      pendingClaims := pendingClaims + 1;
      return true;
    }

    /** The claim's guard and pin are among those the store counts, and it does not count too many. */
    predicate Counts(key: DedupKey, guard: bool, pin: bool)
      reads this
    {
      pendingClaims <= capacity && (guard ==> pendingClaims > 0) && (pin ==> Waiters(State(), key) > 0)
    }

    /** Gives back the guard and the pin a finishing claim still holds. */
    method Surrender(key: DedupKey, guard: bool, pin: bool)
      modifies this
      ensures State() == AfterSurrender(old(State()), key, guard, pin)
      ensures old(Valid() && Counts(key, guard, pin)) ==> Valid()
    {
      if Valid() && Counts(key, guard, pin) {
        SurrenderEffect(State(), capacity, key, guard, pin);
      }
      if guard {
        pendingClaims := Pred(pendingClaims);
      }
      if pin {
        UnpinWaiter(key);
      }
    }

    /** One pass through the claim loop, from taking the lock to returning or waiting. */
    method ClaimPass(key: DedupKey, guard: bool, pin: bool, newToken: Token) returns (verdict: Verdict, guard': bool,
        pin': bool)
      modifies this
      ensures Pass(State(), verdict, guard', pin') == AfterPass(old(State()), capacity, key, guard, pin, newToken)
      ensures old(Valid() && Counts(key, guard, pin)) ==> Valid()
      ensures old(Valid()) ==> AnswerFits(old(State()), capacity, key, guard, newToken, verdict)
    {
      if Valid() {
        VerdictExactlyWhen(State(), capacity, key, guard, pin, newToken);
      }
      if Valid() && Counts(key, guard, pin) {
        PassKeepsStore(State(), capacity, key, guard, pin, newToken);
      }
      if key in entries && entries[key].Committed? {
        Surrender(key, guard, pin);
        return Duplicate, false, false;
      }
      if key in entries {
        var token := entries[key].token;
        var seen := if token in channels then channels[token] else 0;
        var admitted := AdmitPendingClaim(guard);
        if !admitted {
          return Saturated, guard, pin;
        }
        if !pin {
          PinWaiter(key);
        }
        return OnKey(token, seen), true, true;
      }
      EvictCommitted();
      if |entries| >= capacity {
        var admitted := AdmitPendingClaim(guard);
        if !admitted {
          return Saturated, guard, pin;
        }
        return OnCapacity(capacityVersion), true, pin;
      }
      Surrender(key, guard, pin);
      entries := entries[key := InFlight(newToken)];
      channels := channels[newToken := 0];
      return Granted(newToken), false, false;
    }

    method Commit(key: DedupKey, token: Token) returns (result: Finalized)
      modifies this
      ensures (State(), result) == AfterCommit(old(State()), key, token)
      ensures old(Valid()) ==> Valid()
    {
      if Valid() {
        CommitKeepsStore(State(), capacity, key, token);
      }
      if key !in entries || entries[key].token != token {
        return Failed(Permanent);
      }
      if entries[key].Committed? {
        return Done;
      }
      entries := entries[key := Committed(token)];
      if key !in waiters || waiters[key] == 0 {
        evictable := evictable + [(key, token)];
      }
      channels := DedupStore.Signalled(channels, token);
      capacityVersion := capacityVersion + 1;
      return Done;
    }

    method ReleaseLocked(key: DedupKey, token: Token) returns (result: Finalized, signalNeeded: bool)
      modifies this`entries
      ensures (State(), result, signalNeeded) == AfterRelease(old(State()), key, token)
      ensures old(Valid()) ==> Valid()
    {
      if Valid() {
        ReleaseKeepsStore(State(), capacity, key, token);
      }
      if key !in entries {
        return Done, false;
      }
      if entries[key].token != token {
        return Failed(Permanent), false;
      }
      if entries[key].Committed? {
        return Done, false;
      }
      entries := entries - {key};
      return Done, true;
    }
  }
}
