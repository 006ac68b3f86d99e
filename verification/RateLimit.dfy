/**
 The process-local fixed-window limiter: `InMemoryRateLimiter` and the
 specification function it is proved against. Instants and durations are
 whole clock ticks.
 */
module RateLimit {
  import opened Common

  const MAX_IN_MEMORY_RATE_KEYS: nat := 100_000
  const MAX_RATE_LIMIT_KEY_BYTES: nat := 256

  datatype Policy = Policy(maxAttempts: nat, window: nat) {
    predicate Valid() {
      1 <= maxAttempts < 0x1_0000_0000 && 1 <= window
    }
  }

  datatype RateLimitError = InvalidPolicy | InvalidCapacity | InvalidKey | CapacityReached | Unavailable

  datatype Decision = Allowed(remaining: nat) | Limited(retryAfter: nat)

  type Answer = Result<Decision, RateLimitError>

  datatype WindowEntry = WindowEntry(startedAt: int, attempts: nat)

  type Entries<!K> = map<K, WindowEntry>

  /** A clock reading before the start of a window counts as inside it. */
  predicate InWindow(p: Policy, entry: WindowEntry, now: int) {
    now < entry.startedAt || now - entry.startedAt < p.window
  }

  function Retain<K>(p: Policy, entries: Entries<K>, now: int): Entries<K> {
    map k | k in entries && InWindow(p, entries[k], now) :: entries[k]
  }

  ghost predicate Counted<K(!new)>(p: Policy, entries: Entries<K>) {
    forall k :: k in entries ==> 1 <= entries[k].attempts <= p.maxAttempts
  }

  function RetryAfter(p: Policy, entry: WindowEntry, now: int): int {
    if now < entry.startedAt then p.window else p.window - (now - entry.startedAt)
  }

  datatype Outcome<!K> = Outcome(entries: Entries<K>, answer: Answer)

  /** One check of `key` at `now`: prune, then count, limit, refuse or open a window. */
  function Check<K(!new)>(p: Policy, maxKeys: nat, entries: Entries<K>, now: int, key: K): (o: Outcome<K>)
    requires p.Valid() && Counted(p, entries)
    ensures Counted(p, o.entries)
  {
    var kept := Retain(p, entries, now);
    if key in kept then
      var entry := kept[key];
      if entry.attempts == p.maxAttempts then
        Outcome(kept, Success(Limited(RetryAfter(p, entry, now))))
      else
        Outcome(kept[key := entry.(attempts := entry.attempts + 1)],
                Success(Allowed(p.maxAttempts - entry.attempts - 1)))
    else if |kept| >= maxKeys then
      Outcome(kept, Failure(CapacityReached))
    else
      Outcome(kept[key := WindowEntry(now, 1)], Success(Allowed(p.maxAttempts - 1)))
  }

  class InMemoryRateLimiter {
    var entries: Entries<seq<byte>>
    const maxKeys: nat
    const policy: Policy

    ghost predicate Valid()
      reads this
    {
      policy.Valid() && Counted(policy, entries) && |entries| <= maxKeys
    }

    constructor (maxKeys: nat, policy: Policy)
      requires policy.Valid()
      ensures Valid() && entries == map[] && this.maxKeys == maxKeys && this.policy == policy
    {
      this.entries := map[];
      this.maxKeys := maxKeys;
      this.policy := policy;
    }

    static method New(maxKeys: nat, policy: Policy) returns (r: Result<InMemoryRateLimiter, RateLimitError>)
      requires policy.Valid()
      ensures r.Success? <==> 1 <= maxKeys <= MAX_IN_MEMORY_RATE_KEYS
      ensures r.Failure? ==> r.error == InvalidCapacity
      ensures r.Success? ==> fresh(r.value) && r.value.Valid() && r.value.entries == map[]
                             && r.value.maxKeys == maxKeys && r.value.policy == policy
    {
      if maxKeys == 0 || maxKeys > MAX_IN_MEMORY_RATE_KEYS {
        return Failure(InvalidCapacity);
      }
      var limiter := new InMemoryRateLimiter(maxKeys, policy);
      return Success(limiter);
    }

    method CheckAt(key: seq<byte>, now: int) returns (r: Answer)
      requires Valid()
      modifies this
      ensures Valid()
      ensures |key| == 0 || |key| > MAX_RATE_LIMIT_KEY_BYTES ==> entries == old(entries) && r == Failure(InvalidKey)
      ensures 1 <= |key| <= MAX_RATE_LIMIT_KEY_BYTES ==>
                Outcome(entries, r) == Check(policy, maxKeys, old(entries), now, key)
    {
      if |key| == 0 || |key| > MAX_RATE_LIMIT_KEY_BYTES {
        return Failure(InvalidKey);
      }
      RetainShrinks(policy, entries, now);
      entries := Retain(policy, entries, now);
      if key in entries {
        var entry := entries[key];
        var elapsed := if now < entry.startedAt then 0 else now - entry.startedAt;
        if elapsed >= policy.window {
          // The restart branch of the source: retention has already removed such an entry.
          assert false;
        }
        if entry.attempts >= policy.maxAttempts {
          return Success(Limited(policy.window - elapsed));
        }
        entries := entries[key := entry.(attempts := entry.attempts + 1)];
        return Success(Allowed(policy.maxAttempts - entries[key].attempts));
      }
      if |entries| >= maxKeys {
        return Failure(CapacityReached);
      }
      entries := entries[key := WindowEntry(now, 1)];
      return Success(Allowed(policy.maxAttempts - 1));
    }
  }

  lemma RetainShrinks<K(!new)>(p: Policy, entries: Entries<K>, now: int)
    ensures |Retain(p, entries, now)| <= |entries|
  {
    var kept := Retain(p, entries, now);
    assert kept.Keys <= entries.Keys;
    SubsetSize(kept.Keys, entries.Keys);
    assert |kept| == |kept.Keys| && |entries| == |entries.Keys|;
  }
}
