/** The distributed limiter: `RATE_LIMIT_SCRIPT` and the adapter around it. */
module RateLimitRedis {
  import opened Common
  import opened RateLimit
  import opened Redis
  import opened RedisIndex
  import Runs = RateLimitRuns

  const MAX_RATE_COUNTER_BYTES: nat := 32

  function RateSpace(namespace: string): Space {
    Space(namespace + ":ratelimit:v1:key:", namespace + ":ratelimit:v1:index", m => true)
  }

  lemma RateSpaceIsWellNamed(namespace: string)
    ensures RateSpace(namespace).WellNamed()
  {
    var sp, at := RateSpace(namespace), |namespace| + |":ratelimit:v1:"|;
    forall m | sp.isMember(m) ensures sp.Key(m) != sp.index {
      assert sp.Key(m)[at] == ":ratelimit:v1:key:"[14] && sp.index[at] == ":ratelimit:v1:index"[14];
    }
  }

  /** The three integers a script run returns. */
  datatype Reply = Reply(status: int, remaining: int, ttl: int)

  const REJECTED: Reply := Reply(-2, 0, 0)

  /** Cleanup of a key in a state the adapter never leaves behind. */
  function Discard(db: Db, now: int, sp: Space, member: string): (Db, Reply)
    requires SortedSetAllowed(Del(db, sp.Key(member)), now, sp.index)
  {
    (ZRem(Del(db, sp.Key(member)), now, sp.index, member), REJECTED)
  }

  /** The part of the script for a key that holds a counter. */
  function CountStep(db: Db, now: int, sp: Space, p: Policy, member: string, attempts: nat): (Db, Reply)
    requires p.Valid() && sp.Key(member) != sp.index
    requires SortedSetAllowed(db, now, sp.index) && TypeOf(db, now, sp.Key(member)) == TypeString
  {
    var key := sp.Key(member);
    var ttl := Pttl(db, now, key);
    if attempts >= p.maxAttempts then
      if ttl < 1 || ttl > p.window then Discard(db, now, sp, member)
      else (Touch(db, now, sp.index, now + ttl, member, p.window), Reply(0, 0, ttl))
    else
      var db2 := Overwrite(db, now, key, Decimal(attempts + 1));
      if ttl < 1 || ttl > p.window then Discard(db2, now, sp, member)
      else (Touch(db2, now, sp.index, now + ttl, member, p.window),
            Reply(1, p.maxAttempts - (attempts + 1), ttl))
  }

  /** The part of the script for a key that is not there. */
  function OpenStep(db: Db, now: int, sp: Space, p: Policy, maxKeys: nat, member: string): (Db, Reply)
    requires p.Valid() && sp.Key(member) != sp.index && SortedSetAllowed(db, now, sp.index)
  {
    FreshStep(ZRem(db, now, sp.index, member), now, sp, p, maxKeys, member)
  }

  function FreshStep(db: Db, now: int, sp: Space, p: Policy, maxKeys: nat, member: string): (Db, Reply)
    requires p.Valid() && sp.Key(member) != sp.index && SortedSetAllowed(db, now, sp.index)
  {
    if ZCard(db, now, sp.index) >= maxKeys then (db, Reply(-1, 0, 0))
    else
      (Touch(SetPx(db, now, sp.Key(member), Decimal(1), p.window), now, sp.index, now + p.window, member, p.window),
       Reply(1, p.maxAttempts - 1, p.window))
  }

  /** The whole script as one atomic step of the keyspace. */
  function Script(db: Db, now: int, sp: Space, p: Policy, maxKeys: nat, member: string): (Db, Reply)
    requires p.Valid() && sp.Key(member) != sp.index
  {
    var key := sp.Key(member);
    if !SortedSetAllowed(db, now, sp.index) then (Del(Del(db, key), sp.index), REJECTED) else
    var db1 := ZRemRangeByScore(db, now, sp.index, now);
    if !StringAllowed(db1, now, key) then Discard(db1, now, sp, member)
    else if StrLen(db1, now, key) > MAX_RATE_COUNTER_BYTES then Discard(db1, now, sp, member)
    else
      match Get(db1, now, key)
      case None => OpenStep(db1, now, sp, p, maxKeys, member)
      case Some(current) =>
        match LuaCounter(current)
        case None => Discard(db1, now, sp, member)
        case Some(attempts) => CountStep(db1, now, sp, p, member, attempts)
  }

  /** How the adapter reads the reply. */
  function Respond(reply: Reply): Answer {
    match reply.status
    case 0 => if reply.ttl <= 0 then Failure(Unavailable) else Success(Limited(reply.ttl))
    case 1 =>
      if 0 <= reply.remaining < 0x1_0000_0000 then Success(Allowed(reply.remaining)) else Failure(Unavailable)
    case -1 => Failure(CapacityReached)
    case _ => Failure(Unavailable)
  }

  class RedisRateLimiter {
    const server: Server
    const sp: Space
    const policy: Policy
    const maxKeys: nat
    const hash: seq<byte> -> string

    constructor (server: Server, namespace: string, policy: Policy, maxKeys: nat, hash: seq<byte> -> string)
      ensures this.server == server && sp == RateSpace(namespace) && this.policy == policy
      ensures this.maxKeys == maxKeys && this.hash == hash
    {
      this.server := server;
      this.sp := RateSpace(namespace);
      this.policy := policy;
      this.maxKeys := maxKeys;
      this.hash := hash;
    }

    method Invalidate(member: string) returns (reply: Reply)
      requires SortedSetAllowed(Del(server.db, sp.Key(member)), server.now, sp.index)
      modifies server`db
      ensures (server.db, reply) == Discard(old(server.db), server.now, sp, member)
    {
      server.Delete(sp.Key(member));
      server.Remove(sp.index, member);
      reply := REJECTED;
    }

    method TouchIndex(score: int, member: string)
      requires SortedSetAllowed(server.db, server.now, sp.index) && policy.Valid()
      modifies server`db
      ensures server.db == Touch(old(server.db), server.now, sp.index, score, member, policy.window)
    {
      server.Add(sp.index, score, member);
      var indexTtl := Pttl(server.db, server.now, sp.index);
      if indexTtl < policy.window {
        server.Expire(sp.index, policy.window);
      }
    }

    /** The script, command by command; every type check Redis makes on the way succeeds on every keyspace. */
    method RunScript(member: string) returns (reply: Reply)
      requires policy.Valid() && sp.Key(member) != sp.index
      modifies server`db
      ensures (server.db, reply) == Script(old(server.db), server.now, sp, policy, maxKeys, member)
    {
      var key, now := sp.Key(member), server.now;
      var indexType := server.Type(sp.index);
      if indexType != TypeNone && indexType != TypeZSet {
        server.Delete(key);
        server.Delete(sp.index);
        return REJECTED;
      }
      server.RemoveUpTo(sp.index, now);
      var keyType := server.Type(key);
      if keyType != TypeNone && keyType != TypeString {
        reply := Invalidate(member);
        return;
      }
      if StrLen(server.db, now, key) > MAX_RATE_COUNTER_BYTES {
        reply := Invalidate(member);
        return;
      }
      var current := Get(server.db, now, key);
      if current.Some? {
        var attempts := LuaCounter(current.value);
        if attempts.None? {
          reply := Invalidate(member);
          return;
        }
        reply := CountAttempt(member, attempts.value);
        return;
      }
      reply := OpenWindow(member);
    }

    method CountAttempt(member: string, attempts: nat) returns (reply: Reply)
      requires policy.Valid() && sp.Key(member) != sp.index
      requires SortedSetAllowed(server.db, server.now, sp.index)
      requires TypeOf(server.db, server.now, sp.Key(member)) == TypeString
      requires LuaCounter(Get(server.db, server.now, sp.Key(member)).value) == Some(attempts)
      modifies server`db
      ensures (server.db, reply) == CountStep(old(server.db), server.now, sp, policy, member, attempts)
    {
      var key, now := sp.Key(member), server.now;
      if attempts >= policy.maxAttempts {
        var ttl := Pttl(server.db, now, key);
        if ttl < 1 || ttl > policy.window {
          reply := Invalidate(member);
          return;
        }
        TouchIndex(now + ttl, member);
        return Reply(0, 0, ttl);
      }
      var nextAttempts := server.Increment(key);
      var ttl := Pttl(server.db, now, key);
      if ttl < 1 || ttl > policy.window {
        reply := Invalidate(member);
        return;
      }
      TouchIndex(now + ttl, member);
      return Reply(1, policy.maxAttempts - nextAttempts, ttl);
    }

    method OpenWindow(member: string) returns (reply: Reply)
      requires policy.Valid() && sp.Key(member) != sp.index
      requires SortedSetAllowed(server.db, server.now, sp.index)
      modifies server`db
      ensures (server.db, reply) == OpenStep(old(server.db), server.now, sp, policy, maxKeys, member)
    {
      hide Touch, Decimal, SetPx;
      var now := server.now;
      RemovedScores(server.db, now, sp.index, member);
      server.Remove(sp.index, member);
      hide ScoresOf, ZRem, SortedSetAllowed;
      if ZCard(server.db, now, sp.index) >= maxKeys {
        return Reply(-1, 0, 0);
      }
      WrittenKeyIsRead(server.db, now, sp.Key(member), Decimal(1), policy.window);
      server.Set(sp.Key(member), Decimal(1), policy.window);
      OtherKeyKeepsType(old(server.db), now, sp.index, member, sp.Key(member), policy.window);
      TouchIndex(now + policy.window, member);
      return Reply(1, policy.maxAttempts - 1, policy.window);
    }

    method Check(key: seq<byte>) returns (r: Answer)
      requires policy.Valid() && sp.WellNamed() && sp.isMember(hash(key))
      modifies server`db
      ensures |key| == 0 || |key| > MAX_RATE_LIMIT_KEY_BYTES ==>
                r == Failure(InvalidKey) && server.db == old(server.db)
      ensures 1 <= |key| <= MAX_RATE_LIMIT_KEY_BYTES ==>
                var step := Script(old(server.db), server.now, sp, policy, maxKeys, hash(key));
                server.db == step.0 && r == Respond(step.1)
      ensures 1 <= |key| <= MAX_RATE_LIMIT_KEY_BYTES && Coherent(old(server.db), server.now, sp, policy) ==>
                && Coherent(server.db, server.now, sp, policy)
                && Outcome(Windows(server.db, server.now, sp, policy), r)
                   == RateLimit.Check(policy, maxKeys, Windows(old(server.db), server.now, sp, policy),
                                      server.now, hash(key))
    {
      if |key| == 0 || |key| > MAX_RATE_LIMIT_KEY_BYTES {
        return Failure(InvalidKey);
      }
      ghost var before := server.db;
      var reply := RunScript(hash(key));
      r := Respond(reply);
      if Coherent(before, server.now, sp, policy) {
        ScriptRefines(before, server.now, sp, policy, maxKeys, hash(key));
      }
    }
  }

  // ---------------------------------------------------------------------
  // Refinement of the in-memory limiter

  predicate HoldsCounter(db: Db, now: int, key: string, p: Policy) {
    match Lookup(db, now, key)
    case Some(Entry(Str(data), _)) =>
      |data| <= MAX_RATE_COUNTER_BYTES && LuaCounter(data).Some? && LuaCounter(data).value <= p.maxAttempts
    case _ => false
  }

  /** What holds between any two script runs. */
  ghost predicate Coherent(db: Db, now: int, sp: Space, p: Policy) {
    && InStep(db, now, sp)
    && forall m :: m in Live(db, now, sp) ==>
                     HoldsCounter(db, now, sp.Key(m), p) && Live(db, now, sp)[m] <= now + p.window
  }

  function Attempts(db: Db, now: int, key: string): nat {
    match Lookup(db, now, key)
    case Some(Entry(Str(data), _)) => if LuaCounter(data).Some? then LuaCounter(data).value else 0
    case _ => 0
  }

  /** The windows of the in-memory limiter that the keyspace stands for. */
  function Windows(db: Db, now: int, sp: Space, p: Policy): Entries<string> {
    map m | m in Live(db, now, sp) :: WindowEntry(Live(db, now, sp)[m] - p.window, Attempts(db, now, sp.Key(m)))
  }

  lemma WindowsAreOpen(db: Db, now: int, sp: Space, p: Policy)
    requires p.Valid() && Coherent(db, now, sp, p)
    ensures Counted(p, Windows(db, now, sp, p))
    ensures Retain(p, Windows(db, now, sp, p), now) == Windows(db, now, sp, p)
  {
    assert forall m :: m in Live(db, now, sp) ==> HoldsCounter(db, now, sp.Key(m), p);
  }

  /** The keyspace after the pruning command still stands for the same windows. */
  lemma PruneKeepsWindows(db: Db, now: int, sp: Space, p: Policy)
    requires p.Valid() && sp.WellNamed() && Coherent(db, now, sp, p)
    ensures SortedSetAllowed(db, now, sp.index)
    ensures var db1 := ZRemRangeByScore(db, now, sp.index, now);
            && Coherent(db1, now, sp, p) && Windows(db1, now, sp, p) == Windows(db, now, sp, p)
            && ScoresOf(db1, now, sp.index) == Live(db1, now, sp)
            && SameExcept(db, db1, now, {sp.index})
  {
    hide InStep, Live, Lookup, SameExcept, ZRemRangeByScore, LuaCounter;
    PruneKeepsStep(db, now, sp);
    KeepsWindows(db, ZRemRangeByScore(db, now, sp.index, now), now, sp, p);
  }

  lemma OtherWindowsKept(db: Db, db1: Db, db2: Db, now: int, sp: Space, p: Policy, member: string, m: string)
    requires p.Valid() && sp.WellNamed() && Coherent(db, now, sp, p) && sp.isMember(member)
    requires SameExcept(db, db1, now, {sp.Key(member)}) && SameExcept(db1, db2, now, {sp.index})
    requires m in Live(db, now, sp) && m != member
    ensures Lookup(db2, now, sp.Key(m)) == Lookup(db, now, sp.Key(m)) && HoldsCounter(db2, now, sp.Key(m), p)
  {
    LiveMembers(db, now, sp);
    assert sp.isMember(m);
    if sp.Key(m) == sp.Key(member) {
      KeyInjective(sp, m, member);
    }
    assert HoldsCounter(db, now, sp.Key(m), p);
  }

  /** Writing a counter and running the tail of the script sets exactly one window. */
  lemma RecordSetsWindow(db: Db, db1: Db, now: int, sp: Space, p: Policy, member: string, score: int, n: nat)
    requires p.Valid() && sp.WellNamed() && Coherent(db, now, sp, p) && sp.isMember(member)
    requires now < score <= now + p.window && 1 <= n <= p.maxAttempts
    requires SameExcept(db, db1, now, {sp.Key(member)})
    requires Lookup(db1, now, sp.Key(member)) == Some(Entry(Str(Decimal(n)), At(score)))
    ensures SortedSetAllowed(db1, now, sp.index)
    ensures var db2 := Touch(db1, now, sp.index, score, member, p.window);
            && Coherent(db2, now, sp, p)
            && Windows(db2, now, sp, p) == Windows(db, now, sp, p)[member := WindowEntry(score - p.window, n)]
            && SameExcept(db, db2, now, {sp.index, sp.Key(member)})
  {
    hide Touch, Live, InStep, Lookup, Decimal, LuaCounter, SortedSetAllowed;
    RecordKeepsStep(db, db1, now, sp, score, member, p.window);
    var db2 := Touch(db1, now, sp.index, score, member, p.window);
    RecordedCounter(db1, db2, now, sp, p, member, score, n);
    forall m | m in Live(db, now, sp) && m != member
      ensures Lookup(db2, now, sp.Key(m)) == Lookup(db, now, sp.Key(m)) && HoldsCounter(db2, now, sp.Key(m), p)
      ensures Attempts(db2, now, sp.Key(m)) == Attempts(db, now, sp.Key(m))
    {
      OtherWindowsKept(db, db1, db2, now, sp, p, member, m);
    }
    hide HoldsCounter, Attempts;
    var a, b := Windows(db, now, sp, p), Windows(db2, now, sp, p);
    assert b == a[member := WindowEntry(score - p.window, n)];
  }

  lemma RecordedCounter(db1: Db, db2: Db, now: int, sp: Space, p: Policy, member: string, score: int, n: nat)
    requires p.Valid() && sp.WellNamed() && sp.isMember(member) && 1 <= n <= p.maxAttempts
    requires SameExcept(db1, db2, now, {sp.index})
    requires Lookup(db1, now, sp.Key(member)) == Some(Entry(Str(Decimal(n)), At(score)))
    ensures Lookup(db2, now, sp.Key(member)) == Lookup(db1, now, sp.Key(member))
    ensures HoldsCounter(db2, now, sp.Key(member), p) && Attempts(db2, now, sp.Key(member)) == n
  {
    hide Lookup, Decimal, LuaCounter;
    CounterRoundTrip(n);
    CounterFits(n);
    assert sp.Key(member) !in {sp.index};
  }

  lemma CounterFits(n: nat)
    requires n < 0x1_0000_0000
    ensures |Decimal(n)| <= MAX_RATE_COUNTER_BYTES
  {
    assert Pow10(10) == 10_000_000_000;
    DecimalLength(n, 10);
  }

  /** What the reading commands of the script find for a live member. */
  lemma CounterIsRead(db: Db, now: int, sp: Space, p: Policy, member: string)
    requires p.Valid() && sp.WellNamed() && Coherent(db, now, sp, p) && member in Live(db, now, sp)
    ensures var key, w := sp.Key(member), Windows(db, now, sp, p)[member];
            && Lookup(db, now, key) == Some(Entry(Str(Decimal(w.attempts)), At(w.startedAt + p.window)))
            && now < w.startedAt + p.window <= now + p.window
            && LuaCounter(Decimal(w.attempts)) == Some(w.attempts)
            && TypeOf(db, now, key) == TypeString
            && Get(db, now, key) == Some(Decimal(w.attempts))
            && StrLen(db, now, key) <= MAX_RATE_COUNTER_BYTES
            && Pttl(db, now, key) == w.startedAt + p.window - now
  {
    assert HoldsCounter(db, now, sp.Key(member), p);
    LiveMembers(db, now, sp);
    assert Matches(db, now, sp, member);
  }

  lemma WrittenKeyIsRead(db: Db, now: int, key: string, data: seq<byte>, ttl: int)
    requires 1 <= ttl
    ensures Lookup(SetPx(db, now, key, data, ttl), now, key) == Some(Entry(Str(data), At(now + ttl)))
    ensures SameExcept(db, SetPx(db, now, key, data, ttl), now, {key})
    ensures TypeOf(db, now, key) == TypeString ==>
              && Lookup(Overwrite(db, now, key, data), now, key)
                 == Some(Entry(Str(data), Lookup(db, now, key).value.expiry))
              && SameExcept(db, Overwrite(db, now, key, data), now, {key})
  {
  }

  lemma KeepsWindows(db: Db, db2: Db, now: int, sp: Space, p: Policy)
    requires p.Valid() && sp.WellNamed() && Coherent(db, now, sp, p)
    requires InStep(db2, now, sp) && Live(db2, now, sp) == Live(db, now, sp) && SameExcept(db, db2, now, {sp.index})
    ensures Coherent(db2, now, sp, p) && Windows(db2, now, sp, p) == Windows(db, now, sp, p)
  {
    hide InStep, Live, Lookup, SameExcept;
    IndexIsNoKey(db, db2, now, sp);
    assert forall m :: m in Live(db, now, sp) ==> HoldsCounter(db, now, sp.Key(m), p);
    hide LuaCounter;
  }

  lemma CountRefines(db: Db, now: int, sp: Space, p: Policy, maxKeys: nat, member: string, w: WindowEntry)
    requires p.Valid() && sp.WellNamed() && Coherent(db, now, sp, p) && sp.isMember(member)
    requires Counted(p, Windows(db, now, sp, p)) && Retain(p, Windows(db, now, sp, p), now) == Windows(db, now, sp, p)
    requires member in Windows(db, now, sp, p) && Windows(db, now, sp, p)[member] == w
    requires SortedSetAllowed(db, now, sp.index) && TypeOf(db, now, sp.Key(member)) == TypeString
    requires Lookup(db, now, sp.Key(member)) == Some(Entry(Str(Decimal(w.attempts)), At(w.startedAt + p.window)))
    requires now < w.startedAt + p.window <= now + p.window
    requires Pttl(db, now, sp.Key(member)) == w.startedAt + p.window - now
    ensures Refines(db, CountStep(db, now, sp, p, member, w.attempts), now, sp, p, maxKeys, member)
  {
    hide InStep, Lookup, Touch, Decimal, LuaCounter, Coherent, SortedSetAllowed;
    hide Windows, Discard, Pttl, Overwrite, TypeOf;
    var n, score := w.attempts, w.startedAt + p.window;
    if n >= p.maxAttempts {
      RecordSetsWindow(db, db, now, sp, p, member, score, n);
      assert Windows(db, now, sp, p)[member := w] == Windows(db, now, sp, p);
    } else {
      WrittenKeyIsRead(db, now, sp.Key(member), Decimal(n + 1), 1);
      var db2 := Overwrite(db, now, sp.Key(member), Decimal(n + 1));
      RecordSetsWindow(db, db2, now, sp, p, member, score, n + 1);
    }
  }

  /** `step` is what the in-memory limiter does on the windows of `db`, and it changes no key but its own two. */
  ghost predicate Refines(db: Db, step: (Db, Reply), now: int, sp: Space, p: Policy, maxKeys: nat, member: string)
    requires p.Valid() && Counted(p, Windows(db, now, sp, p))
  {
    var o := RateLimit.Check(p, maxKeys, Windows(db, now, sp, p), now, member);
    && Coherent(step.0, now, sp, p)
    && Windows(step.0, now, sp, p) == o.entries
    && Respond(step.1) == o.answer
    && step.1 != REJECTED
    && SameExcept(db, step.0, now, {sp.index, sp.Key(member)})
  }

  lemma RemovedScores(db: Db, now: int, key: string, member: string)
    requires SortedSetAllowed(db, now, key)
    ensures ScoresOf(ZRem(db, now, key, member), now, key) == ScoresOf(db, now, key) - {member}
    ensures SortedSetAllowed(ZRem(db, now, key, member), now, key)
  {
  }

  lemma OtherKeyKeepsType(db: Db, now: int, index: string, member: string, key: string, ttl: int)
    requires SortedSetAllowed(db, now, index) && key != index && 1 <= ttl
    ensures SortedSetAllowed(SetPx(ZRem(db, now, index, member), now, key, Decimal(1), ttl), now, index)
  {
  }

  lemma FreshRefines(db: Db, now: int, sp: Space, p: Policy, maxKeys: nat, member: string)
    requires p.Valid() && sp.WellNamed() && Coherent(db, now, sp, p) && sp.isMember(member)
    requires Counted(p, Windows(db, now, sp, p)) && Retain(p, Windows(db, now, sp, p), now) == Windows(db, now, sp, p)
    requires member !in Windows(db, now, sp, p)
    requires SortedSetAllowed(db, now, sp.index) && |ScoresOf(db, now, sp.index)| == |Windows(db, now, sp, p)|
    ensures Refines(db, FreshStep(db, now, sp, p, maxKeys, member), now, sp, p, maxKeys, member)
  {
    hide InStep, Lookup, Touch, Decimal, LuaCounter, Coherent, SortedSetAllowed, Windows, SetPx, ScoresOf;
    if ZCard(db, now, sp.index) < maxKeys {
      WrittenKeyIsRead(db, now, sp.Key(member), Decimal(1), p.window);
      var db2 := SetPx(db, now, sp.Key(member), Decimal(1), p.window);
      RecordSetsWindow(db, db2, now, sp, p, member, now + p.window, 1);
    }
  }

  /** Removing a member that is not live changes nothing that can be seen through the index. */
  lemma StaleMemberRemoved(db: Db, now: int, sp: Space, p: Policy, member: string)
    requires p.Valid() && sp.WellNamed() && Coherent(db, now, sp, p)
    requires ScoresOf(db, now, sp.index) == Live(db, now, sp) && member !in Live(db, now, sp)
    ensures SortedSetAllowed(db, now, sp.index)
    ensures var db2 := ZRem(db, now, sp.index, member);
            && Coherent(db2, now, sp, p) && Windows(db2, now, sp, p) == Windows(db, now, sp, p)
            && SortedSetAllowed(db2, now, sp.index)
            && |ScoresOf(db2, now, sp.index)| == |Windows(db, now, sp, p)|
            && SameExcept(db, db2, now, {sp.index})
  {
    RemoveDeadKeepsStep(db, now, sp, member);
    RemovedScores(db, now, sp.index, member);
    hide Lookup, InStep, ZRem, PutScores;
    var db2 := ZRem(db, now, sp.index, member);
    KeepsWindows(db, db2, now, sp, p);
    assert ScoresOf(db2, now, sp.index) == Live(db, now, sp);
    assert Windows(db, now, sp, p).Keys == Live(db, now, sp).Keys;
    SameSize(Windows(db, now, sp, p), Live(db, now, sp));
  }

  lemma OpenRefines(db: Db, now: int, sp: Space, p: Policy, maxKeys: nat, member: string)
    requires p.Valid() && sp.WellNamed() && Coherent(db, now, sp, p) && sp.isMember(member)
    requires Counted(p, Windows(db, now, sp, p)) && Retain(p, Windows(db, now, sp, p), now) == Windows(db, now, sp, p)
    requires ScoresOf(db, now, sp.index) == Live(db, now, sp)
    requires member !in Live(db, now, sp) && member !in Windows(db, now, sp, p)
    requires SortedSetAllowed(db, now, sp.index)
    ensures Refines(db, OpenStep(db, now, sp, p, maxKeys, member), now, sp, p, maxKeys, member)
  {
    hide Lookup, Touch, Decimal, Coherent, SortedSetAllowed, Windows, SetPx, ScoresOf, FreshStep, RateLimit.Check,
      Live, InStep, ZRem, SameExcept, Counted, Retain, Respond;
    StaleMemberRemoved(db, now, sp, p, member);
    var db2 := ZRem(db, now, sp.index, member);
    FreshRefines(db2, now, sp, p, maxKeys, member);
    var step := FreshStep(db2, now, sp, p, maxKeys, member);
    ChangesAddUp(db, db2, step.0, now, sp.index, sp.Key(member));
  }

  lemma AbsentIsNone(db: Db, now: int, sp: Space, p: Policy, member: string)
    requires Coherent(db, now, sp, p) && sp.isMember(member)
    ensures SortedSetAllowed(db, now, sp.index)
    ensures Lookup(db, now, sp.Key(member)).Some? <==> member in Live(db, now, sp)
    ensures member in Live(db, now, sp) <==> member in Windows(db, now, sp, p)
  {
    assert Matches(db, now, sp, member);
  }

  /**
   One run of the script on a coherent keyspace gives the answer of the
   in-memory limiter, keeps the keyspace coherent, and touches no key but its
   own two. In particular no cleanup branch is taken.
   */
  lemma ScriptRefines(db: Db, now: int, sp: Space, p: Policy, maxKeys: nat, member: string)
    requires p.Valid() && sp.WellNamed() && Coherent(db, now, sp, p) && sp.isMember(member)
    ensures Counted(p, Windows(db, now, sp, p))
    ensures Refines(db, Script(db, now, sp, p, maxKeys, member), now, sp, p, maxKeys, member)
  {
    hide Touch, Decimal, LuaCounter, Coherent, Live, SetPx, ZRem, ZRemRangeByScore, CountStep, OpenStep, Windows,
      RateLimit.Check, Overwrite, SameExcept, Counted, Retain, Respond, ScoresOf, InStep;
    PruneKeepsWindows(db, now, sp, p);
    var db1 := ZRemRangeByScore(db, now, sp.index, now);
    WindowsAreOpen(db1, now, sp, p);
    AbsentIsNone(db1, now, sp, p, member);
    var step: (Db, Reply);
    if member in Live(db1, now, sp) {
      CounterIsRead(db1, now, sp, p, member);
      var w := Windows(db1, now, sp, p)[member];
      CountRefines(db1, now, sp, p, maxKeys, member, w);
      step := CountStep(db1, now, sp, p, member, w.attempts);
    } else {
      OpenRefines(db1, now, sp, p, maxKeys, member);
      step := OpenStep(db1, now, sp, p, maxKeys, member);
    }
    assert Script(db, now, sp, p, maxKeys, member) == step;
    ChangesAddUp(db, db1, step.0, now, sp.index, sp.Key(member));
  }

  // ---------------------------------------------------------------------
  // Whole runs

  lemma TickMember(db: Db, now: int, later: int, sp: Space, p: Policy, m: string)
    requires Coherent(db, now, sp, p) && now <= later && InStep(db, later, sp)
    requires m in AboveScore(Live(db, now, sp), later) && m in Live(db, later, sp)
    ensures HoldsCounter(db, later, sp.Key(m), p)
    ensures Attempts(db, later, sp.Key(m)) == Attempts(db, now, sp.Key(m))
  {
    LiveMembers(db, now, sp);
    assert sp.isMember(m) && Matches(db, now, sp, m) && Matches(db, later, sp, m);
    assert HoldsCounter(db, now, sp.Key(m), p);
  }

  lemma TickRetains(db: Db, now: int, later: int, sp: Space, p: Policy)
    requires p.Valid() && now <= later
    requires Live(db, later, sp) == AboveScore(Live(db, now, sp), later)
    requires forall m :: m in Live(db, later, sp) ==> Attempts(db, later, sp.Key(m)) == Attempts(db, now, sp.Key(m))
    ensures Windows(db, later, sp, p) == Retain(p, Windows(db, now, sp, p), later)
  {
    hide Live, Attempts;
    var a, b := Windows(db, later, sp, p), Retain(p, Windows(db, now, sp, p), later);
    assert a.Keys == b.Keys;
    forall m | m in a ensures a[m] == b[m] {
    }
  }

  /** Waiting keeps the keyspace coherent and closes exactly the windows the in-memory limiter would prune. */
  lemma TickKeepsCoherent(db: Db, now: int, later: int, sp: Space, p: Policy)
    requires p.Valid() && Coherent(db, now, sp, p) && now <= later
    ensures Coherent(db, later, sp, p)
    ensures Windows(db, later, sp, p) == Retain(p, Windows(db, now, sp, p), later)
  {
    hide Live, Attempts, InStep, Lookup, HoldsCounter, Windows;
    TickKeepsStep(db, now, later, sp);
    forall m | m in Live(db, later, sp)
      ensures HoldsCounter(db, later, sp.Key(m), p) && Live(db, later, sp)[m] <= now + p.window
      ensures Attempts(db, later, sp.Key(m)) == Attempts(db, now, sp.Key(m))
    {
      TickMember(db, now, later, sp, p, m);
    }
    TickRetains(db, now, later, sp, p);
  }

  /** The replies of one shared keyspace to scripts of any number of clients, in the order they are served. */
  function RunScripts(db: Db, sp: Space, p: Policy, maxKeys: nat, events: seq<Runs.Event<string>>)
    : (answers: seq<Answer>)
    requires p.Valid()
    requires forall i :: 0 <= i < |events| ==> sp.Key(events[i].key) != sp.index
    ensures |answers| == |events|
    decreases |events|
  {
    if events == [] then []
    else
      var step := Script(db, events[0].at, sp, p, maxKeys, events[0].key);
      [Respond(step.1)] + RunScripts(step.0, sp, p, maxKeys, events[1..])
  }

  /** Checks on a map and on its pruned form answer alike. */
  lemma CheckIgnoresClosedWindows(p: Policy, maxKeys: nat, entries: Entries<string>, now: int, key: string)
    requires p.Valid() && Counted(p, entries)
    ensures Counted(p, Retain(p, entries, now))
    ensures RateLimit.Check(p, maxKeys, Retain(p, entries, now), now, key)
            == RateLimit.Check(p, maxKeys, entries, now, key)
  {
    assert Retain(p, Retain(p, entries, now), now) == Retain(p, entries, now);
  }

  /** From any coherent keyspace, with any interleaving of clients and a nondecreasing clock. */
  lemma {:induction false} RunRefines(db: Db, now: int, sp: Space, p: Policy, maxKeys: nat,
                                    events: seq<Runs.Event<string>>)
    requires p.Valid() && sp.WellNamed() && Coherent(db, now, sp, p)
    requires Counted(p, Windows(db, now, sp, p))
    requires Runs.Ordered(events) && (events != [] ==> now <= events[0].at)
    requires forall i :: 0 <= i < |events| ==> sp.isMember(events[i].key)
    ensures RunScripts(db, sp, p, maxKeys, events) == Runs.Run(p, maxKeys, Windows(db, now, sp, p), events)
    decreases |events|
  {
    if events != [] {
      var e := events[0];
      TickKeepsCoherent(db, now, e.at, sp, p);
      ScriptRefines(db, e.at, sp, p, maxKeys, e.key);
      CheckIgnoresClosedWindows(p, maxKeys, Windows(db, now, sp, p), e.at, e.key);
      Runs.RunUnfolds(p, maxKeys, Windows(db, now, sp, p), events);
      RunRefines(Script(db, e.at, sp, p, maxKeys, e.key).0, e.at, sp, p, maxKeys, events[1..]);
    }
  }

  /** The keyspace after a run of scripts. */
  function KeyspaceAfter(db: Db, sp: Space, p: Policy, maxKeys: nat, events: seq<Runs.Event<string>>): Db
    requires p.Valid()
    requires forall i :: 0 <= i < |events| ==> sp.Key(events[i].key) != sp.index
    decreases |events|
  {
    if events == [] then db
    else KeyspaceAfter(Script(db, events[0].at, sp, p, maxKeys, events[0].key).0, sp, p, maxKeys, events[1..])
  }

  lemma {:induction false} RunKeepsCoherent(db: Db, now: int, sp: Space, p: Policy, maxKeys: nat,
                                          events: seq<Runs.Event<string>>, later: int)
    requires p.Valid() && sp.WellNamed() && Coherent(db, now, sp, p)
    requires Runs.Ordered(events) && (events != [] ==> now <= events[0].at)
    requires now <= later && forall i :: 0 <= i < |events| ==> sp.isMember(events[i].key) && events[i].at <= later
    ensures Coherent(KeyspaceAfter(db, sp, p, maxKeys, events), later, sp, p)
    decreases |events|
  {
    if events == [] {
      TickKeepsCoherent(db, now, later, sp, p);
    } else {
      var e := events[0];
      TickKeepsCoherent(db, now, e.at, sp, p);
      ScriptRefines(db, e.at, sp, p, maxKeys, e.key);
      RunKeepsCoherent(Script(db, e.at, sp, p, maxKeys, e.key).0, e.at, sp, p, maxKeys, events[1..], later);
    }
  }

  /** At every moment of every run the index is in step with the counters. */
  lemma ReachableKeyspaceIsCoherent(namespace: string, p: Policy, maxKeys: nat,
                                    events: seq<Runs.Event<string>>, later: int)
    requires p.Valid() && Runs.Ordered(events)
    requires forall i :: 0 <= i < |events| ==> events[i].at <= later
    ensures RateSpace(namespace).WellNamed()
    ensures Coherent(KeyspaceAfter(map[], RateSpace(namespace), p, maxKeys, events), later, RateSpace(namespace), p)
  {
    RateSpaceIsWellNamed(namespace);
    var now := if events == [] then later else events[0].at;
    RunKeepsCoherent(map[], now, RateSpace(namespace), p, maxKeys, events, later);
  }

  /** Started on an empty keyspace, the distributed limiter answers every run as the in-memory one does. */
  lemma DistributedLimiterRefinesInMemory(namespace: string, p: Policy, maxKeys: nat,
                                         events: seq<Runs.Event<string>>)
    requires p.Valid() && Runs.Ordered(events)
    ensures RateSpace(namespace).WellNamed()
    ensures RunScripts(map[], RateSpace(namespace), p, maxKeys, events) == Runs.Run(p, maxKeys, map[], events)
  {
    RateSpaceIsWellNamed(namespace);
    var sp := RateSpace(namespace);
    if events != [] {
      var now := events[0].at;
      assert Windows(map[], now, sp, p) == map[];
      RunRefines(map[], now, sp, p, maxKeys, events);
    }
  }

  /** The same for the public keys behind the hashes, when no two of them collide. */
  lemma DistributedLimiterRefinesInMemoryOnKeys(namespace: string, p: Policy, maxKeys: nat, hash: seq<byte> -> string,
                                              domain: set<seq<byte>>, events: seq<Runs.Event<seq<byte>>>)
    requires p.Valid() && Runs.Ordered(events) && Runs.InjectiveOn(hash, domain)
    requires forall i :: 0 <= i < |events| ==> events[i].key in domain
    ensures RateSpace(namespace).WellNamed()
    ensures var hashed := seq(|events|, i requires 0 <= i < |events| => Runs.Event(hash(events[i].key), events[i].at));
            RunScripts(map[], RateSpace(namespace), p, maxKeys, hashed) == Runs.Run(p, maxKeys, map[], events)
  {
    var hashed := seq(|events|, i requires 0 <= i < |events| => Runs.Event(hash(events[i].key), events[i].at));
    DistributedLimiterRefinesInMemory(namespace, p, maxKeys, hashed);
    Runs.HashingIsInvisible(p, maxKeys, hash, domain, map[], map[], events, hashed);
  }
}
