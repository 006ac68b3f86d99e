/**
 The Redis commands the Lua scripts issue, on a keyspace of values with
 optional expiry times. Time is in milliseconds and is frozen inside a script;
 a key can be read exactly while `now` is before its expiry, and a sorted set
 that becomes empty disappears together with its TTL. The functions say what
 each command does to the keyspace; `Server` is the mutable keyspace that the
 scripts run against.
 */
module Redis {
  import opened Common

  type Scores = map<string, int>

  /** `Other` stands for lists, hashes and every other type the adapters never write. */
  datatype Value = Str(data: seq<byte>) | ZSet(scores: Scores) | Other

  datatype Expiry = Never | At(ms: int)

  datatype Entry = Entry(value: Value, expiry: Expiry)

  type Db = map<string, Entry>

  datatype KeyType = TypeNone | TypeString | TypeZSet | TypeOther

  predicate Readable(e: Entry, now: int) {
    e.expiry.Never? || now < e.expiry.ms
  }

  function Lookup(db: Db, now: int, key: string): Option<Entry> {
    if key in db && Readable(db[key], now) then Some(db[key]) else None
  }

  function TypeOf(db: Db, now: int, key: string): KeyType {
    match Lookup(db, now, key)
    case None => TypeNone
    case Some(e) => match e.value { case Str(_) => TypeString case ZSet(_) => TypeZSet case Other => TypeOther }
  }

  /** The type check Redis makes before a sorted-set command. */
  predicate SortedSetAllowed(db: Db, now: int, key: string) {
    TypeOf(db, now, key) == TypeNone || TypeOf(db, now, key) == TypeZSet
  }

  /** The type check Redis makes before a string command. */
  predicate StringAllowed(db: Db, now: int, key: string) {
    TypeOf(db, now, key) == TypeNone || TypeOf(db, now, key) == TypeString
  }

  function ScoresOf(db: Db, now: int, key: string): Scores {
    match Lookup(db, now, key)
    case Some(Entry(ZSet(scores), _)) => scores
    case _ => map[]
  }

  function Del(db: Db, key: string): Db {
    db - {key}
  }

  /** Writes back a sorted set that lost members; an empty one is deleted. */
  function PutScores(db: Db, now: int, key: string, scores: Scores): Db
    requires SortedSetAllowed(db, now, key)
  {
    match Lookup(db, now, key)
    case None => db
    case Some(e) => if scores == map[] then db - {key} else db[key := e.(value := ZSet(scores))]
  }

  function AboveScore(scores: Scores, max: int): Scores {
    map m | m in scores && max < scores[m] :: scores[m]
  }

  /** `ZREMRANGEBYSCORE key -inf max` */
  function ZRemRangeByScore(db: Db, now: int, key: string, max: int): Db
    requires SortedSetAllowed(db, now, key)
  {
    PutScores(db, now, key, AboveScore(ScoresOf(db, now, key), max))
  }

  function ZRem(db: Db, now: int, key: string, member: string): Db
    requires SortedSetAllowed(db, now, key)
  {
    PutScores(db, now, key, ScoresOf(db, now, key) - {member})
  }

  function ZCard(db: Db, now: int, key: string): nat
    requires SortedSetAllowed(db, now, key)
  {
    |ScoresOf(db, now, key)|
  }

  function ZAdd(db: Db, now: int, key: string, score: int, member: string): Db
    requires SortedSetAllowed(db, now, key)
  {
    var scores := ScoresOf(db, now, key)[member := score];
    match Lookup(db, now, key)
    case None => db[key := Entry(ZSet(scores), Never)]
    case Some(e) => db[key := e.(value := ZSet(scores))]
  }

  /** -2 for a missing key, -1 for one that never expires, the remaining time otherwise. */
  function Pttl(db: Db, now: int, key: string): int {
    match Lookup(db, now, key)
    case None => -2
    case Some(e) => if e.expiry.Never? then -1 else e.expiry.ms - now
  }

  function PExpire(db: Db, now: int, key: string, ttl: int): Db
    requires 1 <= ttl
  {
    match Lookup(db, now, key)
    case None => db
    case Some(e) => db[key := e.(expiry := At(now + ttl))]
  }

  /** `SET key data PX ttl` */
  function SetPx(db: Db, now: int, key: string, data: seq<byte>, ttl: int): Db
    requires 1 <= ttl
  {
    db[key := Entry(Str(data), At(now + ttl))]
  }

  function Get(db: Db, now: int, key: string): Option<seq<byte>>
    requires StringAllowed(db, now, key)
  {
    match Lookup(db, now, key)
    case Some(Entry(Str(data), _)) => Some(data)
    case _ => None
  }

  function StrLen(db: Db, now: int, key: string): nat
    requires StringAllowed(db, now, key)
  {
    match Get(db, now, key)
    case Some(data) => |data|
    case None => 0
  }

  /** Replaces the data of a string key and keeps its TTL, as `INCR` does. */
  function Overwrite(db: Db, now: int, key: string, data: seq<byte>): Db
    requires TypeOf(db, now, key) == TypeString
  {
    db[key := Lookup(db, now, key).value.(value := Str(data))]
  }

  // ---------------------------------------------------------------------
  // Decimal counters

  function Decimal(n: nat): (s: seq<byte>)
    ensures |s| >= 1
  {
    if n < 10 then [48 + n] else Decimal(n / 10) + [48 + n % 10]
  }

  predicate AllDigits(s: seq<byte>) {
    forall i :: 0 <= i < |s| ==> 48 <= s[i] <= 57
  }

  function DigitsValue(s: seq<byte>): nat
    requires AllDigits(s)
  {
    if s == [] then 0 else 10 * DigitsValue(s[..|s| - 1]) + (s[|s| - 1] - 48)
  }

  /** Lua 5.1 prints a number with `%.14g`, so longer integers do not print as digits. */
  const LUA_INTEGER_LIMIT: nat := 100_000_000_000_000

  /**
   The number that the limiter script accepts `s` as: digits only, at least 1,
   and printed by Lua exactly as stored.
   */
  function LuaCounter(s: seq<byte>): Option<nat> {
    if s != [] && AllDigits(s) && 1 <= DigitsValue(s) < LUA_INTEGER_LIMIT && Decimal(DigitsValue(s)) == s
    then Some(DigitsValue(s)) else None
  }

  lemma {:induction false} DecimalDigits(n: nat)
    ensures AllDigits(Decimal(n)) && DigitsValue(Decimal(n)) == n
  {
    if n >= 10 {
      DecimalDigits(n / 10);
      assert Decimal(n)[..|Decimal(n)| - 1] == Decimal(n / 10);
    } else {
      assert Decimal(n)[..0] == [];
    }
  }

  lemma CounterRoundTrip(n: nat)
    requires 1 <= n < LUA_INTEGER_LIMIT
    ensures LuaCounter(Decimal(n)) == Some(n)
  {
    DecimalDigits(n);
  }

  /** A counter below 10^k has at most k digits. */
  lemma {:induction false} DecimalLength(n: nat, k: nat)
    requires 1 <= k && n < Pow10(k)
    ensures |Decimal(n)| <= k
    decreases k
  {
    if n >= 10 {
      assert k > 1;
      DecimalLength(n / 10, k - 1);
    }
  }

  function Pow10(k: nat): nat {
    if k == 0 then 1 else 10 * Pow10(k - 1)
  }

  // ---------------------------------------------------------------------

  class Server {
    var db: Db
    var now: int

    constructor (now: int)
      ensures db == map[] && this.now == now
    {
      this.db := map[];
      this.now := now;
    }

    method Type(key: string) returns (t: KeyType)
      ensures t == TypeOf(db, now, key)
    {
      t := TypeOf(db, now, key);
    }

    method Delete(key: string)
      modifies this`db
      ensures db == Del(old(db), key)
    {
      db := db - {key};
    }

    method RemoveUpTo(key: string, max: int)
      requires SortedSetAllowed(db, now, key)
      modifies this`db
      ensures db == ZRemRangeByScore(old(db), now, key, max)
    {
      db := ZRemRangeByScore(db, now, key, max);
    }

    method Remove(key: string, member: string)
      requires SortedSetAllowed(db, now, key)
      modifies this`db
      ensures db == ZRem(old(db), now, key, member)
    {
      db := ZRem(db, now, key, member);
    }

    method Add(key: string, score: int, member: string)
      requires SortedSetAllowed(db, now, key)
      modifies this`db
      ensures db == ZAdd(old(db), now, key, score, member)
    {
      db := ZAdd(db, now, key, score, member);
    }

    method Expire(key: string, ttl: int)
      requires 1 <= ttl
      modifies this`db
      ensures db == PExpire(old(db), now, key, ttl)
    {
      db := PExpire(db, now, key, ttl);
    }

    method Set(key: string, data: seq<byte>, ttl: int)
      requires 1 <= ttl
      modifies this`db
      ensures db == SetPx(old(db), now, key, data, ttl)
    {
      db := SetPx(db, now, key, data, ttl);
    }

    /** `SET key data NX PX ttl` */
    method SetIfAbsent(key: string, data: seq<byte>, ttl: int) returns (inserted: bool)
      requires 1 <= ttl
      modifies this`db
      ensures inserted <==> Lookup(old(db), now, key).None?
      ensures db == if inserted then SetPx(old(db), now, key, data, ttl) else old(db)
    {
      inserted := Lookup(db, now, key).None?;
      if inserted {
        db := SetPx(db, now, key, data, ttl);
      }
    }

    /** `INCR` of a key that holds a counter the script has accepted. */
    method Increment(key: string) returns (n: nat)
      requires TypeOf(db, now, key) == TypeString
      requires LuaCounter(Get(db, now, key).value).Some?
      modifies this`db
      ensures n == LuaCounter(old(Get(db, now, key).value)).value + 1
      ensures db == Overwrite(old(db), now, key, Decimal(n))
    {
      n := DigitsValue(Get(db, now, key).value) + 1;
      db := Overwrite(db, now, key, Decimal(n));
    }
  }
}
