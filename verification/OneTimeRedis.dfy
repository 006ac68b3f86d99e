/** The Redis one-time stores: the insert and consume scripts, proved to refine the shared specification. */
module OneTimeRedis {
  import opened Common
  import opened Redis
  import opened RedisIndex
  import opened OneTime

  datatype Flavour = LoginScripts | CeremonyScripts

  /** One store: its keys, its bounds, and which of the two consume scripts it runs. */
  datatype Store = Store(sp: Space, flavour: Flavour, capacity: nat, maxTtl: nat, maxBytes: nat)

  datatype InsertStatus = Stored | Full | Occupied | BrokenIndex | Aborted

  datatype ConsumeStatus = Found(value: seq<byte>) | Absent | Broken

  /** `SET NX PX 0` is a command error: it ends the script after the pruning it already did. */
  function InsertScript(db: Db, now: int, st: Store, value: seq<byte>, ttl: nat, member: string): (Db, InsertStatus)
    requires st.sp.Key(member) != st.sp.index
  {
    var index, key := st.sp.index, st.sp.Key(member);
    if !SortedSetAllowed(db, now, index) then (Del(db, index), BrokenIndex) else
    var db1 := ZRemRangeByScore(db, now, index, now);
    if ZCard(db1, now, index) >= st.capacity then (db1, Full)
    else if ttl == 0 then (db1, Aborted)
    else StoreNew(db1, now, st, value, ttl, member)
  }

  /** The end of the insert script. */
  function StoreNew(db: Db, now: int, st: Store, value: seq<byte>, ttl: nat, member: string): (Db, InsertStatus)
    requires st.sp.Key(member) != st.sp.index && SortedSetAllowed(db, now, st.sp.index) && 1 <= ttl
  {
    var index, key := st.sp.index, st.sp.Key(member);
    if Lookup(db, now, key).Some? then (db, Occupied)
    else (Touch(SetPx(db, now, key, value, ttl), now, index, now + ttl, member, ttl), Stored)
  }

  /** Deletes the key and its index member. */
  function Drop(db: Db, now: int, sp: Space, member: string): Db
    requires SortedSetAllowed(Del(db, sp.Key(member)), now, sp.index)
  {
    ZRem(Del(db, sp.Key(member)), now, sp.index, member)
  }

  /** The checks and the read that both consume scripts share once the key is known to have a sane TTL. */
  function ReadOut(db: Db, now: int, st: Store, member: string): (Db, ConsumeStatus)
    requires st.sp.Key(member) != st.sp.index && SortedSetAllowed(db, now, st.sp.index)
  {
    var key := st.sp.Key(member);
    if !StringAllowed(db, now, key) || StrLen(db, now, key) > st.maxBytes then (Drop(db, now, st.sp, member), Broken)
    else
      match Get(db, now, key)
      case Some(value) => (Drop(db, now, st.sp, member), Found(value))
      case None =>
        (if st.flavour == LoginScripts then ZRem(db, now, st.sp.index, member) else db, Absent)
  }

  function ConsumeScript(db: Db, now: int, st: Store, member: string): (Db, ConsumeStatus)
    requires st.sp.Key(member) != st.sp.index
  {
    var index, key := st.sp.index, st.sp.Key(member);
    if !SortedSetAllowed(db, now, index) then (Del(Del(db, key), index), Broken) else
    var db1 := ZRemRangeByScore(db, now, index, now);
    var ttl := Pttl(db1, now, key);
    match st.flavour
    case LoginScripts =>
      if ttl == -1 || ttl == 0 || ttl > st.maxTtl then (Drop(db1, now, st.sp, member), Broken)
      else ReadOut(db1, now, st, member)
    case CeremonyScripts =>
      if ttl == -2 then (ZRem(db1, now, index, member), Absent)
      else if ttl < 1 || ttl > st.maxTtl then (Drop(db1, now, st.sp, member), Broken)
      else ReadOut(db1, now, st, member)
  }

  lemma PrunedAllowed(db: Db, now: int, index: string, max: int)
    requires SortedSetAllowed(db, now, index)
    ensures SortedSetAllowed(ZRemRangeByScore(db, now, index, max), now, index)
  {
  }

  lemma SetPxKeepsAllowed(db: Db, now: int, key: string, value: seq<byte>, ttl: nat, index: string)
    requires SortedSetAllowed(db, now, index) && key != index && 1 <= ttl
    ensures SortedSetAllowed(SetPx(db, now, key, value, ttl), now, index)
  {
  }

  class Scripts {
    const server: Server
    const st: Store

    constructor (server: Server, st: Store)
      ensures this.server == server && this.st == st
    {
      this.server := server;
      this.st := st;
    }

    method Insert(value: seq<byte>, ttl: nat, member: string) returns (status: InsertStatus)
      requires st.sp.Key(member) != st.sp.index
      modifies server`db
      ensures (server.db, status) == InsertScript(old(server.db), server.now, st, value, ttl, member)
    {
      var index, key, now := st.sp.index, st.sp.Key(member), server.now;
      var indexType := server.Type(index);
      if indexType != TypeNone && indexType != TypeZSet {
        server.Delete(index);
        return BrokenIndex;
      }
      PrunedAllowed(server.db, now, index, now);
      server.RemoveUpTo(index, now);
      if ZCard(server.db, now, index) >= st.capacity {
        return Full;
      }
      if ttl == 0 {
        return Aborted;
      }
      status := SetAndTouch(value, ttl, member);
    }

    method SetAndTouch(value: seq<byte>, ttl: nat, member: string) returns (status: InsertStatus)
      requires st.sp.Key(member) != st.sp.index && SortedSetAllowed(server.db, server.now, st.sp.index) && 1 <= ttl
      modifies server`db
      ensures (server.db, status) == StoreNew(old(server.db), server.now, st, value, ttl, member)
    {
      SetPxKeepsAllowed(server.db, server.now, st.sp.Key(member), value, ttl, st.sp.index);
      var inserted := server.SetIfAbsent(st.sp.Key(member), value, ttl);
      if !inserted {
        return Occupied;
      }
      TouchIndex(server.now + ttl, member, ttl);
      return Stored;
    }

    /** Adds the member to the index, whose own TTL is only ever extended. */
    method TouchIndex(score: int, member: string, ttl: nat)
      requires SortedSetAllowed(server.db, server.now, st.sp.index) && 1 <= ttl
      modifies server`db
      ensures server.db == Touch(old(server.db), server.now, st.sp.index, score, member, ttl)
    {
      server.Add(st.sp.index, score, member);
      var indexTtl := Pttl(server.db, server.now, st.sp.index);
      if indexTtl < ttl {
        server.Expire(st.sp.index, ttl);
      }
    }

    method DropMember(member: string)
      requires SortedSetAllowed(Del(server.db, st.sp.Key(member)), server.now, st.sp.index)
      modifies server`db
      ensures server.db == Drop(old(server.db), server.now, st.sp, member)
    {
      server.Delete(st.sp.Key(member));
      server.Remove(st.sp.index, member);
    }

    method Read(member: string) returns (status: ConsumeStatus)
      requires st.sp.Key(member) != st.sp.index && SortedSetAllowed(server.db, server.now, st.sp.index)
      modifies server`db
      ensures (server.db, status) == ReadOut(old(server.db), server.now, st, member)
    {
      var key, now := st.sp.Key(member), server.now;
      var keyType := server.Type(key);
      if keyType != TypeNone && keyType != TypeString {
        DropMember(member);
        return Broken;
      }
      var length := StrLen(server.db, now, key);
      if length > st.maxBytes {
        DropMember(member);
        return Broken;
      }
      var value := Get(server.db, now, key);
      if value.Some? {
        DropMember(member);
        return Found(value.value);
      }
      if st.flavour == LoginScripts {
        server.Remove(st.sp.index, member);
      }
      return Absent;
    }

    method Consume(member: string) returns (status: ConsumeStatus)
      requires st.sp.Key(member) != st.sp.index
      modifies server`db
      ensures (server.db, status) == ConsumeScript(old(server.db), server.now, st, member)
    {
      var index, key, now := st.sp.index, st.sp.Key(member), server.now;
      var indexType := server.Type(index);
      if indexType != TypeNone && indexType != TypeZSet {
        server.Delete(key);
        server.Delete(index);
        return Broken;
      }
      server.RemoveUpTo(index, now);
      var ttl := Pttl(server.db, now, key);
      match st.flavour {
        case LoginScripts =>
          if ttl == -1 || ttl == 0 || ttl > st.maxTtl {
            DropMember(member);
            return Broken;
          }
        case CeremonyScripts =>
          if ttl == -2 {
            server.Remove(index, member);
            return Absent;
          }
          if ttl < 1 || ttl > st.maxTtl {
            DropMember(member);
            return Broken;
          }
      }
      status := Read(member);
    }
  }

  // ---------------------------------------------------------------------
  // The records a keyspace stands for

  predicate HoldsRecord(db: Db, now: int, key: string, maxBytes: nat) {
    match Lookup(db, now, key)
    case Some(Entry(Str(data), _)) => |data| <= maxBytes
    case _ => false
  }

  function DataAt(db: Db, now: int, key: string): seq<byte> {
    match Lookup(db, now, key)
    case Some(Entry(Str(data), _)) => data
    case _ => []
  }

  /** What holds between any two script runs. */
  ghost predicate Sound(db: Db, now: int, st: Store) {
    && InStep(db, now, st.sp)
    && forall m :: m in Live(db, now, st.sp) ==>
                     HoldsRecord(db, now, st.sp.Key(m), st.maxBytes) && Live(db, now, st.sp)[m] <= now + st.maxTtl
  }

  type Records = Pending<string, (), seq<byte>>

  function RecordsOf(db: Db, now: int, st: Store): Records {
    map m | m in Live(db, now, st.sp) :: Record((), DataAt(db, now, st.sp.Key(m)), Live(db, now, st.sp)[m])
  }

  lemma RecordsAreLive(db: Db, now: int, st: Store)
    ensures Purge(RecordsOf(db, now, st), now) == RecordsOf(db, now, st)
    ensures RecordsOf(db, now, st).Keys == Live(db, now, st.sp).Keys
  {
  }

  /** A change of the keyspace that keeps every other live key keeps the other records. */
  lemma RecordsFollow(db: Db, db2: Db, now: int, st: Store, members: set<string>)
    requires Sound(db, now, st) && InStep(db2, now, st.sp)
    requires forall m :: m in members ==> m in Live(db, now, st.sp) && m in Live(db2, now, st.sp)
                                          && Live(db2, now, st.sp)[m] == Live(db, now, st.sp)[m]
    requires forall m :: m in members ==>
                           Lookup(db2, now, st.sp.Key(m)) == Lookup(db, now, st.sp.Key(m))
    ensures forall m :: m in members ==>
                          && HoldsRecord(db2, now, st.sp.Key(m), st.maxBytes)
                          && Live(db2, now, st.sp)[m] <= now + st.maxTtl
                          && m in RecordsOf(db, now, st) && m in RecordsOf(db2, now, st)
                          && RecordsOf(db2, now, st)[m] == RecordsOf(db, now, st)[m]
  {
    forall m | m in members
      ensures HoldsRecord(db2, now, st.sp.Key(m), st.maxBytes)
      ensures RecordsOf(db2, now, st)[m] == RecordsOf(db, now, st)[m]
    {
      assert HoldsRecord(db, now, st.sp.Key(m), st.maxBytes);
    }
  }

  /** The index update after a record was put or removed: the live members are the old ones, but for `member`. */
  lemma Settle(db: Db, db2: Db, now: int, st: Store, member: string)
    requires st.sp.WellNamed() && Sound(db, now, st) && InStep(db2, now, st.sp)
    requires SameExcept(db, db2, now, {st.sp.index, st.sp.Key(member)})
    requires Live(db2, now, st.sp) - {member} == Live(db, now, st.sp) - {member}
    requires member in Live(db2, now, st.sp) ==>
               HoldsRecord(db2, now, st.sp.Key(member), st.maxBytes) && Live(db2, now, st.sp)[member] <= now + st.maxTtl
    ensures Sound(db2, now, st)
    ensures RecordsOf(db2, now, st) - {member} == RecordsOf(db, now, st) - {member}
  {
    hide InStep, Lookup, HoldsRecord;
    var others := (Live(db, now, st.sp) - {member}).Keys;
    assert others == (Live(db2, now, st.sp) - {member}).Keys;
    forall m | m in others
      ensures m in Live(db, now, st.sp) && m in Live(db2, now, st.sp)
      ensures Live(db2, now, st.sp)[m] == Live(db, now, st.sp)[m]
      ensures Lookup(db2, now, st.sp.Key(m)) == Lookup(db, now, st.sp.Key(m))
    {
      assert (Live(db2, now, st.sp) - {member})[m] == (Live(db, now, st.sp) - {member})[m];
      OtherKeysKept(db, db2, now, st.sp, member, m);
    }
    hide Live;
    RecordsFollow(db, db2, now, st, others);
    RecordsAreLive(db, now, st);
    RecordsAreLive(db2, now, st);
    hide RecordsOf;
    assert forall m :: m in Live(db2, now, st.sp) ==> m == member || m in others;
    var a, b := RecordsOf(db2, now, st) - {member}, RecordsOf(db, now, st) - {member};
    assert a.Keys == others == b.Keys;
  }

  lemma PruneSettles(db: Db, now: int, st: Store)
    requires st.sp.WellNamed() && Sound(db, now, st)
    ensures SortedSetAllowed(db, now, st.sp.index)
    ensures var db1 := ZRemRangeByScore(db, now, st.sp.index, now);
            && Sound(db1, now, st) && RecordsOf(db1, now, st) == RecordsOf(db, now, st)
            && SortedSetAllowed(db1, now, st.sp.index)
            && ScoresOf(db1, now, st.sp.index) == Live(db1, now, st.sp)
            && SameExcept(db, db1, now, {st.sp.index})
  {
    PruneKeepsStep(db, now, st.sp);
    var db1 := ZRemRangeByScore(db, now, st.sp.index, now);
    LiveMembers(db1, now, st.sp);
    IndexIsNoKey(db, db1, now, st.sp);
    hide ZRemRangeByScore, InStep, Lookup, ScoresOf, Live, SortedSetAllowed, SameExcept;
    RecordsFollow(db, db1, now, st, Live(db, now, st.sp).Keys);
  }

  /** The key of a member is readable exactly while the member is live. */
  lemma KeyIsThere(db: Db, now: int, st: Store, member: string)
    requires Sound(db, now, st) && st.sp.isMember(member)
    ensures SortedSetAllowed(db, now, st.sp.index)
    ensures Lookup(db, now, st.sp.Key(member)).Some? <==> member in Live(db, now, st.sp)
    ensures member in Live(db, now, st.sp) <==> member in RecordsOf(db, now, st)
    ensures var key := st.sp.Key(member);
            member in RecordsOf(db, now, st) ==>
              var record := RecordsOf(db, now, st)[member];
              && Lookup(db, now, key) == Some(Entry(Str(record.value), At(record.expiresAt)))
              && record.tag == () && |record.value| <= st.maxBytes && now < record.expiresAt <= now + st.maxTtl
  {
    assert Matches(db, now, st.sp, member);
    if member in Live(db, now, st.sp) {
      assert HoldsRecord(db, now, st.sp.Key(member), st.maxBytes);
    }
  }

  lemma SetPxWrites(db: Db, now: int, key: string, value: seq<byte>, ttl: nat)
    requires 1 <= ttl
    ensures var db1 := SetPx(db, now, key, value, ttl);
            SameExcept(db, db1, now, {key}) && Lookup(db1, now, key) == Some(Entry(Str(value), At(now + ttl)))
  {
  }

  lemma PutKeepsStep(db: Db, now: int, sp: Space, value: seq<byte>, ttl: nat, member: string)
    requires sp.WellNamed() && InStep(db, now, sp) && sp.isMember(member) && 1 <= ttl
    ensures var key := sp.Key(member);
            var db1 := SetPx(db, now, key, value, ttl);
            && SortedSetAllowed(db1, now, sp.index)
            && var db2 := Touch(db1, now, sp.index, now + ttl, member, ttl);
            && InStep(db2, now, sp) && Live(db2, now, sp) == Live(db, now, sp)[member := now + ttl]
            && Lookup(db2, now, key) == Some(Entry(Str(value), At(now + ttl)))
            && SameExcept(db, db2, now, {sp.index, key})
  {
    hide InStep, Touch, Live, SetPx, Lookup;
    var db1 := SetPx(db, now, sp.Key(member), value, ttl);
    SetPxWrites(db, now, sp.Key(member), value, ttl);
    RecordKeepsStep(db, db1, now, sp, now + ttl, member, ttl);
  }

  /** `SET` and the tail of the insert script add exactly one record. */
  lemma PutAddsRecord(db: Db, now: int, st: Store, value: seq<byte>, ttl: nat, member: string)
    requires st.sp.WellNamed() && Sound(db, now, st) && st.sp.isMember(member)
    requires 1 <= ttl <= st.maxTtl && |value| <= st.maxBytes
    ensures var db1 := SetPx(db, now, st.sp.Key(member), value, ttl);
            && SortedSetAllowed(db1, now, st.sp.index)
            && var db2 := Touch(db1, now, st.sp.index, now + ttl, member, ttl);
            && Sound(db2, now, st)
            && RecordsOf(db2, now, st) == RecordsOf(db, now, st)[member := Record((), value, now + ttl)]
            && SameExcept(db, db2, now, {st.sp.index, st.sp.Key(member)})
  {
    hide *;
    SoundIsInStep(db, now, st);
    PutKeepsStep(db, now, st.sp, value, ttl, member);
    var db2 := Touch(SetPx(db, now, st.sp.Key(member), value, ttl), now, st.sp.index, now + ttl, member, ttl);
    RecordRead(db2, now, st, value, member);
    Put(Live(db, now, st.sp), Live(db2, now, st.sp), member, now + ttl);
    Settle(db, db2, now, st, member);
    OneMore(RecordsOf(db, now, st), RecordsOf(db2, now, st), member, Record((), value, now + ttl));
  }

  lemma Put<K, V>(a: map<K, V>, b: map<K, V>, k: K, v: V)
    requires b == a[k := v]
    ensures k in b && b[k] == v && b - {k} == a - {k}
  {
  }

  lemma RecordRead(db: Db, now: int, st: Store, value: seq<byte>, member: string)
    requires Lookup(db, now, st.sp.Key(member)).Some? && member in Live(db, now, st.sp)
    requires Lookup(db, now, st.sp.Key(member)).value.value == Str(value) && |value| <= st.maxBytes
    ensures HoldsRecord(db, now, st.sp.Key(member), st.maxBytes)
    ensures member in RecordsOf(db, now, st)
    ensures RecordsOf(db, now, st)[member] == Record((), value, Live(db, now, st.sp)[member])
  {
    hide Lookup, Live;
  }

  lemma OneMore<K, V>(a: map<K, V>, b: map<K, V>, k: K, v: V)
    requires b - {k} == a - {k} && k in b && b[k] == v
    ensures b == a[k := v]
  {
    forall x | x in b && x != k ensures x in a && a[x] == b[x] {
      assert x in b - {k} && (b - {k})[x] == b[x];
    }
    forall x | x in a && x != k ensures x in b {
      assert x in a - {k};
    }
  }

  function InsertReply(status: InsertStatus, member: string): Reply<string, seq<byte>> {
    match status
    case Stored => Inserted(member)
    case Full => CapacityReached
    case Occupied => HandleCollision
    case _ => Idle
  }

  /** One insert script does what the shared specification says, and changes no key but its own two. */
  lemma InsertRefines(db: Db, now: int, st: Store, value: seq<byte>, ttl: nat, member: string)
    requires st.sp.WellNamed() && Sound(db, now, st) && st.sp.isMember(member)
    requires 1 <= ttl <= st.maxTtl && |value| <= st.maxBytes
    ensures var s, o := InsertScript(db, now, st, value, ttl, member),
                        Step(st.capacity, RecordsOf(db, now, st), Insert(now, [member], (), value, ttl));
            && Sound(s.0, now, st) && RecordsOf(s.0, now, st) == o.pending
            && InsertReply(s.1, member) == o.reply
            && SameExcept(db, s.0, now, {st.sp.index, st.sp.Key(member)})
  {
    hide Sound, RecordsOf, Live, Lookup, ScoresOf, Touch, SetPx, SortedSetAllowed, ZRemRangeByScore, SameExcept, InStep;
    PruneSettles(db, now, st);
    var db1 := ZRemRangeByScore(db, now, st.sp.index, now);
    KeyIsThere(db1, now, st, member);
    RecordsAreLive(db, now, st);
    RecordsAreLive(db1, now, st);
    PutAddsRecord(db1, now, st, value, ttl, member);
    hide Purge;
    SameSize(RecordsOf(db1, now, st), Live(db1, now, st.sp));
    assert FirstVacant(RecordsOf(db1, now, st), [member])
        == if member in RecordsOf(db1, now, st) then None else Some(member);
    Untouched(db1, now, {st.sp.index, st.sp.Key(member)});
    ChangesAddUp(db, db1, InsertScript(db, now, st, value, ttl, member).0, now, st.sp.index, st.sp.Key(member));
  }

  lemma Untouched(db: Db, now: int, changed: set<string>)
    ensures SameExcept(db, db, now, changed)
  {
  }

  lemma DropUnfolds(db: Db, now: int, sp: Space, member: string)
    requires SortedSetAllowed(Del(db, sp.Key(member)), now, sp.index)
    ensures Drop(db, now, sp, member) == ZRem(Del(db, sp.Key(member)), now, sp.index, member)
  {
  }

  lemma SoundIsInStep(db: Db, now: int, st: Store)
    requires Sound(db, now, st)
    ensures InStep(db, now, st.sp)
  {
  }

  lemma Removed<K, V>(a: map<K, V>, b: map<K, V>, k: K)
    requires b == a - {k}
    ensures k !in b && b - {k} == a - {k}
  {
  }

  lemma NotThere<K, V>(a: map<K, V>, k: K)
    requires k !in a.Keys
    ensures a - {k} == a
  {
  }

  /** Deleting the key and its member takes exactly one record out. */
  lemma DropTakesRecord(db: Db, now: int, st: Store, member: string)
    requires st.sp.WellNamed() && Sound(db, now, st) && st.sp.isMember(member)
    ensures SortedSetAllowed(Del(db, st.sp.Key(member)), now, st.sp.index)
    ensures var db2 := Drop(db, now, st.sp, member);
            && Sound(db2, now, st) && RecordsOf(db2, now, st) == RecordsOf(db, now, st) - {member}
            && SameExcept(db, db2, now, {st.sp.index, st.sp.Key(member)})
  {
    hide *;
    SoundIsInStep(db, now, st);
    DropKeepsStep(db, now, st.sp, member);
    DropUnfolds(db, now, st.sp, member);
    var db2 := Drop(db, now, st.sp, member);
    Removed(Live(db, now, st.sp), Live(db2, now, st.sp), member);
    Settle(db, db2, now, st, member);
    RecordsAreLive(db2, now, st);
    NotThere(RecordsOf(db2, now, st), member);
  }

  lemma StaleMemberDropped(db: Db, now: int, st: Store, member: string)
    requires st.sp.WellNamed() && Sound(db, now, st) && member !in Live(db, now, st.sp)
    ensures SortedSetAllowed(db, now, st.sp.index)
    ensures var db2 := ZRem(db, now, st.sp.index, member);
            && Sound(db2, now, st) && RecordsOf(db2, now, st) == RecordsOf(db, now, st)
            && SameExcept(db, db2, now, {st.sp.index})
  {
    RemoveDeadKeepsStep(db, now, st.sp, member);
    var db2 := ZRem(db, now, st.sp.index, member);
    IndexIsNoKey(db, db2, now, st.sp);
    hide ZRem, InStep, Lookup, ScoresOf, Live, SortedSetAllowed, SameExcept;
    RecordsFollow(db, db2, now, st, Live(db, now, st.sp).Keys);
  }

  function ConsumeReply(status: ConsumeStatus): Reply<string, seq<byte>> {
    match status
    case Found(value) => Taken(value)
    case Absent => Missing
    case Broken => Idle
  }

  /** One consume script, in either form, does what the shared specification says; no cleanup branch is taken. */
  lemma ConsumeRefines(db: Db, now: int, st: Store, member: string)
    requires st.sp.WellNamed() && Sound(db, now, st) && st.sp.isMember(member)
    ensures var s, o := ConsumeScript(db, now, st, member),
                        Step(st.capacity, RecordsOf(db, now, st), Take(now, member, ()));
            && Sound(s.0, now, st) && RecordsOf(s.0, now, st) == o.pending
            && ConsumeReply(s.1) == o.reply
            && SameExcept(db, s.0, now, {st.sp.index, st.sp.Key(member)})
  {
    hide Sound, RecordsOf, Live, ScoresOf, ZRemRangeByScore, SameExcept, InStep, Drop, ZRem;
    PruneSettles(db, now, st);
    var db1 := ZRemRangeByScore(db, now, st.sp.index, now);
    KeyIsThere(db1, now, st, member);
    if member in RecordsOf(db1, now, st) {
      DropTakesRecord(db1, now, st, member);
    } else {
      StaleMemberDropped(db1, now, st, member);
      Widen(db1, ZRem(db1, now, st.sp.index, member), now, st.sp.index, st.sp.Key(member));
    }
    ChangesAddUp(db, db1, ConsumeScript(db, now, st, member).0, now, st.sp.index, st.sp.Key(member));
  }

  lemma Widen(db: Db, db2: Db, now: int, index: string, key: string)
    requires SameExcept(db, db2, now, {index})
    ensures SameExcept(db, db2, now, {index, key})
  {
  }

  /** A TTL that rounds down to zero milliseconds never stores anything, on any keyspace. */
  lemma ZeroTtlStoresNothing(db: Db, now: int, st: Store, value: seq<byte>, member: string)
    requires st.sp.WellNamed() && st.sp.isMember(member)
    ensures var s := InsertScript(db, now, st, value, 0, member);
            && s.1 != Stored && SameExcept(db, s.0, now, {st.sp.index})
            && (Sound(db, now, st) ==>
                  && Sound(s.0, now, st) && RecordsOf(s.0, now, st) == RecordsOf(db, now, st)
                  && s.1 == if |RecordsOf(db, now, st)| < st.capacity then Aborted else Full)
  {
    if Sound(db, now, st) {
      PruneSettles(db, now, st);
      var db1 := ZRemRangeByScore(db, now, st.sp.index, now);
      RecordsAreLive(db1, now, st);
      SameSize(RecordsOf(db1, now, st), Live(db1, now, st.sp));
      hide ZRemRangeByScore, Sound, RecordsOf, Live, ScoresOf;
    }
  }

  // ---------------------------------------------------------------------
  // Whole runs

  type StoreOp = Op<string, (), seq<byte>>

  /** What the adapters send: one handle per script run, a bounded TTL in whole milliseconds, a bounded value. */
  predicate ValidOp(st: Store, op: StoreOp) {
    match op
    case Insert(_, handles, _, value, ttl) =>
      |handles| == 1 && st.sp.isMember(handles[0]) && ttl <= st.maxTtl && |value| <= st.maxBytes
    case Take(_, member, _) => st.sp.isMember(member)
    case Skip(_) => true
  }

  ghost predicate ValidOps(st: Store, ops: seq<StoreOp>) {
    && (forall i :: 0 <= i < |ops| ==> ValidOp(st, ops[i]))
    && (forall i, j :: 0 <= i < j < |ops| ==> ops[i].at <= ops[j].at)
  }

  function ScriptStep(st: Store, db: Db, op: StoreOp): (Db, Reply<string, seq<byte>>)
    requires ValidOp(st, op)
    requires op.Insert? ==> st.sp.Key(op.handles[0]) != st.sp.index
    requires op.Take? ==> st.sp.Key(op.handle) != st.sp.index
  {
    match op
    case Insert(now, handles, _, value, ttl) =>
      var s := InsertScript(db, now, st, value, ttl, handles[0]);
      (s.0, InsertReply(s.1, handles[0]))
    case Take(now, member, _) =>
      var s := ConsumeScript(db, now, st, member);
      (s.0, ConsumeReply(s.1))
    case Skip(_) => (db, Idle)
  }

  /** The keyspace after the first `n` scripts of any number of clients, starting from nothing. */
  ghost function DbAt(st: Store, ops: seq<StoreOp>, n: nat): Db
    requires st.sp.WellNamed() && ValidOps(st, ops) && n <= |ops|
  {
    if n == 0 then map[] else ScriptStep(st, DbAt(st, ops, n - 1), ops[n - 1]).0
  }

  ghost function ScriptReplyAt(st: Store, ops: seq<StoreOp>, n: nat): Reply<string, seq<byte>>
    requires st.sp.WellNamed() && ValidOps(st, ops) && n < |ops|
  {
    ScriptStep(st, DbAt(st, ops, n), ops[n]).1
  }

  /** An insert whose TTL is 0 ms: its `SET` is refused, so it can store nothing. */
  predicate IsZeroInsert(op: StoreOp) {
    op.Insert? && op.ttl == 0
  }

  /** What an operation asks of the shared specification: a zero-TTL insert asks nothing. */
  function Effective(op: StoreOp): (e: StoreOp)
    ensures e.at == op.at
  {
    if IsZeroInsert(op) then Skip(op.at) else op
  }

  function EffectiveOps(ops: seq<StoreOp>): (es: seq<StoreOp>)
    ensures |es| == |ops| && forall i :: 0 <= i < |ops| ==> es[i] == Effective(ops[i])
  {
    seq(|ops|, i requires 0 <= i < |ops| => Effective(ops[i]))
  }

  /** The reply to `op` when the specification replies `reply` and holds `live` unexpired records. */
  function ReplyWith(capacity: nat, live: Records, op: StoreOp, reply: Reply<string, seq<byte>>)
    : Reply<string, seq<byte>>
  {
    if IsZeroInsert(op) && |live| >= capacity then CapacityReached else reply
  }

  lemma ScriptStepRefines(st: Store, db: Db, op: StoreOp)
    requires st.sp.WellNamed() && ValidOp(st, op) && Sound(db, op.at, st)
    ensures var s := ScriptStep(st, db, op);
            var o := Step(st.capacity, RecordsOf(db, op.at, st), Effective(op));
            && Sound(s.0, op.at, st) && RecordsOf(s.0, op.at, st) == o.pending
            && s.1 == ReplyWith(st.capacity, RecordsOf(db, op.at, st), op, o.reply)
  {
    hide Sound, RecordsOf, InsertScript, ConsumeScript, Step;
    match op {
      case Insert(now, handles, tag, value, ttl) =>
        if ttl == 0 {
          ZeroTtlStoresNothing(db, now, st, value, handles[0]);
          SkipDoesNothing(st.capacity, RecordsOf(db, op.at, st), Effective(op));
        } else {
          InsertRefines(db, now, st, value, ttl, handles[0]);
          assert handles == [handles[0]] && tag == ();
        }
      case Take(now, member, tag) =>
        ConsumeRefines(db, now, st, member);
        assert tag == ();
      case Skip(_) =>
        SkipDoesNothing(st.capacity, RecordsOf(db, op.at, st), op);
    }
  }

  lemma SkipDoesNothing(capacity: nat, pending: Records, op: StoreOp)
    requires op.Skip?
    ensures Step(capacity, pending, op) == OneTime.Outcome(pending, Idle)
  {
  }

  lemma TickKeepsSound(db: Db, now: int, later: int, st: Store)
    requires Sound(db, now, st) && now <= later
    ensures Sound(db, later, st)
    ensures RecordsOf(db, later, st) == Purge(RecordsOf(db, now, st), later)
  {
    TickKeepsStep(db, now, later, st.sp);
    forall m | m in Live(db, later, st.sp)
      ensures HoldsRecord(db, later, st.sp.Key(m), st.maxBytes) && Live(db, later, st.sp)[m] <= later + st.maxTtl
      ensures DataAt(db, later, st.sp.Key(m)) == DataAt(db, now, st.sp.Key(m))
    {
      TickKeepsRecord(db, now, later, st, m);
    }
    hide InStep, Lookup, Live;
  }

  lemma TickKeepsRecord(db: Db, now: int, later: int, st: Store, m: string)
    requires Sound(db, now, st) && now <= later && InStep(db, later, st.sp)
    requires m in AboveScore(Live(db, now, st.sp), later) && m in Live(db, later, st.sp)
    ensures HoldsRecord(db, later, st.sp.Key(m), st.maxBytes)
    ensures Live(db, later, st.sp)[m] == Live(db, now, st.sp)[m] <= now + st.maxTtl
    ensures DataAt(db, later, st.sp.Key(m)) == DataAt(db, now, st.sp.Key(m))
  {
    LiveMembers(db, now, st.sp);
    assert st.sp.isMember(m) && Matches(db, now, st.sp, m) && Matches(db, later, st.sp, m);
    assert HoldsRecord(db, now, st.sp.Key(m), st.maxBytes);
  }

  /** An operation on the purged records answers as on the unpurged ones. */
  lemma StepIgnoresExpired(capacity: nat, pending: Records, op: StoreOp)
    ensures var a, b := Step(capacity, Purge(pending, op.at), op), Step(capacity, pending, op);
            a.reply == b.reply && Purge(a.pending, op.at) == Purge(b.pending, op.at)
  {
    assert Purge(Purge(pending, op.at), op.at) == Purge(pending, op.at);
  }

  lemma PurgeTwice(pending: Records, now: int, later: int)
    requires now <= later
    ensures Purge(Purge(pending, now), later) == Purge(pending, later)
  {
  }

  /** The reply to operation `n` that the shared specification asks for. */
  function SpecifiedReplyAt(st: Store, ops: seq<StoreOp>, n: nat): Reply<string, seq<byte>>
    requires n < |ops|
  {
    var es := EffectiveOps(ops);
    ReplyWith(st.capacity, Purge(StateAt(st.capacity, es, n), ops[n].at), ops[n], ReplyAt(st.capacity, es, n))
  }

  /** At every moment of every run the keyspace is sound and stands for the records of the specification. */
  lemma {:induction false} RunRefines(st: Store, ops: seq<StoreOp>, n: nat, now: int)
    requires st.sp.WellNamed() && ValidOps(st, ops) && n <= |ops|
    requires forall i :: 0 <= i < n ==> ops[i].at <= now
    ensures Sound(DbAt(st, ops, n), now, st)
    ensures RecordsOf(DbAt(st, ops, n), now, st) == Purge(StateAt(st.capacity, EffectiveOps(ops), n), now)
  {
    hide ScriptStep, Step, Sound, RecordsOf, Purge, Effective;
    if n == 0 {
      EmptyIsSound(st, now);
    } else {
      var op, es, db := ops[n - 1], EffectiveOps(ops), DbAt(st, ops, n - 1);
      RunRefines(st, ops, n - 1, op.at);
      ScriptStepRefines(st, db, op);
      StepIgnoresExpired(st.capacity, StateAt(st.capacity, es, n - 1), es[n - 1]);
      var db2, pending := DbAt(st, ops, n), StateAt(st.capacity, es, n);
      RecordsAreLive(db2, op.at, st);
      assert RecordsOf(db2, op.at, st) == Purge(pending, op.at);
      TickKeepsSound(db2, op.at, now, st);
      PurgeTwice(pending, op.at, now);
    }
  }

  lemma EmptyIsSound(st: Store, now: int)
    ensures Sound(map[], now, st) && RecordsOf(map[], now, st) == Purge(map[], now)
  {
  }

  /**
   The scripts reply to every run as the shared specification does, where a
   zero-TTL insert is an operation that stores nothing; on a full store it is
   refused like any other insert.
   */
  lemma ScriptsRefineOneTime(st: Store, ops: seq<StoreOp>, n: nat)
    requires st.sp.WellNamed() && ValidOps(st, ops) && n < |ops|
    ensures ScriptReplyAt(st, ops, n) == SpecifiedReplyAt(st, ops, n)
  {
    hide ScriptStep, Step, Sound, RecordsOf, Purge, Effective;
    var es := EffectiveOps(ops);
    RunRefines(st, ops, n, ops[n].at);
    ScriptStepRefines(st, DbAt(st, ops, n), ops[n]);
    StepIgnoresExpired(st.capacity, StateAt(st.capacity, es, n), es[n]);
  }

  /** An insert is answered `Inserted` and a take `Taken` only by the specification itself. */
  lemma SpecifiedReplies(st: Store, ops: seq<StoreOp>, n: nat)
    requires n < |ops|
    ensures var reply := SpecifiedReplyAt(st, ops, n);
            reply.Inserted? || reply.Taken? ==> reply == ReplyAt(st.capacity, EffectiveOps(ops), n)
    ensures ops[n].Take? || (ops[n].Insert? && ops[n].ttl > 0) ==>
              SpecifiedReplyAt(st, ops, n) == ReplyAt(st.capacity, EffectiveOps(ops), n)
  {
    hide ReplyAt;
  }

  /**
   Whatever the interleaving of clients: a record handed out was inserted
   under the same key, is returned unchanged and before its expiry, and is
   handed out only once.
   */
  lemma RecordsAreOneTime(st: Store, ops: seq<StoreOp>, j: nat)
    requires st.sp.WellNamed() && ValidOps(st, ops) && j < |ops| && ScriptReplyAt(st, ops, j).Taken?
    ensures ops[j].Take? && EffectiveOps(ops)[j].Take?
    ensures var i := Origin(st.capacity, EffectiveOps(ops), j);
            && i < j && ops[i].Insert? && ops[i].handles == [ops[j].handle]
            && ScriptReplyAt(st, ops, i) == Inserted(ops[j].handle)
            && ScriptReplyAt(st, ops, j) == Taken(ops[i].value)
            && ops[j].at < ops[i].at + ops[i].ttl
    ensures forall k :: 0 <= k < |ops| && k != j && ScriptReplyAt(st, ops, k).Taken? && ops[k].Take? ==>
                          Origin(st.capacity, EffectiveOps(ops), k) != Origin(st.capacity, EffectiveOps(ops), j)
  {
    hide DbAt, ScriptReplyAt, SpecifiedReplyAt, StateAt;
    var es := EffectiveOps(ops);
    ScriptsRefineOneTime(st, ops, j);
    SpecifiedReplies(st, ops, j);
    TakenMeansTake(st.capacity, es, j);
    OneTime.TakeIsFaithful(st.capacity, es, j);
    var i := Origin(st.capacity, es, j);
    ScriptsRefineOneTime(st, ops, i);
    SpecifiedReplies(st, ops, i);
    forall k | 0 <= k < |ops| && k != j && ScriptReplyAt(st, ops, k).Taken? && ops[k].Take?
      ensures Origin(st.capacity, es, k) != Origin(st.capacity, es, j)
    {
      ScriptsRefineOneTime(st, ops, k);
      SpecifiedReplies(st, ops, k);
      if j < k {
        OneTime.TakenAtMostOnce(st.capacity, es, j, k);
      } else {
        OneTime.TakenAtMostOnce(st.capacity, es, k, j);
      }
    }
  }

  /** Insert script `i` stored a record under `member` that is unexpired at `now` and that no script before `j` took. */
  ghost predicate ScriptOutstanding(st: Store, ops: seq<StoreOp>, i: nat, j: nat, member: string, now: int)
    requires st.sp.WellNamed() && ValidOps(st, ops) && j <= |ops|
  {
    && i < j && ops[i].Insert? && ScriptReplyAt(st, ops, i) == Inserted(member) && now < ops[i].at + ops[i].ttl
    && forall k :: i < k < j ==>
                     !(ops[k].Take? && ops[k].handle == member && ScriptReplyAt(st, ops, k).Taken?)
  }

  lemma InsertedAlike(st: Store, ops: seq<StoreOp>, i: nat, member: string)
    requires st.sp.WellNamed() && ValidOps(st, ops) && i < |ops|
    ensures ScriptReplyAt(st, ops, i) == Inserted(member)
            <==> ReplyAt(st.capacity, EffectiveOps(ops), i) == Inserted(member)
    ensures ScriptReplyAt(st, ops, i).Taken? <==> ReplyAt(st.capacity, EffectiveOps(ops), i).Taken?
  {
    hide ReplyAt, ScriptReplyAt, StateAt;
    ScriptsRefineOneTime(st, ops, i);
    ZeroInsertIsIdle(st.capacity, EffectiveOps(ops), i);
  }

  lemma ZeroInsertIsIdle(capacity: nat, ops: seq<StoreOp>, i: nat)
    requires i < |ops|
    ensures ops[i].Skip? ==> ReplyAt(capacity, ops, i) == Idle
  {
  }

  lemma OutstandingAlike(st: Store, ops: seq<StoreOp>, i: nat, j: nat, member: string, now: int)
    requires st.sp.WellNamed() && ValidOps(st, ops) && j <= |ops| && (forall k :: 0 <= k < j ==> ops[k].at <= now)
    ensures ScriptOutstanding(st, ops, i, j, member, now)
            <==> OneTime.Outstanding(st.capacity, EffectiveOps(ops), i, j, member, now)
  {
    hide ReplyAt, ScriptReplyAt, ValidOps;
    var es := EffectiveOps(ops);
    forall k: nat | k < j ensures ScriptReplyAt(st, ops, k).Taken? <==> ReplyAt(st.capacity, es, k).Taken? {
      InsertedAlike(st, ops, k, member);
    }
    if i < j {
      InsertedAlike(st, ops, i, member);
    }
    if ScriptOutstanding(st, ops, i, j, member, now) {
      assert es[i] == ops[i];
      forall k | i < k < j ensures !OneTime.TakesAt(st.capacity, es, k, member) {
        assert es[k] == Effective(ops[k]);
      }
    }
    if OneTime.Outstanding(st.capacity, es, i, j, member, now) {
      assert es[i] == ops[i];
      forall k | i < k < j ensures !(ops[k].Take? && ops[k].handle == member && ScriptReplyAt(st, ops, k).Taken?) {
        assert es[k] == Effective(ops[k]) && !OneTime.TakesAt(st.capacity, es, k, member);
      }
    }
  }

  /**
   Whatever the interleaving: a take gets the record of the one insert of its
   key that is outstanding, and nothing if there is none.
   */
  lemma TakeScriptExactly(st: Store, ops: seq<StoreOp>, j: nat)
    requires st.sp.WellNamed() && ValidOps(st, ops) && j < |ops| && ops[j].Take?
    ensures forall i: nat :: ScriptOutstanding(st, ops, i, j, ops[j].handle, ops[j].at) ==>
                               ScriptReplyAt(st, ops, j) == Taken(ops[i].value)
    ensures (forall i: nat :: !ScriptOutstanding(st, ops, i, j, ops[j].handle, ops[j].at)) ==>
              ScriptReplyAt(st, ops, j) == Missing
  {
    hide ScriptReplyAt, StateAt, ReplyAt, OneTime.Outstanding, ScriptOutstanding;
    var es := EffectiveOps(ops);
    assert es[j] == ops[j];
    ScriptsRefineOneTime(st, ops, j);
    SpecifiedReplies(st, ops, j);
    OneTime.TakeExactly(st.capacity, es, j);
    forall i: nat
      ensures ScriptOutstanding(st, ops, i, j, ops[j].handle, ops[j].at)
              <==> OneTime.Outstanding(st.capacity, es, i, j, ops[j].handle, ops[j].at)
      ensures ScriptOutstanding(st, ops, i, j, ops[j].handle, ops[j].at) ==>
                i < j && es[i] == ops[i] && es[i].Insert? && es[i].tag == ops[j].tag
    {
      OutstandingAlike(st, ops, i, j, ops[j].handle, ops[j].at);
      OutstandingSent(st, ops, i, j, ops[j].handle, ops[j].at);
      if ScriptOutstanding(st, ops, i, j, ops[j].handle, ops[j].at) {
        assert ops[i].tag == () && ops[j].tag == ();
      }
    }
  }

  lemma OutstandingSent(st: Store, ops: seq<StoreOp>, i: nat, j: nat, member: string, now: int)
    requires st.sp.WellNamed() && ValidOps(st, ops) && j <= |ops| && (forall k :: 0 <= k < j ==> ops[k].at <= now)
    ensures ScriptOutstanding(st, ops, i, j, member, now) ==>
              i < j && ops[i].Insert? && EffectiveOps(ops)[i] == ops[i]
  {
    hide ScriptReplyAt;
  }

  /** While a record is outstanding, nobody has even asked for it: the first to ask gets it. */
  lemma OutstandingIsUntried(st: Store, ops: seq<StoreOp>, i: nat, j: nat, member: string, now: int, k: nat)
    requires st.sp.WellNamed() && ValidOps(st, ops) && j <= |ops| && (forall m :: 0 <= m < j ==> ops[m].at <= now)
    requires ScriptOutstanding(st, ops, i, j, member, now) && i < k < j
    ensures !(ops[k].Take? && ops[k].handle == member)
  {
    hide ScriptReplyAt;
    if ops[k].Take? && ops[k].handle == member {
      assert ScriptOutstanding(st, ops, i, k, member, ops[k].at);
      TakeScriptExactly(st, ops, k);
    }
  }

  lemma TakenMeansTake(capacity: nat, ops: seq<StoreOp>, j: nat)
    requires j < |ops| && ReplyAt(capacity, ops, j).Taken?
    ensures ops[j].Take?
  {
  }

  /** At most `capacity` keys are live at any moment, and they are exactly the index members ahead of the clock. */
  lemma LiveKeysAreBounded(st: Store, ops: seq<StoreOp>, n: nat, now: int)
    requires st.sp.WellNamed() && ValidOps(st, ops) && n <= |ops|
    requires forall i :: 0 <= i < n ==> ops[i].at <= now
    ensures InStep(DbAt(st, ops, n), now, st.sp)
    ensures |Live(DbAt(st, ops, n), now, st.sp)| <= st.capacity
  {
    var es := EffectiveOps(ops);
    RunRefines(st, ops, n, now);
    OneTime.StaysBounded(st.capacity, es, n);
    PurgeShrinks(StateAt(st.capacity, es, n), now);
    RecordsAreLive(DbAt(st, ops, n), now, st);
    SameSize(RecordsOf(DbAt(st, ops, n), now, st), Live(DbAt(st, ops, n), now, st.sp));
  }
}
