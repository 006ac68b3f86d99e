/**
 The bookkeeping that the limiter and both one-time stores share: expiring keys
 counted by one sorted set whose members carry the expiry of their key as
 score, and which has a TTL of its own.
 */
module RedisIndex {
  import opened Common
  import opened Redis

  /** The keys of one adapter: member `m` of `index` stands for the key `prefix + m`. */
  datatype Space = Space(prefix: string, index: string, isMember: string -> bool) {

    function Key(m: string): string {
      prefix + m
    }

    /** No member names the index itself. */
    ghost predicate WellNamed() {
      forall m :: isMember(m) ==> Key(m) != index
    }
  }

  lemma KeyInjective(sp: Space, m: string, n: string)
    requires sp.Key(m) == sp.Key(n)
    ensures m == n
  {
    assert sp.Key(m)[|sp.prefix|..] == m && sp.Key(n)[|sp.prefix|..] == n;
  }

  /** The index members whose score is still ahead of the clock. */
  function Live(db: Db, now: int, sp: Space): Scores {
    AboveScore(ScoresOf(db, now, sp.index), now)
  }

  ghost predicate IndexBounded(db: Db, now: int, sp: Space) {
    match Lookup(db, now, sp.index)
    case None => true
    case Some(e) =>
      && e.value.ZSet? && e.expiry.At?
      && forall m :: m in e.value.scores ==> sp.isMember(m) && e.value.scores[m] <= e.expiry.ms
  }

  ghost predicate Matches(db: Db, now: int, sp: Space, m: string) {
    var e := Lookup(db, now, sp.Key(m));
    && (e.Some? <==> m in Live(db, now, sp))
    && (e.Some? ==> e.value.expiry == At(Live(db, now, sp)[m]))
  }

  /**
   Live keys are exactly the index members with a score above `now`, each score
   is the expiry of its key, and the index outlives every score.
   */
  ghost predicate InStep(db: Db, now: int, sp: Space) {
    && IndexBounded(db, now, sp)
    && forall m :: sp.isMember(m) ==> Matches(db, now, sp, m)
  }

  /** `db2` reads like `db1` on every key outside `changed`. */
  ghost predicate SameExcept(db1: Db, db2: Db, now: int, changed: set<string>) {
    forall k :: k !in changed ==> Lookup(db2, now, k) == Lookup(db1, now, k)
  }

  lemma LiveMembers(db: Db, now: int, sp: Space)
    requires InStep(db, now, sp)
    ensures SortedSetAllowed(db, now, sp.index)
    ensures forall m :: m in Live(db, now, sp) ==> sp.isMember(m)
  {
  }

  /** Waiting keeps the index in step and only closes windows. */
  lemma TickKeepsStep(db: Db, now: int, later: int, sp: Space)
    requires InStep(db, now, sp) && now <= later
    ensures InStep(db, later, sp)
    ensures Live(db, later, sp) == AboveScore(Live(db, now, sp), later)
  {
    forall m | sp.isMember(m) ensures Matches(db, later, sp, m) {
      assert Matches(db, now, sp, m);
    }
  }

  /** `ZREMRANGEBYSCORE index -inf now` leaves exactly the live members. */
  lemma PruneKeepsStep(db: Db, now: int, sp: Space)
    requires sp.WellNamed() && InStep(db, now, sp)
    ensures SortedSetAllowed(db, now, sp.index)
    ensures var db2 := ZRemRangeByScore(db, now, sp.index, now);
            && InStep(db2, now, sp)
            && Live(db2, now, sp) == ScoresOf(db2, now, sp.index) == Live(db, now, sp)
            && SameExcept(db, db2, now, {sp.index})
  {
    var db2 := ZRemRangeByScore(db, now, sp.index, now);
    assert ScoresOf(db2, now, sp.index) == Live(db, now, sp);
    assert Live(db2, now, sp) == Live(db, now, sp);
    forall m | sp.isMember(m) ensures Matches(db2, now, sp, m) {
      assert Matches(db, now, sp, m);
    }
  }

  /** `ZREM index member` of a member that is not live changes nothing that can be read through the index. */
  lemma RemoveDeadKeepsStep(db: Db, now: int, sp: Space, member: string)
    requires sp.WellNamed() && InStep(db, now, sp) && member !in Live(db, now, sp)
    ensures SortedSetAllowed(db, now, sp.index)
    ensures var db2 := ZRem(db, now, sp.index, member);
            && InStep(db2, now, sp)
            && Live(db2, now, sp) == Live(db, now, sp)
            && SameExcept(db, db2, now, {sp.index})
  {
    var db2 := ZRem(db, now, sp.index, member);
    assert ScoresOf(db2, now, sp.index) == ScoresOf(db, now, sp.index) - {member};
    assert Live(db2, now, sp) == Live(db, now, sp);
    forall m | sp.isMember(m) ensures Matches(db2, now, sp, m) {
      assert Matches(db, now, sp, m);
    }
  }

  /** A member other than the one an operation is about matches as before. */
  lemma StillMatches(db: Db, db2: Db, now: int, sp: Space, member: string, m: string)
    requires sp.WellNamed() && InStep(db, now, sp) && sp.isMember(m) && m != member
    requires SameExcept(db, db2, now, {sp.index, sp.Key(member)})
    requires Live(db2, now, sp) - {member} == Live(db, now, sp) - {member}
    ensures Matches(db2, now, sp, m)
  {
    assert Matches(db, now, sp, m);
    if sp.Key(m) == sp.Key(member) {
      KeyInjective(sp, m, member);
    }
    assert sp.Key(m) !in {sp.index, sp.Key(member)};
    hide Lookup, Live;
    var a, b := Live(db, now, sp), Live(db2, now, sp);
    assert m in a <==> m in a - {member};
    assert m in b <==> m in b - {member};
    assert m in a ==> (a - {member})[m] == a[m] && (b - {member})[m] == b[m];
  }

  lemma DropScores(db: Db, now: int, sp: Space, member: string)
    requires sp.WellNamed() && IndexBounded(db, now, sp) && sp.isMember(member)
    ensures SortedSetAllowed(Del(db, sp.Key(member)), now, sp.index)
    ensures var db2 := ZRem(Del(db, sp.Key(member)), now, sp.index, member);
            && IndexBounded(db2, now, sp)
            && ScoresOf(db2, now, sp.index) == ScoresOf(db, now, sp.index) - {member}
            && Lookup(db2, now, sp.Key(member)) == None
            && SameExcept(db, db2, now, {sp.index, sp.Key(member)})
  {
    assert Lookup(Del(db, sp.Key(member)), now, sp.index) == Lookup(db, now, sp.index);
  }

  lemma LiveWithout(db: Db, db2: Db, now: int, sp: Space, member: string)
    requires ScoresOf(db2, now, sp.index) == ScoresOf(db, now, sp.index) - {member}
    ensures Live(db2, now, sp) == Live(db, now, sp) - {member}
    ensures Live(db2, now, sp) - {member} == Live(db, now, sp) - {member}
  {
    hide ScoresOf;
  }

  /** `DEL key` and `ZREM index member` together take one member out. */
  lemma DropKeepsStep(db: Db, now: int, sp: Space, member: string)
    requires sp.WellNamed() && InStep(db, now, sp) && sp.isMember(member)
    ensures SortedSetAllowed(Del(db, sp.Key(member)), now, sp.index)
    ensures var db2 := ZRem(Del(db, sp.Key(member)), now, sp.index, member);
            && InStep(db2, now, sp)
            && Live(db2, now, sp) == Live(db, now, sp) - {member}
            && SameExcept(db, db2, now, {sp.index, sp.Key(member)})
  {
    var db1 := Del(db, sp.Key(member));
    DropScores(db, now, sp, member);
    var db2 := ZRem(db1, now, sp.index, member);
    LiveWithout(db, db2, now, sp, member);
    assert InStep(db, now, sp);
    hide Lookup, Live, ScoresOf, ZRem, IndexBounded, SortedSetAllowed;
    forall m | sp.isMember(m) ensures Matches(db2, now, sp, m) {
      if m != member {
        StillMatches(db, db2, now, sp, member, m);
      }
    }
  }

  /** The common tail of the scripts: `ZADD`, then stretch the TTL of the index to `span` if it is shorter. */
  function Touch(db: Db, now: int, index: string, score: int, member: string, span: int): Db
    requires SortedSetAllowed(db, now, index) && 1 <= span
  {
    var db1 := ZAdd(db, now, index, score, member);
    if Pttl(db1, now, index) < span then PExpire(db1, now, index, span) else db1
  }

  lemma TouchIndex(db: Db, now: int, sp: Space, score: int, member: string, span: int)
    requires SortedSetAllowed(db, now, sp.index) && 1 <= span
    requires sp.isMember(member) && now < score <= now + span && IndexBounded(db, now, sp)
    ensures var db2 := Touch(db, now, sp.index, score, member, span);
            && IndexBounded(db2, now, sp)
            && ScoresOf(db2, now, sp.index) == ScoresOf(db, now, sp.index)[member := score]
            && SameExcept(db, db2, now, {sp.index})
  {
  }

  /**
   Once the key of `member` is set to expire at `score`, the tail of the script
   brings the index back in step, however the TTL of the index compares.
   */
  lemma RecordKeepsStep(db: Db, db1: Db, now: int, sp: Space, score: int, member: string, span: int)
    requires sp.WellNamed() && InStep(db, now, sp) && sp.isMember(member)
    requires 1 <= span && now < score <= now + span
    requires SameExcept(db, db1, now, {sp.Key(member)})
    requires Lookup(db1, now, sp.Key(member)).Some?
    requires Lookup(db1, now, sp.Key(member)).value.expiry == At(score)
    ensures SortedSetAllowed(db1, now, sp.index)
    ensures var db2 := Touch(db1, now, sp.index, score, member, span);
            && InStep(db2, now, sp)
            && Live(db2, now, sp) == Live(db, now, sp)[member := score]
            && SameExcept(db1, db2, now, {sp.index})
  {
    assert Lookup(db1, now, sp.index) == Lookup(db, now, sp.index);
    TouchIndex(db1, now, sp, score, member, span);
    var db2 := Touch(db1, now, sp.index, score, member, span);
    LiveWith(db, db2, now, sp, member, score);
    assert Lookup(db2, now, sp.Key(member)) == Lookup(db1, now, sp.Key(member));
    hide Lookup, Live, ScoresOf, Touch, IndexBounded, SortedSetAllowed;
    forall m | sp.isMember(m) ensures Matches(db2, now, sp, m) {
      if m != member {
        StillMatches(db, db2, now, sp, member, m);
      }
    }
  }

  lemma LiveWith(db: Db, db2: Db, now: int, sp: Space, member: string, score: int)
    requires ScoresOf(db2, now, sp.index) == ScoresOf(db, now, sp.index)[member := score] && now < score
    ensures Live(db2, now, sp) == Live(db, now, sp)[member := score]
    ensures Live(db2, now, sp) - {member} == Live(db, now, sp) - {member}
  {
    hide ScoresOf;
  }

  /** Touching only the index and then the index and one key touches those two. */
  lemma ChangesAddUp(db: Db, db1: Db, db2: Db, now: int, index: string, key: string)
    requires SameExcept(db, db1, now, {index}) && SameExcept(db1, db2, now, {index, key})
    ensures SameExcept(db, db2, now, {index, key})
  {
  }

  lemma OtherKeysKept(db: Db, db2: Db, now: int, sp: Space, member: string, m: string)
    requires sp.WellNamed() && InStep(db, now, sp) && m in Live(db, now, sp) && m != member
    requires SameExcept(db, db2, now, {sp.index, sp.Key(member)})
    ensures Lookup(db2, now, sp.Key(m)) == Lookup(db, now, sp.Key(m))
  {
    LiveMembers(db, now, sp);
    assert sp.isMember(m);
    if sp.Key(m) == sp.Key(member) {
      KeyInjective(sp, m, member);
    }
  }

  lemma IndexIsNoKey(db: Db, db2: Db, now: int, sp: Space)
    requires sp.WellNamed() && InStep(db, now, sp) && SameExcept(db, db2, now, {sp.index})
    ensures forall m :: m in Live(db, now, sp) ==> Lookup(db2, now, sp.Key(m)) == Lookup(db, now, sp.Key(m))
  {
    LiveMembers(db, now, sp);
    forall m | m in Live(db, now, sp) ensures Lookup(db2, now, sp.Key(m)) == Lookup(db, now, sp.Key(m)) {
      assert sp.isMember(m);
    }
  }
}
