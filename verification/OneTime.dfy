/**
 One-use storage of pending records: the specification that the in-memory and
 Redis stores share, and what it guarantees over whole runs.
 */
module OneTime {
  import opened Common

  datatype Record<T, V> = Record(tag: T, value: V, expiresAt: int)

  type Pending<!K, T, V> = map<K, Record<T, V>>

  datatype Reply<K, V> =
    | Inserted(handle: K)
    | CapacityReached
    | HandleCollision
    | Taken(value: V)
    | Missing
    | WrongKind
    | Idle

  /** What one client asks the store to do when the clock reads `at`. `handles` are the random handles it draws. */
  datatype Op<K, T, V> =
    | Insert(at: int, handles: seq<K>, tag: T, value: V, ttl: nat)
    | Take(at: int, handle: K, tag: T)
    | Skip(at: int)

  function Purge<K, T, V>(pending: Pending<K, T, V>, now: int): Pending<K, T, V> {
    map k | k in pending && pending[k].expiresAt > now :: pending[k]
  }

  /** The first handle that is not in use. */
  function FirstVacant<K, T, V>(pending: Pending<K, T, V>, handles: seq<K>): (r: Option<K>)
    ensures r.Some? ==> r.value in handles && r.value !in pending
    ensures r.None? ==> forall h :: h in handles ==> h in pending
  {
    if handles == [] then None
    else if handles[0] !in pending then Some(handles[0])
    else FirstVacant(pending, handles[1..])
  }

  datatype Outcome<!K, T, V> = Outcome(pending: Pending<K, T, V>, reply: Reply<K, V>)

  function Step<K, T(==), V>(capacity: nat, pending: Pending<K, T, V>, op: Op<K, T, V>): Outcome<K, T, V> {
    match op
    case Skip(_) => Outcome(pending, Idle)
    case Insert(now, handles, tag, value, ttl) =>
      var kept := Purge(pending, now);
      if |kept| >= capacity then Outcome(kept, CapacityReached)
      else (match FirstVacant(kept, handles)
            case None => Outcome(kept, HandleCollision)
            case Some(h) => Outcome(kept[h := Record(tag, value, now + ttl)], Inserted(h)))
    case Take(now, h, tag) =>
      if h !in pending then Outcome(pending, Missing)
      else if pending[h].expiresAt <= now then Outcome(pending - {h}, Missing)
      else if pending[h].tag != tag then Outcome(pending, WrongKind)
      else Outcome(pending - {h}, Taken(pending[h].value))
  }

  // ---------------------------------------------------------------------
  // Runs

  /** The pending records after the first `n` operations, starting from nothing. */
  function StateAt<K(==), T(==), V>(capacity: nat, ops: seq<Op<K, T, V>>, n: nat): Pending<K, T, V>
    requires n <= |ops|
  {
    if n == 0 then map[] else Step(capacity, StateAt(capacity, ops, n - 1), ops[n - 1]).pending
  }

  function ReplyAt<K(==), T(==), V>(capacity: nat, ops: seq<Op<K, T, V>>, n: nat): Reply<K, V>
    requires n < |ops|
  {
    Step(capacity, StateAt(capacity, ops, n), ops[n]).reply
  }

  /** The index of the latest operation before `n` that was answered `Inserted(h)`. */
  function LastInsert<K(==), T(==), V(==)>(capacity: nat, ops: seq<Op<K, T, V>>, n: nat, h: K): (r: Option<nat>)
    requires n <= |ops|
    ensures r.Some? ==> r.value < n && ReplyAt(capacity, ops, r.value) == Inserted(h)
  {
    if n == 0 then None
    else if ReplyAt(capacity, ops, n - 1) == Inserted(h) then Some(n - 1)
    else LastInsert(capacity, ops, n - 1, h)
  }

  /** Operation `i` handed the record of handle `h` to its caller. */
  ghost predicate TakesAt<K, T, V>(capacity: nat, ops: seq<Op<K, T, V>>, i: nat, h: K)
    requires i < |ops|
  {
    ops[i].Take? && ops[i].handle == h && ReplyAt(capacity, ops, i).Taken?
  }

  /** The pending record of `h` is the one stored by its latest insert, and nobody has taken it since. */
  ghost predicate ComesFrom<K(!new), T, V>(capacity: nat, ops: seq<Op<K, T, V>>, n: nat, h: K)
    requires n <= |ops| && h in StateAt(capacity, ops, n)
  {
    var from := LastInsert(capacity, ops, n, h);
    && from.Some?
    && ops[from.value].Insert?
    && StateAt(capacity, ops, n)[h]
       == Record(ops[from.value].tag, ops[from.value].value, ops[from.value].at + ops[from.value].ttl)
    && Untaken(capacity, ops, from.value, n, h)
  }

  /** No operation after `from` and before `n` took the record of `h`. */
  ghost predicate Untaken<K(!new), T, V>(capacity: nat, ops: seq<Op<K, T, V>>, from: nat, n: nat, h: K)
    requires n <= |ops|
  {
    forall i :: from < i < n ==> !TakesAt(capacity, ops, i, h)
  }

  /** After one step every record is either the one just inserted or an old one that was not taken. */
  lemma StepOrigin<K, T, V>(capacity: nat, pending: Pending<K, T, V>, op: Op<K, T, V>, h: K)
    requires h in Step(capacity, pending, op).pending
    ensures var o := Step(capacity, pending, op);
            if o.reply == Inserted(h) then
              op.Insert? && o.pending[h] == Record(op.tag, op.value, op.at + op.ttl)
            else
              h in pending && o.pending[h] == pending[h] && !(op.Take? && op.handle == h && o.reply.Taken?)
  {
  }

  lemma StateOrigin<K, T, V>(capacity: nat, ops: seq<Op<K, T, V>>, n: nat, h: K)
    requires n < |ops| && h in StateAt(capacity, ops, n + 1)
    ensures if ReplyAt(capacity, ops, n) == Inserted(h) then
              ops[n].Insert?
              && StateAt(capacity, ops, n + 1)[h] == Record(ops[n].tag, ops[n].value, ops[n].at + ops[n].ttl)
            else
              && h in StateAt(capacity, ops, n)
              && StateAt(capacity, ops, n + 1)[h] == StateAt(capacity, ops, n)[h]
              && !TakesAt(capacity, ops, n, h)
  {
    StepOrigin(capacity, StateAt(capacity, ops, n), ops[n], h);
  }

  lemma LastInsertUnfolds<K, T, V>(capacity: nat, ops: seq<Op<K, T, V>>, n: nat, h: K)
    requires 0 < n <= |ops|
    ensures LastInsert(capacity, ops, n, h)
            == if ReplyAt(capacity, ops, n - 1) == Inserted(h) then Some(n - 1) else LastInsert(capacity, ops, n - 1, h)
  {
    hide StateAt, ReplyAt, Step;
  }

  lemma {:induction false} Provenance<K(!new), T, V>(capacity: nat, ops: seq<Op<K, T, V>>, n: nat, h: K)
    requires n <= |ops| && h in StateAt(capacity, ops, n)
    ensures ComesFrom(capacity, ops, n, h)
  {
    if n == 0 {
      assert false;
    } else {
      StateOrigin(capacity, ops, n - 1, h);
      LastInsertUnfolds(capacity, ops, n, h);
      hide Step, StateAt, ReplyAt, TakesAt, LastInsert;
      if ReplyAt(capacity, ops, n - 1) == Inserted(h) {
        assert Untaken(capacity, ops, n - 1, n, h);
      } else {
        Provenance(capacity, ops, n - 1, h);
        StaysUntaken(capacity, ops, LastInsert(capacity, ops, n, h).value, n, h);
      }
    }
  }

  lemma StaysUntaken<K(!new), T, V>(capacity: nat, ops: seq<Op<K, T, V>>, from: nat, n: nat, h: K)
    requires 0 < n <= |ops| && Untaken(capacity, ops, from, n - 1, h) && !TakesAt(capacity, ops, n - 1, h)
    ensures Untaken(capacity, ops, from, n, h)
  {
    hide TakesAt;
  }

  /** The insert whose record a successful take returns. */
  function Origin<K(==), T(==), V(==)>(capacity: nat, ops: seq<Op<K, T, V>>, j: nat): nat
    requires j < |ops| && ops[j].Take?
  {
    var from := LastInsert(capacity, ops, j, ops[j].handle);
    if from.Some? then from.value else 0
  }

  /**
   A successful take returns, unchanged and before its expiry, the record that
   an earlier insert of the same kind stored under that handle.
   */
  lemma TakeIsFaithful<K(!new), T, V>(capacity: nat, ops: seq<Op<K, T, V>>, j: nat)
    requires j < |ops| && ops[j].Take? && ReplyAt(capacity, ops, j).Taken?
    ensures var i := Origin(capacity, ops, j);
            && i < j && ops[i].Insert?
            && ReplyAt(capacity, ops, i) == Inserted(ops[j].handle)
            && ops[j].handle in ops[i].handles
            && ReplyAt(capacity, ops, j) == Taken(ops[i].value)
            && ops[i].tag == ops[j].tag
            && ops[j].at < ops[i].at + ops[i].ttl
  {
    Provenance(capacity, ops, j, ops[j].handle);
  }

  /** No inserted record is handed out twice, in whatever order any number of clients are served. */
  lemma TakenAtMostOnce<K(!new), T, V>(capacity: nat, ops: seq<Op<K, T, V>>, j: nat, k: nat)
    requires j < k < |ops| && ops[j].Take? && ops[k].Take?
    requires ReplyAt(capacity, ops, j).Taken? && ReplyAt(capacity, ops, k).Taken?
    ensures Origin(capacity, ops, j) != Origin(capacity, ops, k)
  {
    TakeIsFaithful(capacity, ops, j);
    TakeIsFaithful(capacity, ops, k);
    if Origin(capacity, ops, j) == Origin(capacity, ops, k) {
      assert ops[j].handle == ops[k].handle;
      Provenance(capacity, ops, k, ops[k].handle);
      assert TakesAt(capacity, ops, j, ops[k].handle);
      assert false;
    }
  }

  // ---------------------------------------------------------------------
  // What every reply means

  ghost predicate Ordered<K, T, V>(ops: seq<Op<K, T, V>>) {
    forall i, j :: 0 <= i < j < |ops| ==> ops[i].at <= ops[j].at
  }

  /** Insert `i` stored a record under `h` that is unexpired at `now` and that nobody took before operation `j`. */
  ghost predicate Outstanding<K(!new), T, V>(capacity: nat, ops: seq<Op<K, T, V>>, i: nat, j: nat, h: K, now: int)
    requires j <= |ops|
  {
    i < j && ops[i].Insert? && ReplyAt(capacity, ops, i) == Inserted(h) && now < ops[i].at + ops[i].ttl
    && Untaken(capacity, ops, i, j, h)
  }

  lemma InsertStores<K, T, V>(capacity: nat, ops: seq<Op<K, T, V>>, i: nat, h: K)
    requires i < |ops| && ops[i].Insert? && ReplyAt(capacity, ops, i) == Inserted(h)
    ensures h in StateAt(capacity, ops, i + 1)
    ensures StateAt(capacity, ops, i + 1)[h] == Record(ops[i].tag, ops[i].value, ops[i].at + ops[i].ttl)
  {
  }

  lemma StepKeeps<K, T, V>(capacity: nat, pending: Pending<K, T, V>, op: Op<K, T, V>, h: K)
    requires h in pending && op.at < pending[h].expiresAt
    requires !(op.Take? && op.handle == h && Step(capacity, pending, op).reply.Taken?)
    ensures h in Step(capacity, pending, op).pending && Step(capacity, pending, op).pending[h] == pending[h]
  {
  }

  lemma StateKeeps<K, T, V>(capacity: nat, ops: seq<Op<K, T, V>>, n: nat, h: K)
    requires n < |ops| && h in StateAt(capacity, ops, n) && ops[n].at < StateAt(capacity, ops, n)[h].expiresAt
    requires !TakesAt(capacity, ops, n, h)
    ensures h in StateAt(capacity, ops, n + 1)
    ensures StateAt(capacity, ops, n + 1)[h] == StateAt(capacity, ops, n)[h]
  {
    StepKeeps(capacity, StateAt(capacity, ops, n), ops[n], h);
  }

  /** An outstanding record is there. */
  lemma {:induction false} OutstandingIsHeld<K(!new), T, V>(capacity: nat, ops: seq<Op<K, T, V>>, i: nat, j: nat, h: K,
                                                            now: int)
    requires Ordered(ops) && j <= |ops| && Outstanding(capacity, ops, i, j, h, now)
    requires j > 0 ==> ops[j - 1].at <= now
    ensures h in StateAt(capacity, ops, j)
    ensures StateAt(capacity, ops, j)[h] == Record(ops[i].tag, ops[i].value, ops[i].at + ops[i].ttl)
    decreases j
  {
    hide StateAt, ReplyAt, TakesAt, Step;
    if j == i + 1 {
      InsertStores(capacity, ops, i, h);
    } else {
      assert ops[j - 2].at <= ops[j - 1].at;
      OutstandingIsHeld(capacity, ops, i, j - 1, h, ops[j - 1].at);
      StateKeeps(capacity, ops, j - 1, h);
    }
  }

  /** A record that is there and unexpired is outstanding. */
  lemma HeldIsOutstanding<K(!new), T, V>(capacity: nat, ops: seq<Op<K, T, V>>, j: nat, h: K, now: int) returns (i: nat)
    requires j <= |ops| && h in StateAt(capacity, ops, j) && now < StateAt(capacity, ops, j)[h].expiresAt
    ensures Outstanding(capacity, ops, i, j, h, now)
    ensures StateAt(capacity, ops, j)[h] == Record(ops[i].tag, ops[i].value, ops[i].at + ops[i].ttl)
  {
    hide StateAt, ReplyAt, TakesAt, Step;
    Provenance(capacity, ops, j, h);
    i := LastInsert(capacity, ops, j, h).value;
  }

  lemma TakeReply<K, T, V>(capacity: nat, ops: seq<Op<K, T, V>>, j: nat)
    requires j < |ops| && ops[j].Take?
    ensures var pending, op, reply := StateAt(capacity, ops, j), ops[j], ReplyAt(capacity, ops, j);
            if op.handle in pending && op.at < pending[op.handle].expiresAt then
              reply == if pending[op.handle].tag == op.tag then Taken(pending[op.handle].value) else WrongKind
            else reply == Missing
  {
    hide StateAt;
  }

  /**
   Every take is answered from the history alone: with the value of the one
   outstanding insert of its handle if the kinds agree, as a mismatch if they do
   not, and as missing if nothing is outstanding.
   */
  lemma TakeExactly<K(!new), T, V>(capacity: nat, ops: seq<Op<K, T, V>>, j: nat)
    requires Ordered(ops) && j < |ops| && ops[j].Take?
    ensures forall i: nat :: Outstanding(capacity, ops, i, j, ops[j].handle, ops[j].at) ==>
                ReplyAt(capacity, ops, j) == if ops[i].tag == ops[j].tag then Taken(ops[i].value) else WrongKind
    ensures (forall i: nat :: !Outstanding(capacity, ops, i, j, ops[j].handle, ops[j].at)) ==>
                ReplyAt(capacity, ops, j) == Missing
  {
    hide StateAt, ReplyAt, Step, Outstanding;
    var h, now := ops[j].handle, ops[j].at;
    TakeReply(capacity, ops, j);
    if h in StateAt(capacity, ops, j) && now < StateAt(capacity, ops, j)[h].expiresAt {
      var i := HeldIsOutstanding(capacity, ops, j, h, now);
    }
    forall i: nat | Outstanding(capacity, ops, i, j, h, now)
      ensures i < j && ops[i].Insert?
              && ReplyAt(capacity, ops, j) == if ops[i].tag == ops[j].tag then Taken(ops[i].value) else WrongKind
    {
      OutstandingIsHeld(capacity, ops, i, j, h, now);
      OutstandingIsFresh(capacity, ops, i, j, h, now);
    }
  }

  lemma OutstandingIsFresh<K(!new), T, V>(capacity: nat, ops: seq<Op<K, T, V>>, i: nat, j: nat, h: K, now: int)
    requires j <= |ops| && Outstanding(capacity, ops, i, j, h, now)
    ensures i < j && ops[i].Insert? && now < ops[i].at + ops[i].ttl && ReplyAt(capacity, ops, i) == Inserted(h)
  {
  }

  /** While a record is outstanding, nobody has asked for it under its own kind: the first to ask gets it. */
  lemma OutstandingIsUntried<K(!new), T, V>(capacity: nat, ops: seq<Op<K, T, V>>, i: nat, j: nat, h: K, now: int,
                                            k: nat)
    requires Ordered(ops) && j <= |ops| && (forall m :: 0 <= m < j ==> ops[m].at <= now)
    requires Outstanding(capacity, ops, i, j, h, now) && i < k < j
    ensures !(ops[k].Take? && ops[k].handle == h && ops[k].tag == ops[i].tag)
  {
    hide ReplyAt, StateAt;
    assert !TakesAt(capacity, ops, k, h);
    if ops[k].Take? && ops[k].handle == h && ops[k].tag == ops[i].tag {
      assert Outstanding(capacity, ops, i, k, h, ops[k].at);
      TakeExactly(capacity, ops, k);
    }
  }

  /** The handles with an outstanding record. */
  ghost function InUse<K(!new), T, V>(capacity: nat, ops: seq<Op<K, T, V>>, j: nat, now: int): set<K>
    requires j <= |ops|
  {
    set i: nat | i < j && ReplyAt(capacity, ops, i).Inserted?
                 && Outstanding(capacity, ops, i, j, ReplyAt(capacity, ops, i).handle, now) ::
      ReplyAt(capacity, ops, i).handle
  }

  lemma InUseIsHeld<K(!new), T, V>(capacity: nat, ops: seq<Op<K, T, V>>, j: nat, now: int)
    requires Ordered(ops) && j <= |ops| && (j > 0 ==> ops[j - 1].at <= now)
    ensures Purge(StateAt(capacity, ops, j), now).Keys == InUse(capacity, ops, j, now)
  {
    hide StateAt, ReplyAt, Step, Outstanding;
    var kept := Purge(StateAt(capacity, ops, j), now);
    forall h | h in kept.Keys ensures h in InUse(capacity, ops, j, now) {
      var i := HeldIsOutstanding(capacity, ops, j, h, now);
      OutstandingIsFresh(capacity, ops, i, j, h, now);
    }
    forall h | h in InUse(capacity, ops, j, now) ensures h in kept.Keys {
      var i: nat :| i < j && ReplyAt(capacity, ops, i) == Inserted(h) && Outstanding(capacity, ops, i, j, h, now);
      OutstandingIsHeld(capacity, ops, i, j, h, now);
      OutstandingIsFresh(capacity, ops, i, j, h, now);
    }
  }

  lemma InsertReply<K, T, V>(capacity: nat, ops: seq<Op<K, T, V>>, j: nat)
    requires j < |ops| && ops[j].Insert?
    ensures var kept, reply := Purge(StateAt(capacity, ops, j), ops[j].at), ReplyAt(capacity, ops, j);
            if |kept| >= capacity then reply == CapacityReached
            else reply == match FirstVacant(kept, ops[j].handles) {
                            case None => HandleCollision
                            case Some(h) => Inserted(h)
                          }
  {
    hide StateAt, Purge, FirstVacant;
  }

  /** `h` is the first of `handles` that is not in `used`. */
  predicate FirstFree<K(==)>(handles: seq<K>, used: set<K>, h: K) {
    exists i :: 0 <= i < |handles| && handles[i] == h && h !in used && forall j :: 0 <= j < i ==> handles[j] in used
  }

  lemma {:induction false} FirstVacantIsFree<K, T, V>(pending: Pending<K, T, V>, handles: seq<K>)
    ensures FirstVacant(pending, handles).Some? ==>
              FirstFree(handles, pending.Keys, FirstVacant(pending, handles).value)
  {
    if handles != [] && handles[0] in pending && FirstVacant(pending, handles).Some? {
      var h := FirstVacant(pending, handles).value;
      FirstVacantIsFree(pending, handles[1..]);
      var i :| 0 <= i < |handles[1..]| && handles[1..][i] == h
               && forall j :: 0 <= j < i ==> handles[1..][j] in pending.Keys;
      forall j | 0 <= j < i + 1 ensures handles[j] in pending.Keys {
        assert j > 0 ==> handles[j] == handles[1..][j - 1];
      }
      assert handles[i + 1] == h;
    } else if handles != [] && handles[0] !in pending {
      assert handles[0] == FirstVacant(pending, handles).value;
    }
  }

  /**
   Every insert is answered from the history alone: refused as full exactly when
   as many records are outstanding as the store holds, stored under the first
   of its handles that is not in use, and a collision if all of them are.
   */
  lemma InsertExactly<K(!new), T, V>(capacity: nat, ops: seq<Op<K, T, V>>, j: nat)
    requires Ordered(ops) && j < |ops| && ops[j].Insert?
    ensures var reply, used := ReplyAt(capacity, ops, j), InUse(capacity, ops, j, ops[j].at);
            && (|used| >= capacity ==> reply == CapacityReached)
            && (|used| < capacity && (forall h :: h in ops[j].handles ==> h in used) ==> reply == HandleCollision)
            && (|used| < capacity && (exists h :: h in ops[j].handles && h !in used) ==>
                  reply.Inserted? && FirstFree(ops[j].handles, used, reply.handle))
  {
    hide StateAt, ReplyAt, Step, InUse, Purge;
    InUseIsHeld(capacity, ops, j, ops[j].at);
    InsertReply(capacity, ops, j);
    var kept := Purge(StateAt(capacity, ops, j), ops[j].at);
    FirstVacantIsFree(kept, ops[j].handles);
    assert |kept| == |kept.Keys|;
    hide FirstVacant;
  }

  /** The store never holds more than its capacity. */
  lemma {:induction false} StaysBounded<K(!new), T, V>(capacity: nat, ops: seq<Op<K, T, V>>, n: nat)
    requires n <= |ops|
    ensures |StateAt(capacity, ops, n)| <= capacity
  {
    if n != 0 {
      StaysBounded(capacity, ops, n - 1);
      var before := StateAt(capacity, ops, n - 1);
      match ops[n - 1] {
        case Skip(_) =>
        case Insert(now, _, _, _, _) => PurgeShrinks(before, now);
        case Take(_, h, _) => if h in before { DropShrinks(before, h); }
      }
    }
  }

  lemma PurgeShrinks<K, T, V>(pending: Pending<K, T, V>, now: int)
    ensures |Purge(pending, now)| <= |pending|
  {
    var kept := Purge(pending, now);
    assert pending.Keys == kept.Keys + (pending.Keys - kept.Keys);
    assert |kept| == |kept.Keys| && |pending| == |pending.Keys|;
  }

  lemma DropShrinks<K, T, V>(pending: Pending<K, T, V>, h: K)
    requires h in pending
    ensures |pending - {h}| == |pending| - 1
  {
    assert (pending - {h}).Keys == pending.Keys - {h};
    assert |pending - {h}| == |(pending - {h}).Keys| && |pending| == |pending.Keys|;
  }
}
