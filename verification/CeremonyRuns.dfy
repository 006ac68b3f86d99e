/** Whole ceremonies on the Redis store: what a browser gets back is what its own ceremony began with. */
module CeremonyRuns {
  import opened Common
  import opened OneTimeRedis
  import opened OneTimeMemory
  import opened Codec
  import opened RedisStores
  import OneTime

  /** One script run of some client: an insert attempt under one drawn handle, or a take. */
  datatype CeremonyOp =
    | Begin(at: int, state: CeremonyState, ttl: nat, nonce: seq<byte>, handle: Handle)
    | Finish(at: int, kind: CeremonyKind, handle: Handle)

  /** The TTL is in whole milliseconds; one that was below a millisecond arrives as 0. */
  predicate ValidCeremonyOp(op: CeremonyOp) {
    op.Begin? ==> ValidateState(op.state.state).None? && op.ttl <= MAX_CEREMONY_TTL_MILLIS && |op.nonce| == 12
  }

  ghost predicate ValidCeremonies(ops: seq<CeremonyOp>) {
    && (forall i :: 0 <= i < |ops| ==> ValidCeremonyOp(ops[i]))
    && (forall i, j :: 0 <= i < j < |ops| ==> ops[i].at <= ops[j].at)
  }

  function ToStoreOp(namespace: string, aead: Aead, op: CeremonyOp): StoreOp
    requires ValidCeremonyOp(op)
  {
    match op
    case Begin(at, state, ttl, nonce, handle) =>
      OneTime.Insert(at, [CeremonyKey(namespace, state.kind, handle)], (),
                     Framed(CeremonyFrame(Ascii(namespace)), aead, nonce, CeremonyRecord(state)), ttl)
    case Finish(at, kind, handle) => OneTime.Take(at, CeremonyKey(namespace, kind, handle), ())
  }

  function ToStoreOps(namespace: string, aead: Aead, ops: seq<CeremonyOp>): seq<StoreOp>
    requires forall i :: 0 <= i < |ops| ==> ValidCeremonyOp(ops[i])
  {
    seq(|ops|, i requires 0 <= i < |ops| => ToStoreOp(namespace, aead, ops[i]))
  }

  lemma StoreOpsAreValid(namespace: string, aead: Aead, ops: seq<CeremonyOp>)
    requires aead.Invertible() && ValidCeremonies(ops)
    ensures CeremonySpace(namespace).WellNamed()
    ensures ValidOps(CeremonyStore(namespace), ToStoreOps(namespace, aead, ops))
  {
    SpacesAreWellNamed(namespace);
    var st, sent := CeremonyStore(namespace), ToStoreOps(namespace, aead, ops);
    forall i | 0 <= i < |ops| ensures ValidOp(st, sent[i]) {
      match ops[i] {
        case Begin(_, state, _, nonce, handle) =>
          CeremonyKeyIsMember(namespace, state.kind, handle);
          CeremonyStateSurvivesStorage(aead, Ascii(namespace), nonce, state);
        case Finish(_, kind, handle) =>
          CeremonyKeyIsMember(namespace, kind, handle);
      }
    }
  }

  /** What `take` returns for a script reply. */
  function FinishResult(namespace: string, aead: Aead, kind: CeremonyKind, reply: OneTime.Reply<string, seq<byte>>)
    : Option<CeremonyState>
  {
    if reply.Taken? then
      match OpenCeremony(CeremonyFrame(Ascii(namespace)), aead, reply.value)
      case Success(c) => if c.kind == kind then Some(c) else None
      case Failure(_) => None
    else None
  }

  /**
   Every record the scripts hand out is decoded to the state that an earlier
   begin of the same kind stored under the same handle, before its expiry; and
   no two finishes get the record of one begin.
   */
  lemma FinishesMatchBegins(namespace: string, aead: Aead, ops: seq<CeremonyOp>, j: nat)
    requires aead.Invertible() && ValidCeremonies(ops) && j < |ops| && ops[j].Finish?
    requires CeremonySpace(namespace).WellNamed()
    requires ValidOps(CeremonyStore(namespace), ToStoreOps(namespace, aead, ops))
    requires ScriptReplyAt(CeremonyStore(namespace), ToStoreOps(namespace, aead, ops), j).Taken?
    ensures var st, sent := CeremonyStore(namespace), ToStoreOps(namespace, aead, ops);
            var i := OneTime.Origin(st.capacity, EffectiveOps(sent), j);
            && i < j && ops[i].Begin?
            && FinishResult(namespace, aead, ops[j].kind, ScriptReplyAt(st, sent, j)) == Some(ops[i].state)
            && ops[i].state.kind == ops[j].kind && ops[i].handle == ops[j].handle
            && ops[j].at < ops[i].at + ops[i].ttl
            && forall k :: 0 <= k < |ops| && k != j && ops[k].Finish? && ScriptReplyAt(st, sent, k).Taken? ==>
                             OneTime.Origin(st.capacity, EffectiveOps(sent), k) != i
  {
    hide CeremonyKey, Framed, CeremonyRecord, OpenCeremony, ScriptReplyAt, OneTime.Origin, CeremonySpace;
    var st, sent := CeremonyStore(namespace), ToStoreOps(namespace, aead, ops);
    RecordsAreOneTime(st, sent, j);
    var i := OneTime.Origin(st.capacity, EffectiveOps(sent), j);
    assert sent[i].Insert? ==> ops[i].Begin?;
    CeremonyKeyInjective(namespace, ops[i].state.kind, ops[i].handle, ops[j].kind, ops[j].handle);
    StoredCeremonyOpens(namespace, aead, ops[i].nonce, ops[i].state);
  }

  /** Begin `i` stored its state under the kind and handle that finish `j` names, and nobody has asked for it since. */
  ghost predicate Begun(namespace: string, aead: Aead, ops: seq<CeremonyOp>, i: nat, j: nat)
    requires aead.Invertible() && ValidCeremonies(ops) && j < |ops| && ops[j].Finish?
    requires CeremonySpace(namespace).WellNamed()
    requires ValidOps(CeremonyStore(namespace), ToStoreOps(namespace, aead, ops))
  {
    && i < j && ops[i].Begin? && ops[i].state.kind == ops[j].kind && ops[i].handle == ops[j].handle
    && ScriptReplyAt(CeremonyStore(namespace), ToStoreOps(namespace, aead, ops), i).Inserted?
    && ops[j].at < ops[i].at + ops[i].ttl
    && forall k :: i < k < j ==> !(ops[k].Finish? && ops[k].kind == ops[j].kind && ops[k].handle == ops[j].handle)
  }

  lemma InsertedUnderOwnKey(namespace: string, aead: Aead, ops: seq<CeremonyOp>, i: nat)
    requires aead.Invertible() && ValidCeremonies(ops) && i < |ops| && CeremonySpace(namespace).WellNamed()
    requires ValidOps(CeremonyStore(namespace), ToStoreOps(namespace, aead, ops))
    ensures var reply := ScriptReplyAt(CeremonyStore(namespace), ToStoreOps(namespace, aead, ops), i);
            reply.Inserted? ==>
              ops[i].Begin? && reply.handle == CeremonyKey(namespace, ops[i].state.kind, ops[i].handle)
  {
    hide CeremonyKey, Framed, CeremonyRecord, InsertScript, ConsumeScript, DbAt;
  }

  lemma BegunIsOutstanding(namespace: string, aead: Aead, ops: seq<CeremonyOp>, i: nat, j: nat)
    requires aead.Invertible() && ValidCeremonies(ops) && j < |ops| && ops[j].Finish?
    requires CeremonySpace(namespace).WellNamed()
    requires ValidOps(CeremonyStore(namespace), ToStoreOps(namespace, aead, ops))
    ensures Begun(namespace, aead, ops, i, j)
            <==> ScriptOutstanding(CeremonyStore(namespace), ToStoreOps(namespace, aead, ops), i, j,
                                   CeremonyKey(namespace, ops[j].kind, ops[j].handle), ops[j].at)
  {
    hide Begun, ScriptOutstanding, CeremonyKey, CeremonySpace, ToStoreOp, ScriptReplyAt;
    if Begun(namespace, aead, ops, i, j) {
      BegunThenOutstanding(namespace, aead, ops, i, j);
    }
    if ScriptOutstanding(CeremonyStore(namespace), ToStoreOps(namespace, aead, ops), i, j,
                         CeremonyKey(namespace, ops[j].kind, ops[j].handle), ops[j].at) {
      OutstandingThenBegun(namespace, aead, ops, i, j);
    }
  }

  lemma BegunThenOutstanding(namespace: string, aead: Aead, ops: seq<CeremonyOp>, i: nat, j: nat)
    requires aead.Invertible() && ValidCeremonies(ops) && j < |ops| && ops[j].Finish?
    requires CeremonySpace(namespace).WellNamed()
    requires ValidOps(CeremonyStore(namespace), ToStoreOps(namespace, aead, ops))
    requires Begun(namespace, aead, ops, i, j)
    ensures ScriptOutstanding(CeremonyStore(namespace), ToStoreOps(namespace, aead, ops), i, j,
                              CeremonyKey(namespace, ops[j].kind, ops[j].handle), ops[j].at)
  {
    var sent, key := ToStoreOps(namespace, aead, ops), CeremonyKey(namespace, ops[j].kind, ops[j].handle);
    hide CeremonyKey, Framed, CeremonyRecord, ScriptReplyAt, CeremonySpace;
    InsertedUnderOwnKey(namespace, aead, ops, i);
    forall k | i < k < j && sent[k].Take? ensures sent[k].handle != key {
      KeysDiffer(namespace, ops, k, j);
    }
  }

  lemma OutstandingThenBegun(namespace: string, aead: Aead, ops: seq<CeremonyOp>, i: nat, j: nat)
    requires aead.Invertible() && ValidCeremonies(ops) && j < |ops| && ops[j].Finish?
    requires CeremonySpace(namespace).WellNamed()
    requires ValidOps(CeremonyStore(namespace), ToStoreOps(namespace, aead, ops))
    requires ScriptOutstanding(CeremonyStore(namespace), ToStoreOps(namespace, aead, ops), i, j,
                               CeremonyKey(namespace, ops[j].kind, ops[j].handle), ops[j].at)
    ensures Begun(namespace, aead, ops, i, j)
  {
    var st, sent, key := CeremonyStore(namespace), ToStoreOps(namespace, aead, ops),
                         CeremonyKey(namespace, ops[j].kind, ops[j].handle);
    hide CeremonyKey, Framed, CeremonyRecord, ScriptReplyAt, CeremonySpace;
    InsertedUnderOwnKey(namespace, aead, ops, i);
    CeremonyKeyInjective(namespace, ops[i].state.kind, ops[i].handle, ops[j].kind, ops[j].handle);
    forall k | i < k < j ensures !(ops[k].Finish? && ops[k].kind == ops[j].kind && ops[k].handle == ops[j].handle) {
      OutstandingIsUntried(st, sent, i, j, key, ops[j].at, k);
      assert sent[k] == ToStoreOp(namespace, aead, ops[k]);
    }
  }

  lemma KeysDiffer(namespace: string, ops: seq<CeremonyOp>, k: nat, j: nat)
    requires k < |ops| && j < |ops| && ops[k].Finish? && ops[j].Finish?
    ensures CeremonyKey(namespace, ops[k].kind, ops[k].handle) == CeremonyKey(namespace, ops[j].kind, ops[j].handle)
            ==> ops[k].kind == ops[j].kind && ops[k].handle == ops[j].handle
  {
    hide CeremonyKey;
    if CeremonyKey(namespace, ops[k].kind, ops[k].handle) == CeremonyKey(namespace, ops[j].kind, ops[j].handle) {
      CeremonyKeyInjective(namespace, ops[k].kind, ops[k].handle, ops[j].kind, ops[j].handle);
    }
  }

  /**
   A finish gets exactly the state of the begin it belongs to: the one begin of
   its kind and handle that was stored, is unexpired and has not been finished;
   and nothing if there is none.
   */
  lemma FinishesExactly(namespace: string, aead: Aead, ops: seq<CeremonyOp>, j: nat)
    requires aead.Invertible() && ValidCeremonies(ops) && j < |ops| && ops[j].Finish?
    requires CeremonySpace(namespace).WellNamed()
    requires ValidOps(CeremonyStore(namespace), ToStoreOps(namespace, aead, ops))
    ensures var reply := ScriptReplyAt(CeremonyStore(namespace), ToStoreOps(namespace, aead, ops), j);
            && (forall i: nat :: Begun(namespace, aead, ops, i, j) ==>
                                   FinishResult(namespace, aead, ops[j].kind, reply) == Some(ops[i].state))
            && ((forall i: nat :: !Begun(namespace, aead, ops, i, j)) ==>
                  reply == OneTime.Missing && FinishResult(namespace, aead, ops[j].kind, reply) == None)
  {
    var st, sent, key := CeremonyStore(namespace), ToStoreOps(namespace, aead, ops),
                         CeremonyKey(namespace, ops[j].kind, ops[j].handle);
    hide CeremonyKey, Framed, CeremonyRecord, ScriptReplyAt, ScriptOutstanding, Begun, OpenCeremony, CeremonySpace;
    TakeScriptExactly(st, sent, j);
    forall i: nat
      ensures Begun(namespace, aead, ops, i, j) <==> ScriptOutstanding(st, sent, i, j, key, ops[j].at)
      ensures Begun(namespace, aead, ops, i, j) ==>
                i < j && FinishResult(namespace, aead, ops[j].kind, ScriptReplyAt(st, sent, j)) == Some(ops[i].state)
    {
      BegunIsOutstanding(namespace, aead, ops, i, j);
      if Begun(namespace, aead, ops, i, j) {
        BegunIsStored(namespace, aead, ops, i, j);
        StoredCeremonyOpens(namespace, aead, ops[i].nonce, ops[i].state);
      }
    }
  }

  lemma BegunIsStored(namespace: string, aead: Aead, ops: seq<CeremonyOp>, i: nat, j: nat)
    requires aead.Invertible() && ValidCeremonies(ops) && j < |ops| && ops[j].Finish?
    requires CeremonySpace(namespace).WellNamed()
    requires ValidOps(CeremonyStore(namespace), ToStoreOps(namespace, aead, ops))
    requires Begun(namespace, aead, ops, i, j)
    ensures i < j && ops[i].Begin? && ops[i].state.kind == ops[j].kind
    ensures ToStoreOps(namespace, aead, ops)[i].Insert?
    ensures ToStoreOps(namespace, aead, ops)[i].value
            == Framed(CeremonyFrame(Ascii(namespace)), aead, ops[i].nonce, CeremonyRecord(ops[i].state))
  {
    hide ScriptReplyAt, Framed, CeremonyRecord, CeremonyKey;
  }
}
