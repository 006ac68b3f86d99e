/** Whole OPAQUE logins on the Redis store, with any number of servers running its scripts. */
module LoginRuns {
  import opened Common
  import opened OneTimeRedis
  import opened OneTimeMemory
  import opened Codec
  import opened RedisStores
  import LoginService
  import OneTime

  /** A service and its store. `service.capacity` and `service.ttl`, in milliseconds, are those of the store. */
  datatype Deployment = Deployment(service: LoginService.Config, namespace: string, aead: Aead,
                                   hash: Handle -> string) {
    ghost predicate Valid() {
      1 <= service.ttl <= MAX_LOGIN_TTL_MILLIS && aead.Invertible() && forall h: Handle :: |hash(h)| == 64
    }

    function Store(): OneTimeRedis.Store {
      LoginStore(namespace, service.capacity, service.ttl)
    }

    function Frame(): Codec.Frame {
      LoginFrame(Ascii(namespace))
    }
  }

  /** One script run of some server: an insert attempt of a begin under one drawn handle, or the take of a finish. */
  datatype LoginCall =
    | Begin(at: int, request: LoginService.BeginRequest, nonce: seq<byte>, handle: Handle)
    | Finish(at: int, finalization: LoginService.Envelope, handle: Handle)

  ghost predicate ValidCalls(calls: seq<LoginCall>) {
    && (forall i :: 0 <= i < |calls| && calls[i].Begin? ==> |calls[i].nonce| == 12)
    && (forall i, j :: 0 <= i < j < |calls| ==> calls[i].at <= calls[j].at)
  }

  /** What a begin stores, if it reaches the store. */
  function BoundOf(d: Deployment, request: LoginService.BeginRequest): (b: Option<BoundLoginState>)
    ensures b.Some? ==> b.value.Valid() && 1 <= |b.value.state| <= MAX_STORED_STATE_BYTES
  {
    match LoginService.Prepare(d.service, request)
    case Failure(_) => None
    case Success(ready) =>
      if 1 <= |ready.1.state| <= MAX_STORED_STATE_BYTES && ready.1.Valid() then Some(ready.1) else None
  }

  /** A begin that is prepared is held back by the size of its state alone. */
  lemma BoundOfIsPrepared(d: Deployment, request: LoginService.BeginRequest)
    ensures var prepared := LoginService.Prepare(d.service, request);
            BoundOf(d, request) == if prepared.Success? && |prepared.value.1.state| <= MAX_STORED_STATE_BYTES
                                   then Some(prepared.value.1) else None
  {
    hide LoginService.IntoMessage, LoginService.NewEnvelope;
    var prepared := LoginService.Prepare(d.service, request);
    if prepared.Success? {
      var started := d.service.protocol.start(request, request.envelope.payload);
      assert prepared.value.1.state == Package(started.value.state);
      PackageLayout(started.value.state);
    }
  }

  function ToStoreOp(d: Deployment, call: LoginCall): StoreOp {
    match call
    case Begin(at, request, nonce, handle) =>
      (match BoundOf(d, request)
       case None => OneTime.Skip(at)
       case Some(bound) =>
         OneTime.Insert(at, [d.hash(handle)], (), Framed(d.Frame(), d.aead, nonce, BoundRecord(bound)), d.service.ttl))
    case Finish(at, finalization, handle) =>
      (match LoginService.IntoMessage(finalization, LoginService.CredentialFinalization, [d.service.keyId])
       case Failure(_) => OneTime.Skip(at)
       case Success(_) => OneTime.Take(at, d.hash(handle), ()))
  }

  function ToStoreOps(d: Deployment, calls: seq<LoginCall>): (ops: seq<StoreOp>)
    ensures |ops| == |calls|
  {
    seq(|calls|, i requires 0 <= i < |calls| => ToStoreOp(d, calls[i]))
  }

  lemma StoreOpsAreValid(d: Deployment, calls: seq<LoginCall>)
    requires d.Valid() && ValidCalls(calls)
    ensures d.Store().sp.WellNamed() && ValidOps(d.Store(), ToStoreOps(d, calls))
  {
    SpacesAreWellNamed(d.namespace);
    forall i | 0 <= i < |calls| ensures ValidOp(d.Store(), ToStoreOp(d, calls[i])) {
      StoreOpIsValid(d, calls[i]);
    }
    hide BoundOf, ToStoreOp, LoginSpace, Codec.Ascii;
  }

  lemma StoreOpIsValid(d: Deployment, call: LoginCall)
    requires d.Valid() && (call.Begin? ==> |call.nonce| == 12)
    ensures ValidOp(d.Store(), ToStoreOp(d, call)) && ToStoreOp(d, call).at == call.at
  {
    hide BoundOf, LoginService.IntoMessage, BoundRecord;
    if call.Begin? && BoundOf(d, call.request).Some? {
      var bound := BoundOf(d, call.request).value;
      ConstructibleStatesAreEncodable(bound);
      FrameLayout(d.Frame(), d.aead, call.nonce, BoundRecord(bound));
    }
  }

  /** What `finish_login` answers to a script reply. */
  function FinishAnswer(d: Deployment, finalization: LoginService.Envelope, reply: OneTime.Reply<string, seq<byte>>)
    : Result<seq<byte>, LoginService.ServiceError>
  {
    match LoginService.IntoMessage(finalization, LoginService.CredentialFinalization, [d.service.keyId])
    case Failure(error) => Failure(LoginService.Auth(error))
    case Success(message) =>
      if !reply.Taken? then Failure(LoginService.MissingLoginState)
      else
        match OpenLogin(d.Frame(), d.aead, reply.value)
        case Failure(error) => Failure(LoginService.StoreFailed(error))
        case Success(bound) => LoginService.Finalize(d.service, bound, message)
  }

  ghost function AnswerAt(d: Deployment, calls: seq<LoginCall>, j: nat): Result<seq<byte>, LoginService.ServiceError>
    requires d.Valid() && ValidCalls(calls) && j < |calls| && calls[j].Finish?
  {
    StoreOpsAreValid(d, calls);
    FinishAnswer(d, calls[j].finalization, ScriptReplyAt(d.Store(), ToStoreOps(d, calls), j))
  }

  /** The begin whose record the scripts handed to call `j`. */
  ghost function BeginOf(d: Deployment, calls: seq<LoginCall>, j: nat): nat
    requires j < |calls| && EffectiveOps(ToStoreOps(d, calls))[j].Take?
  {
    OneTime.Origin(d.service.capacity, EffectiveOps(ToStoreOps(d, calls)), j)
  }

  lemma AnsweredWasTaken(d: Deployment, calls: seq<LoginCall>, j: nat)
    requires d.Valid() && ValidCalls(calls) && j < |calls| && calls[j].Finish? && AnswerAt(d, calls, j).Success?
    ensures d.Store().sp.WellNamed() && ValidOps(d.Store(), ToStoreOps(d, calls))
    ensures ScriptReplyAt(d.Store(), ToStoreOps(d, calls), j).Taken?
    ensures ToStoreOps(d, calls)[j].Take? && calls[j].finalization.keyId == d.service.keyId
  {
    StoreOpsAreValid(d, calls);
    hide ScriptReplyAt, OpenLogin, LoginService.Finalize;
  }

  /**
   Whatever servers share the store: a successful finish completes an earlier
   begin whose handle has the same hash, with that begin's own protocol state
   and identifiers, and before its state expired.
   */
  lemma FinishCompletesBegin(d: Deployment, calls: seq<LoginCall>, j: nat)
    requires d.Valid() && ValidCalls(calls) && j < |calls| && calls[j].Finish? && AnswerAt(d, calls, j).Success?
    ensures EffectiveOps(ToStoreOps(d, calls))[j].Take?
    ensures var i := BeginOf(d, calls, j);
            && i < j && calls[i].Begin? && d.hash(calls[i].handle) == d.hash(calls[j].handle)
            && calls[j].at < calls[i].at + d.service.ttl
            && var prepared := LoginService.Prepare(d.service, calls[i].request);
            && prepared.Success?
            && prepared.value.1.client == calls[i].request.client && prepared.value.1.server == calls[i].request.server
            && AnswerAt(d, calls, j)
               == LoginService.Finalize(d.service, prepared.value.1, calls[j].finalization.payload)
  {
    AnsweredWasTaken(d, calls, j);
    var st, sent := d.Store(), ToStoreOps(d, calls);
    RecordsAreOneTime(st, sent, j);
    var i := BeginOf(d, calls, j);
    hide ScriptReplyAt, OpenLogin, Framed, BoundRecord, LoginService.Finalize, OneTime.Origin, BoundOf;
    assert sent[i] == ToStoreOp(d, calls[i]) && calls[i].Begin? && BoundOf(d, calls[i].request).Some?;
    BoundOfIsPrepared(d, calls[i].request);
    StoredLoginOpens(d.namespace, d.aead, calls[i].nonce, BoundOf(d, calls[i].request).value);
    PreparedKeepsIdentifiers(d, calls[i].request);
  }

  lemma PreparedKeepsIdentifiers(d: Deployment, request: LoginService.BeginRequest)
    ensures var prepared := LoginService.Prepare(d.service, request);
            prepared.Success? ==> prepared.value.1.client == request.client && prepared.value.1.server == request.server
  {
  }

  /** Two successful finishes never complete the same begin, on whichever servers they ran. */
  lemma FinishesAreInjective(d: Deployment, calls: seq<LoginCall>, j: nat, k: nat)
    requires d.Valid() && ValidCalls(calls) && j < k < |calls| && calls[j].Finish? && calls[k].Finish?
    requires AnswerAt(d, calls, j).Success? && AnswerAt(d, calls, k).Success?
    ensures EffectiveOps(ToStoreOps(d, calls))[j].Take? && EffectiveOps(ToStoreOps(d, calls))[k].Take?
    ensures BeginOf(d, calls, j) != BeginOf(d, calls, k)
  {
    AnsweredWasTaken(d, calls, j);
    AnsweredWasTaken(d, calls, k);
    hide ScriptReplyAt, AnswerAt, OneTime.Origin;
    RecordsAreOneTime(d.Store(), ToStoreOps(d, calls), j);
  }

  /** A finalization refused for its version, suite, kind or key runs no script. */
  lemma RefusedFinishRunsNoScript(d: Deployment, calls: seq<LoginCall>, j: nat)
    requires d.Valid() && ValidCalls(calls) && j < |calls| && calls[j].Finish?
    requires var e := calls[j].finalization;
             e.version != LoginService.PROTOCOL_VERSION || e.suite != CIPHER_SUITE_ID
             || e.kind != LoginService.CredentialFinalization || e.keyId != d.service.keyId
    ensures d.Store().sp.WellNamed() && ValidOps(d.Store(), ToStoreOps(d, calls))
    ensures DbAt(d.Store(), ToStoreOps(d, calls), j + 1) == DbAt(d.Store(), ToStoreOps(d, calls), j)
    ensures AnswerAt(d, calls, j).Failure? && AnswerAt(d, calls, j).error.Auth?
  {
    StoreOpsAreValid(d, calls);
    hide ScriptReplyAt;
    assert ToStoreOps(d, calls)[j] == OneTime.Skip(calls[j].at);
  }

  // ---------------------------------------------------------------------
  // What every finish is answered

  /**
   Begin `i` stored its record under the hash of finish `j`'s handle, the record
   has not expired, and no well-formed finish under that hash ran in between.
   */
  ghost predicate PendingLogin(d: Deployment, calls: seq<LoginCall>, i: nat, j: nat)
    requires d.Valid() && ValidCalls(calls) && j < |calls| && calls[j].Finish?
    requires d.Store().sp.WellNamed() && ValidOps(d.Store(), ToStoreOps(d, calls))
  {
    && i < j && calls[i].Begin? && d.hash(calls[i].handle) == d.hash(calls[j].handle)
    && ScriptReplyAt(d.Store(), ToStoreOps(d, calls), i).Inserted?
    && calls[j].at < calls[i].at + d.service.ttl
    && forall k :: i < k < j ==>
                     !(calls[k].Finish? && d.hash(calls[k].handle) == d.hash(calls[j].handle)
                       && LoginService.WellFormed(d.service, calls[k].finalization))
  }

  lemma SentIsCall(d: Deployment, calls: seq<LoginCall>, k: nat)
    requires d.Valid() && ValidCalls(calls) && k < |calls|
    ensures var op := ToStoreOps(d, calls)[k];
            && op.at == calls[k].at
            && (op.Insert? ==> calls[k].Begin? && op.handles == [d.hash(calls[k].handle)] && op.ttl == d.service.ttl)
            && (op.Take? <==> calls[k].Finish? && LoginService.WellFormed(d.service, calls[k].finalization))
            && (op.Take? ==> op.handle == d.hash(calls[k].handle))
  {
    hide BoundOf, Framed, BoundRecord;
  }

  lemma InsertedUnderOwnHash(d: Deployment, calls: seq<LoginCall>, i: nat)
    requires d.Valid() && ValidCalls(calls) && i < |calls|
    requires d.Store().sp.WellNamed() && ValidOps(d.Store(), ToStoreOps(d, calls))
    ensures var op, reply := ToStoreOps(d, calls)[i], ScriptReplyAt(d.Store(), ToStoreOps(d, calls), i);
            reply.Inserted? ==> op.Insert? && op.handles == [reply.handle]
  {
    hide ToStoreOps, InsertScript, ConsumeScript, DbAt;
  }

  lemma PendingIsOutstanding(d: Deployment, calls: seq<LoginCall>, i: nat, j: nat)
    requires d.Valid() && ValidCalls(calls) && j < |calls| && calls[j].Finish?
    requires d.Store().sp.WellNamed() && ValidOps(d.Store(), ToStoreOps(d, calls))
    ensures PendingLogin(d, calls, i, j)
            <==> ScriptOutstanding(d.Store(), ToStoreOps(d, calls), i, j, d.hash(calls[j].handle), calls[j].at)
  {
    hide ToStoreOps, ScriptReplyAt, LoginService.WellFormed;
    var st, sent, member := d.Store(), ToStoreOps(d, calls), d.hash(calls[j].handle);
    SentIsCall(d, calls, j);
    if i < j {
      InsertedUnderOwnHash(d, calls, i);
      SentIsCall(d, calls, i);
    }
    if PendingLogin(d, calls, i, j) {
      forall k | i < k < j ensures !(sent[k].Take? && sent[k].handle == member) {
        SentIsCall(d, calls, k);
      }
    }
    if ScriptOutstanding(st, sent, i, j, member, calls[j].at) {
      forall k | i < k < j
        ensures !(calls[k].Finish? && d.hash(calls[k].handle) == member
                  && LoginService.WellFormed(d.service, calls[k].finalization))
      {
        SentIsCall(d, calls, k);
        OutstandingIsUntried(st, sent, i, j, member, calls[j].at, k);
      }
    }
  }

  /** What the record of a begin that was stored opens to. */
  lemma StoredState(d: Deployment, call: LoginCall)
    requires d.Valid() && call.Begin? && |call.nonce| == 12 && ToStoreOp(d, call).Insert?
    ensures var started := d.service.protocol.start(call.request, call.request.envelope.payload);
            && started.Success? && |started.value.state| <= MAX_MESSAGE_BYTES
            && OpenLogin(d.Frame(), d.aead, ToStoreOp(d, call).value)
               == Success(BoundLoginState(Package(started.value.state), call.request.client, call.request.server))
  {
    hide Framed, BoundRecord, OpenLogin, Package, LoginService.NewEnvelope;
    var started := d.service.protocol.start(call.request, call.request.envelope.payload);
    if started.Success? {
      PackageLayout(started.value.state);
    }
    StoredLoginOpens(d.namespace, d.aead, call.nonce, BoundOf(d, call.request).value);
  }

  /**
   Every finish is answered from the history alone, whatever servers share the
   store: a well-formed finalization whose handle's hash is pending gets what the
   protocol makes of that begin's own state and identifiers; any other one has
   no login state.
   */
  lemma FinishAnsweredExactly(d: Deployment, calls: seq<LoginCall>, j: nat)
    requires d.Valid() && ValidCalls(calls) && j < |calls| && calls[j].Finish?
    requires d.Store().sp.WellNamed() && ValidOps(d.Store(), ToStoreOps(d, calls))
    requires LoginService.WellFormed(d.service, calls[j].finalization)
    ensures (forall i: nat :: !PendingLogin(d, calls, i, j)) ==>
              AnswerAt(d, calls, j) == Failure(LoginService.MissingLoginState)
    ensures forall i: nat :: PendingLogin(d, calls, i, j) ==>
              var begun, e, answer := calls[i].request, calls[j].finalization, AnswerAt(d, calls, j);
              var started := d.service.protocol.start(begun, begun.envelope.payload);
              && started.Success?
              && answer == if started.value.state == [] then Failure(LoginService.Auth(EmptyMessage))
                           else match d.service.protocol.finish(started.value.state, e.payload,
                                                                begun.client, begun.server) {
                                  case Success(secret) => Success(secret)
                                  case Failure(error) => Failure(LoginService.Auth(error))
                                }
  {
    var st, sent, e := d.Store(), ToStoreOps(d, calls), calls[j].finalization;
    SentIsCall(d, calls, j);
    FinishReply(d, calls, j);
    hide ToStoreOps, ToStoreOp, ScriptReplyAt, ScriptOutstanding, PendingLogin;
    hide OpenLogin, LoginService.Finalize, AnswerAt;
    TakeScriptExactly(st, sent, j);
    forall i: nat
      ensures PendingLogin(d, calls, i, j)
              <==> ScriptOutstanding(st, sent, i, j, d.hash(calls[j].handle), calls[j].at)
    {
      PendingIsOutstanding(d, calls, i, j);
    }
    forall i: nat | PendingLogin(d, calls, i, j)
      ensures i < j && calls[i].Begin?
      ensures var begun := calls[i].request;
              var started := d.service.protocol.start(begun, begun.envelope.payload);
              && started.Success?
              && AnswerAt(d, calls, j)
                 == if started.value.state == [] then Failure(LoginService.Auth(EmptyMessage))
                    else match d.service.protocol.finish(started.value.state, e.payload, begun.client, begun.server) {
                           case Success(secret) => Success(secret)
                           case Failure(error) => Failure(LoginService.Auth(error))
                         }
    {
      PendingIsSent(d, calls, i, j);
      StoredState(d, calls[i]);
      var begun := calls[i].request;
      var state := d.service.protocol.start(begun, begun.envelope.payload).value.state;
      LoginService.FinalizeStored(d.service, state, begun.client, begun.server, e.payload);
    }
  }

  lemma PendingIsSent(d: Deployment, calls: seq<LoginCall>, i: nat, j: nat)
    requires d.Valid() && ValidCalls(calls) && j < |calls| && calls[j].Finish?
    requires d.Store().sp.WellNamed() && ValidOps(d.Store(), ToStoreOps(d, calls)) && PendingLogin(d, calls, i, j)
    ensures i < j && calls[i].Begin? && |calls[i].nonce| == 12
    ensures ToStoreOps(d, calls)[i] == ToStoreOp(d, calls[i]) && ToStoreOp(d, calls[i]).Insert?
  {
    InsertedUnderOwnHash(d, calls, i);
    hide ScriptReplyAt, ToStoreOp;
  }

  lemma FinishReply(d: Deployment, calls: seq<LoginCall>, j: nat)
    requires d.Valid() && ValidCalls(calls) && j < |calls| && calls[j].Finish?
    requires d.Store().sp.WellNamed() && ValidOps(d.Store(), ToStoreOps(d, calls))
    requires LoginService.WellFormed(d.service, calls[j].finalization)
    ensures var reply := ScriptReplyAt(d.Store(), ToStoreOps(d, calls), j);
            && (reply == OneTime.Missing ==> AnswerAt(d, calls, j) == Failure(LoginService.MissingLoginState))
            && (reply.Taken? && OpenLogin(d.Frame(), d.aead, reply.value).Success? ==>
                  AnswerAt(d, calls, j)
                  == LoginService.Finalize(d.service, OpenLogin(d.Frame(), d.aead, reply.value).value,
                                           calls[j].finalization.payload))
  {
    hide ScriptReplyAt, OpenLogin, LoginService.Finalize, ToStoreOps;
  }
}
