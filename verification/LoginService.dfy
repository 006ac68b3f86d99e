/** The two-message OPAQUE login on top of the one-time store. */
module LoginService {
  import opened Common
  import opened OneTimeMemory
  import opened Codec
  import OneTime

  const PROTOCOL_VERSION: nat := 1
  const MAX_SERVER_KEY_ID_BYTES: nat := 128
  const MAX_SERVER_KEY_IDS: nat := 4

  datatype MessageKind =
    | RegistrationRequest | RegistrationResponse | RegistrationUpload
    | CredentialRequest | CredentialResponse | CredentialFinalization

  datatype Envelope = Envelope(version: nat, suite: seq<byte>, kind: MessageKind, keyId: seq<byte>, payload: seq<byte>)

  datatype ServiceError = Auth(auth: AuthError) | StoreFailed(store: StoreError) | MissingLoginState
                        | InvalidServerKeyId | InvalidServerKeySet

  predicate ValidKeyId(keyId: seq<byte>) {
    1 <= |keyId| <= MAX_SERVER_KEY_ID_BYTES
  }

  /** The metadata checks, in the order they are made. */
  function IntoMessage(e: Envelope, kind: MessageKind, accepted: seq<seq<byte>>): (r: Result<seq<byte>, AuthError>)
    ensures r.Success? <==> e.version == PROTOCOL_VERSION && e.suite == CIPHER_SUITE_ID && e.kind == kind
                            && e.keyId in accepted
    ensures r.Success? ==> r.value == e.payload
  {
    if e.version != PROTOCOL_VERSION then Failure(UnsupportedVersion)
    else if e.suite != CIPHER_SUITE_ID then Failure(UnsupportedSuite)
    else if e.kind != kind then Failure(UnexpectedMessageKind)
    else if e.keyId !in accepted then Failure(UnexpectedServerKey)
    else Success(e.payload)
  }

  function NewEnvelope(kind: MessageKind, keyId: seq<byte>, payload: seq<byte>): Result<Envelope, AuthError> {
    if !ValidKeyId(keyId) then Failure(InvalidArgument)
    else if payload == [] then Failure(EmptyMessage)
    else if |payload| > MAX_MESSAGE_BYTES then Failure(MessageTooLarge)
    else Success(Envelope(PROTOCOL_VERSION, CIPHER_SUITE_ID, kind, keyId, payload))
  }

  /** The inputs of one `begin_login`; `coins` stands for the randomness the protocol draws. */
  datatype BeginRequest = BeginRequest(envelope: Envelope, credentialFile: Option<seq<byte>>, credentialId: seq<byte>,
                                       client: seq<byte>, server: seq<byte>, coins: seq<byte>)

  datatype Started = Started(response: seq<byte>, state: seq<byte>)

  /**
   The foreign protocol: what it answers to a start message and, for a stored
   state, a finalization message and the two identifiers, which session secret
   it yields.
   */
  datatype LoginProtocol = LoginProtocol(start: (BeginRequest, seq<byte>) -> Result<Started, AuthError>,
                                         finish: (seq<byte>, seq<byte>, seq<byte>, seq<byte>)
                                                 -> Result<seq<byte>, AuthError>)

  datatype Config = Config(keyId: seq<byte>, accepted: seq<seq<byte>>, protocol: LoginProtocol, capacity: nat, ttl: nat)

  /** What `begin_login` has in hand when it reaches the store. */
  function Prepare(c: Config, r: BeginRequest): Result<(Envelope, BoundLoginState), ServiceError> {
    match IntoMessage(r.envelope, CredentialRequest, c.accepted)
    case Failure(error) => Failure(Auth(error))
    case Success(message) =>
      match c.protocol.start(r, message)
      case Failure(error) => Failure(Auth(error))
      case Success(started) =>
        match NewEnvelope(CredentialResponse, c.keyId, started.response)
        case Failure(error) => Failure(Auth(error))
        case Success(response) =>
          match NewBoundLoginState(Package(started.state), r.client, r.server)
          case Failure(error) => Failure(StoreFailed(error))
          case Success(bound) => Success((response, bound))
  }

  function Finalize(c: Config, bound: BoundLoginState, message: seq<byte>): Result<seq<byte>, ServiceError> {
    match Unpackage(bound.state)
    case Failure(error) => Failure(Auth(error))
    case Success(state) =>
      match c.protocol.finish(state, message, bound.client, bound.server)
      case Failure(error) => Failure(Auth(error))
      case Success(secret) => Success(secret)
  }

  class ServerAuthService {
    const config: Config
    const store: InMemoryOneTimeLoginStore

    ghost predicate Valid() {
      store.maxEntries == config.capacity && store.ttl == config.ttl
    }

    constructor (config: Config, store: InMemoryOneTimeLoginStore)
      requires store.maxEntries == config.capacity && store.ttl == config.ttl
      ensures Valid() && this.config == config && this.store == store
    {
      this.config := config;
      this.store := store;
    }

    /** The accepted keys: the active one first, then the previous ones in order, no key twice. */
    static method AcceptedKeys(active: seq<byte>, previous: seq<seq<byte>>)
      returns (r: Result<seq<seq<byte>>, ServiceError>)
      ensures !ValidKeyId(active) ==> r == Failure(InvalidServerKeyId)
      ensures ValidKeyId(active) ==>
                if |previous| + 1 <= MAX_SERVER_KEY_IDS && (forall i :: 0 <= i < |previous| ==> ValidKeyId(previous[i]))
                   && Distinct([active] + previous)
                then r == Success([active] + previous)
                else r == Failure(InvalidServerKeySet)
    {
      if !ValidKeyId(active) {
        return Failure(InvalidServerKeyId);
      }
      if |previous| + 1 > MAX_SERVER_KEY_IDS {
        return Failure(InvalidServerKeySet);
      }
      var accepted := [active];
      for i := 0 to |previous|
        invariant accepted == [active] + previous[..i] && Distinct(accepted)
        invariant forall j :: 0 <= j < i ==> ValidKeyId(previous[j])
      {
        var all := [active] + previous;
        assert all[i + 1] == previous[i] && all[..i + 1] == accepted;
        if !ValidKeyId(previous[i]) {
          return Failure(InvalidServerKeySet);
        }
        if previous[i] in accepted {
          return Failure(InvalidServerKeySet);
        }
        accepted := accepted + [previous[i]];
      }
      assert previous[..|previous|] == previous;
      return Success(accepted);
    }

    method BeginLogin(request: BeginRequest, now: int, handles: seq<Handle>)
      returns (r: Result<(Envelope, Handle), ServiceError>)
      requires Valid() && |handles| == HANDLE_ATTEMPTS
      modifies store
      ensures var op := ToOp(config, BeginCall(now, request, handles));
              var o := OneTime.Step(config.capacity, old(LoginView(store.entries)), op);
              && (op.Skip? ==> store.entries == old(store.entries) && r.Failure?)
              && LoginView(store.entries) == o.pending && r == BeginAnswer(config, request, o.reply)
    {
      var message := IntoMessage(request.envelope, CredentialRequest, config.accepted);
      if message.Failure? {
        return Failure(Auth(message.error));
      }
      var started := config.protocol.start(request, message.value);
      if started.Failure? {
        return Failure(Auth(started.error));
      }
      var response := NewEnvelope(CredentialResponse, config.keyId, started.value.response);
      if response.Failure? {
        return Failure(Auth(response.error));
      }
      var stateBytes := PackageServerLoginState(started.value.state);
      var bound := NewBoundLoginState(stateBytes, request.client, request.server);
      if bound.Failure? {
        return Failure(StoreFailed(bound.error));
      }
      hide OneTime.Step, Package;
      var handle := store.InsertStored(Bound(bound.value), now, handles);
      if handle.Failure? {
        return Failure(StoreFailed(handle.error));
      }
      return Success((response.value, handle.value));
    }

    method FinishLogin(finalization: Envelope, handle: Handle, now: int) returns (r: Result<seq<byte>, ServiceError>)
      requires Valid()
      modifies store
      ensures var op := ToOp(config, FinishCall(now, finalization, handle));
              var o := OneTime.Step(config.capacity, old(LoginView(store.entries)), op);
              && LoginView(store.entries) == o.pending && r == FinishAnswer(config, finalization, o.reply)
      ensures IntoMessage(finalization, CredentialFinalization, [config.keyId]).Failure? ==>
                store.entries == old(store.entries)
      ensures WellFormed(config, finalization) && handle in old(store.entries)
              && old(store.entries)[handle].expiresAt > now && old(store.entries)[handle].state.Unbound? ==>
                && r == Failure(StoreFailed(StateTypeMismatch))
                && LoginView(store.entries) == old(LoginView(store.entries))
    {
      var message := IntoMessage(finalization, CredentialFinalization, [config.keyId]);
      if message.Failure? {
        return Failure(Auth(message.error));
      }
      var pending := store.TakeBound(handle, now);
      if pending.Failure? {
        return Failure(StoreFailed(pending.error));
      }
      if pending.value.None? {
        return Failure(MissingLoginState);
      }
      r := Finalize(config, pending.value.value, message.value);
    }
  }

  // ---------------------------------------------------------------------
  // Whole runs

  datatype Call =
    | BeginCall(at: int, request: BeginRequest, handles: seq<Handle>)
    | FinishCall(at: int, finalization: Envelope, handle: Handle)

  type LoginOp = OneTime.Op<Handle, StateType, StoredState>

  /** What a call asks of the store; a call refused before it reaches the store asks nothing. */
  function ToOp(c: Config, call: Call): LoginOp {
    match call
    case BeginCall(at, request, handles) =>
      (match Prepare(c, request)
       case Failure(_) => OneTime.Skip(at)
       case Success(ready) =>
         if |ready.1.state| > MAX_STORED_STATE_BYTES then OneTime.Skip(at)
         else OneTime.Insert(at, handles, BoundType, Bound(ready.1), c.ttl))
    case FinishCall(at, finalization, handle) =>
      (match IntoMessage(finalization, CredentialFinalization, [c.keyId])
       case Failure(_) => OneTime.Skip(at)
       case Success(_) => OneTime.Take(at, handle, BoundType))
  }

  function ToOps(c: Config, calls: seq<Call>): (ops: seq<LoginOp>)
    ensures |ops| == |calls|
  {
    seq(|calls|, i requires 0 <= i < |calls| => ToOp(c, calls[i]))
  }

  /** What `begin_login` answers when the store replies `reply`. */
  function BeginAnswer(c: Config, request: BeginRequest, reply: OneTime.Reply<Handle, StoredState>)
    : (r: Result<(Envelope, Handle), ServiceError>)
    ensures r.Success? ==> reply == OneTime.Inserted(r.value.1)
                           && r.value.0.kind == CredentialResponse && r.value.0.keyId == c.keyId
  {
    match Prepare(c, request)
    case Failure(error) => Failure(error)
    case Success(ready) =>
      if |ready.1.state| > MAX_STORED_STATE_BYTES then Failure(StoreFailed(StateTooLarge))
      else
        match StoreAnswer(reply)
        case Failure(error) => Failure(StoreFailed(error))
        case Success(handle) => Success((ready.0, handle))
  }

  /** What `finish_login` answers when the store replies `reply`. */
  function FinishAnswer(c: Config, finalization: Envelope, reply: OneTime.Reply<Handle, StoredState>)
    : Result<seq<byte>, ServiceError>
  {
    match IntoMessage(finalization, CredentialFinalization, [c.keyId])
    case Failure(error) => Failure(Auth(error))
    case Success(message) =>
      match reply
      case Taken(stored) =>
        if stored.Bound? then Finalize(c, stored.bound, message) else Failure(StoreFailed(Unavailable))
      case WrongKind => Failure(StoreFailed(StateTypeMismatch))
      case _ => Failure(MissingLoginState)
  }

  function AnswerAt(c: Config, calls: seq<Call>, j: nat): Result<seq<byte>, ServiceError>
    requires j < |calls| && calls[j].FinishCall?
  {
    FinishAnswer(c, calls[j].finalization, OneTime.ReplyAt(c.capacity, ToOps(c, calls), j))
  }

  /** The begin call that a successful finish completes. */
  function BeginOf(c: Config, calls: seq<Call>, j: nat): nat
    requires j < |calls| && ToOps(c, calls)[j].Take?
  {
    OneTime.Origin(c.capacity, ToOps(c, calls), j)
  }

  /**
   A successful finish completes an earlier begin: the secret comes from that
   begin's protocol state and its own two identifiers, and it is not expired.
   */
  lemma FinishCompletesBegin(c: Config, calls: seq<Call>, j: nat)
    requires j < |calls| && calls[j].FinishCall? && AnswerAt(c, calls, j).Success?
    ensures ToOps(c, calls)[j].Take?
    ensures var i := BeginOf(c, calls, j);
            && i < j && calls[i].BeginCall?
            && OneTime.ReplyAt(c.capacity, ToOps(c, calls), i) == OneTime.Inserted(calls[j].handle)
            && calls[j].at < calls[i].at + c.ttl
            && calls[i].request.envelope.kind == CredentialRequest && calls[i].request.envelope.keyId in c.accepted
            && var started := c.protocol.start(calls[i].request, calls[i].request.envelope.payload);
            && started.Success?
            && c.protocol.finish(started.value.state, calls[j].finalization.payload,
                                calls[i].request.client, calls[i].request.server)
               == Success(AnswerAt(c, calls, j).value)
            && calls[j].finalization.keyId == c.keyId
  {
    hide OneTime.ReplyAt, OneTime.Origin, Package, Unpackage;
    var ops := ToOps(c, calls);
    assert ops[j].Take? && OneTime.ReplyAt(c.capacity, ops, j).Taken?;
    OneTime.TakeIsFaithful(c.capacity, ops, j);
    var i := BeginOf(c, calls, j);
    assert ops[i] == ToOp(c, calls[i]) && calls[i].BeginCall?;
    var started := c.protocol.start(calls[i].request, calls[i].request.envelope.payload);
    var bound := ops[i].value.bound;
    assert bound == BoundLoginState(Package(started.value.state), calls[i].request.client, calls[i].request.server);
    UnpackageAcceptsExactlyPackages(bound.state, Unpackage(bound.state).value);
    PackageInjective(started.value.state, Unpackage(bound.state).value);
  }

  lemma PackageInjective(a: seq<byte>, b: seq<byte>)
    requires Package(a) == Package(b)
    ensures a == b
  {
    PackageLayout(a);
    PackageLayout(b);
  }

  /** Two successful finishes never complete the same begin. */
  lemma FinishesAreInjective(c: Config, calls: seq<Call>, j: nat, k: nat)
    requires j < k < |calls| && calls[j].FinishCall? && calls[k].FinishCall?
    requires AnswerAt(c, calls, j).Success? && AnswerAt(c, calls, k).Success?
    ensures ToOps(c, calls)[j].Take? && ToOps(c, calls)[k].Take?
    ensures BeginOf(c, calls, j) != BeginOf(c, calls, k)
  {
    hide OneTime.ReplyAt, OneTime.Origin, Finalize;
    OneTime.TakenAtMostOnce(c.capacity, ToOps(c, calls), j, k);
  }

  /** A finalization refused for its version, suite, kind or key leaves every pending login in place. */
  lemma RefusedFinishKeepsState(c: Config, calls: seq<Call>, j: nat)
    requires j < |calls| && calls[j].FinishCall?
    ensures var e, ops := calls[j].finalization, ToOps(c, calls);
            e.version != PROTOCOL_VERSION || e.suite != CIPHER_SUITE_ID || e.kind != CredentialFinalization
            || e.keyId != c.keyId ==>
              && OneTime.StateAt(c.capacity, ops, j + 1) == OneTime.StateAt(c.capacity, ops, j)
              && AnswerAt(c, calls, j).Failure? && AnswerAt(c, calls, j).error.Auth?
  {
    hide OneTime.ReplyAt;
    var ops := ToOps(c, calls);
    assert ops[j] == ToOp(c, calls[j]);
    if ops[j].Skip? {
      SkipKeepsState(c.capacity, ops, j);
    }
  }

  lemma SkipKeepsState(capacity: nat, ops: seq<LoginOp>, j: nat)
    requires j < |ops| && ops[j].Skip?
    ensures OneTime.StateAt(capacity, ops, j + 1) == OneTime.StateAt(capacity, ops, j)
  {
  }

  // ---------------------------------------------------------------------
  // What every answer means

  ghost predicate OrderedCalls(calls: seq<Call>) {
    forall i, j :: 0 <= i < j < |calls| ==> calls[i].at <= calls[j].at
  }

  /** A finalization that the checks before the store let through. */
  predicate WellFormed(c: Config, e: Envelope) {
    e.version == 1 && e.suite == CIPHER_SUITE_ID && e.kind == CredentialFinalization && e.keyId == c.keyId
  }

  function BeginAnswerAt(c: Config, calls: seq<Call>, i: nat): Result<(Envelope, Handle), ServiceError>
    requires i < |calls| && calls[i].BeginCall?
  {
    BeginAnswer(c, calls[i].request, OneTime.ReplyAt(c.capacity, ToOps(c, calls), i))
  }

  /**
   Begin `i` was answered with handle `h`, its state has not expired by `now`,
   and no well-formed finish of `h` came before call `j`.
   */
  ghost predicate PendingLogin(c: Config, calls: seq<Call>, i: nat, j: nat, h: Handle, now: int)
    requires j <= |calls|
  {
    && i < j && calls[i].BeginCall? && BeginAnswerAt(c, calls, i).Success? && BeginAnswerAt(c, calls, i).value.1 == h
    && now < calls[i].at + c.ttl
    && forall k :: i < k < j ==>
                     !(calls[k].FinishCall? && calls[k].handle == h && WellFormed(c, calls[k].finalization))
  }

  lemma AnsweredMeansInserted(c: Config, call: Call, reply: OneTime.Reply<Handle, StoredState>, h: Handle)
    requires call.BeginCall?
    ensures var answer := BeginAnswer(c, call.request, reply);
            answer.Success? && answer.value.1 == h <==> ToOp(c, call).Insert? && reply == OneTime.Inserted(h)
  {
    hide Prepare;
  }

  lemma InsertedIsAnswered(c: Config, calls: seq<Call>, i: nat, h: Handle)
    requires i < |calls|
    ensures var op, reply := ToOps(c, calls)[i], OneTime.ReplyAt(c.capacity, ToOps(c, calls), i);
            && op == ToOp(c, calls[i])
            && (op.Insert? ==> calls[i].BeginCall? && op.ttl == c.ttl && op.tag == BoundType && op.at == calls[i].at)
            && (calls[i].BeginCall? ==>
                  (BeginAnswerAt(c, calls, i).Success? && BeginAnswerAt(c, calls, i).value.1 == h
                   <==> op.Insert? && reply == OneTime.Inserted(h)))
  {
    hide Prepare, OneTime.ReplyAt, BeginAnswer;
    if calls[i].BeginCall? {
      AnsweredMeansInserted(c, calls[i], OneTime.ReplyAt(c.capacity, ToOps(c, calls), i), h);
    }
  }

  lemma TakesAreFinishes(c: Config, calls: seq<Call>, k: nat, h: Handle)
    requires k < |calls|
    ensures var op := ToOps(c, calls)[k];
            && (op.Take? && op.handle == h
                <==> calls[k].FinishCall? && calls[k].handle == h && WellFormed(c, calls[k].finalization))
            && (op.Take? ==> op.tag == BoundType && op.at == calls[k].at)
  {
    hide Prepare;
  }

  lemma OpsAreOrdered(c: Config, calls: seq<Call>)
    requires OrderedCalls(calls)
    ensures OneTime.Ordered(ToOps(c, calls))
    ensures forall i :: 0 <= i < |calls| ==> ToOps(c, calls)[i].at == calls[i].at
  {
    hide Prepare, IntoMessage;
    assert forall i :: 0 <= i < |calls| ==> ToOp(c, calls[i]).at == calls[i].at;
  }

  lemma PendingIsOutstanding(c: Config, calls: seq<Call>, i: nat, j: nat, h: Handle, now: int)
    requires OrderedCalls(calls) && j <= |calls| && forall k :: 0 <= k < j ==> calls[k].at <= now
    ensures PendingLogin(c, calls, i, j, h, now) <==> OneTime.Outstanding(c.capacity, ToOps(c, calls), i, j, h, now)
  {
    hide ToOps, OneTime.ReplyAt, BeginAnswerAt, WellFormed;
    var ops := ToOps(c, calls);
    OpsAreOrdered(c, calls);
    if i < j {
      InsertedIsAnswered(c, calls, i, h);
    }
    if PendingLogin(c, calls, i, j, h, now) {
      forall k | i < k < j ensures !OneTime.TakesAt(c.capacity, ops, k, h) {
        TakesAreFinishes(c, calls, k, h);
      }
    }
    if OneTime.Outstanding(c.capacity, ops, i, j, h, now) {
      forall k | i < k < j
        ensures !(calls[k].FinishCall? && calls[k].handle == h && WellFormed(c, calls[k].finalization))
      {
        TakesAreFinishes(c, calls, k, h);
        OneTime.OutstandingIsUntried(c.capacity, ops, i, j, h, now, k);
      }
    }
  }

  /** What a begin that reached the store had in hand. */
  lemma InsertedState(c: Config, call: Call)
    requires ToOp(c, call).Insert?
    ensures call.BeginCall?
    ensures var started := c.protocol.start(call.request, call.request.envelope.payload);
            && started.Success? && |started.value.state| <= MAX_MESSAGE_BYTES
            && ToOp(c, call).value == Bound(BoundLoginState(Package(started.value.state), call.request.client,
                                                            call.request.server))
  {
    hide Package, NewEnvelope;
    var started := c.protocol.start(call.request, call.request.envelope.payload);
    if started.Success? {
      PackageLayout(started.value.state);
    }
  }

  lemma FinalizeStored(c: Config, state: seq<byte>, client: seq<byte>, server: seq<byte>, message: seq<byte>)
    requires |state| <= MAX_MESSAGE_BYTES
    ensures Finalize(c, BoundLoginState(Package(state), client, server), message)
            == if state == [] then Failure(Auth(EmptyMessage))
               else match c.protocol.finish(state, message, client, server) {
                      case Success(secret) => Success(secret)
                      case Failure(error) => Failure(Auth(error))
                    }
  {
    PackageLayout(state);
    UnpackageAcceptsExactlyPackages(Package(state), state);
  }

  lemma FinishReply(c: Config, calls: seq<Call>, j: nat)
    requires j < |calls| && calls[j].FinishCall? && WellFormed(c, calls[j].finalization)
    ensures var reply := OneTime.ReplyAt(c.capacity, ToOps(c, calls), j);
            && (reply == OneTime.Missing ==> AnswerAt(c, calls, j) == Failure(MissingLoginState))
            && (reply.Taken? && reply.value.Bound? ==>
                  AnswerAt(c, calls, j) == Finalize(c, reply.value.bound, calls[j].finalization.payload))
  {
    hide Finalize, OneTime.ReplyAt, ToOps;
  }

  /**
   Every finish is answered from the history of calls alone, with a clock that
   does not go back. A malformed finalization is refused for its first defect.
   A well-formed one whose handle is pending gets what the protocol makes of
   that begin's own state and identifiers; any other one has no login state.
   */
  lemma FinishAnsweredExactly(c: Config, calls: seq<Call>, j: nat)
    requires OrderedCalls(calls) && j < |calls| && calls[j].FinishCall?
    ensures var e, answer := calls[j].finalization, AnswerAt(c, calls, j);
            && (!WellFormed(c, e) ==>
                  answer == Failure(Auth(if e.version != 1 then UnsupportedVersion
                                         else if e.suite != CIPHER_SUITE_ID then UnsupportedSuite
                                         else if e.kind != CredentialFinalization then UnexpectedMessageKind
                                         else UnexpectedServerKey)))
            && (WellFormed(c, e) && (forall i: nat :: !PendingLogin(c, calls, i, j, calls[j].handle, calls[j].at)) ==>
                  answer == Failure(MissingLoginState))
    ensures forall i: nat :: WellFormed(c, calls[j].finalization)
                             && PendingLogin(c, calls, i, j, calls[j].handle, calls[j].at) ==>
              var begun, e, answer := calls[i].request, calls[j].finalization, AnswerAt(c, calls, j);
              var started := c.protocol.start(begun, begun.envelope.payload);
              && started.Success?
              && answer == if started.value.state == [] then Failure(Auth(EmptyMessage))
                           else match c.protocol.finish(started.value.state, e.payload, begun.client, begun.server) {
                                  case Success(secret) => Success(secret)
                                  case Failure(error) => Failure(Auth(error))
                                }
  {
    var e, h, now := calls[j].finalization, calls[j].handle, calls[j].at;
    if WellFormed(c, e) {
      hide ToOps, Finalize, AnswerAt, OneTime.ReplyAt, OneTime.Outstanding, WellFormed, PendingLogin;
      var ops := ToOps(c, calls);
      OpsAreOrdered(c, calls);
      TakesAreFinishes(c, calls, j, h);
      OneTime.TakeExactly(c.capacity, ops, j);
      FinishReply(c, calls, j);
      forall i: nat ensures PendingLogin(c, calls, i, j, h, now) <==> OneTime.Outstanding(c.capacity, ops, i, j, h, now)
      {
        PendingIsOutstanding(c, calls, i, j, h, now);
      }
      forall i: nat | PendingLogin(c, calls, i, j, h, now)
        ensures i < j && calls[i].BeginCall?
        ensures var begun := calls[i].request;
                var started := c.protocol.start(begun, begun.envelope.payload);
                && started.Success?
                && AnswerAt(c, calls, j)
                   == if started.value.state == [] then Failure(Auth(EmptyMessage))
                      else match c.protocol.finish(started.value.state, e.payload, begun.client, begun.server) {
                             case Success(secret) => Success(secret)
                             case Failure(error) => Failure(Auth(error))
                           }
      {
        OneTime.OutstandingIsFresh(c.capacity, ops, i, j, h, now);
        InsertedIsAnswered(c, calls, i, h);
        InsertedState(c, calls[i]);
        var begun := calls[i].request;
        var state := c.protocol.start(begun, begun.envelope.payload).value.state;
        FinalizeStored(c, state, begun.client, begun.server, e.payload);
      }
    }
  }

  /** The handles of the logins that are pending when call `j` is made at `now`. */
  ghost function PendingHandles(c: Config, calls: seq<Call>, j: nat, now: int): set<Handle>
    requires j <= |calls|
  {
    set i: nat | i < j && calls[i].BeginCall? && BeginAnswerAt(c, calls, i).Success?
                 && PendingLogin(c, calls, i, j, BeginAnswerAt(c, calls, i).value.1, now) ::
      BeginAnswerAt(c, calls, i).value.1
  }

  lemma PendingHandlesAreInUse(c: Config, calls: seq<Call>, j: nat, now: int)
    requires OrderedCalls(calls) && j <= |calls| && forall k :: 0 <= k < j ==> calls[k].at <= now
    ensures PendingHandles(c, calls, j, now) == OneTime.InUse(c.capacity, ToOps(c, calls), j, now)
  {
    hide ToOps, OneTime.ReplyAt, BeginAnswerAt, PendingLogin, OneTime.Outstanding;
    var ops, held := ToOps(c, calls), PendingHandles(c, calls, j, now);
    forall h | h in held ensures h in OneTime.InUse(c.capacity, ops, j, now) {
      var i: nat :| i < j && calls[i].BeginCall? && BeginAnswerAt(c, calls, i).Success?
                    && BeginAnswerAt(c, calls, i).value.1 == h && PendingLogin(c, calls, i, j, h, now);
      InsertedIsAnswered(c, calls, i, h);
      PendingIsOutstanding(c, calls, i, j, h, now);
    }
    forall h | h in OneTime.InUse(c.capacity, ops, j, now) ensures h in held {
      var i: nat :| i < j && OneTime.ReplyAt(c.capacity, ops, i) == OneTime.Inserted(h)
                    && OneTime.Outstanding(c.capacity, ops, i, j, h, now);
      PendingIsOutstanding(c, calls, i, j, h, now);
      PendingIsAnswered(c, calls, i, j, h, now);
    }
  }

  lemma PendingIsAnswered(c: Config, calls: seq<Call>, i: nat, j: nat, h: Handle, now: int)
    requires j <= |calls| && PendingLogin(c, calls, i, j, h, now)
    ensures i < j && calls[i].BeginCall? && BeginAnswerAt(c, calls, i).Success?
    ensures BeginAnswerAt(c, calls, i).value.1 == h
  {
  }

  /** A begin whose message, response, identifiers and state are all in order, so that only the store can refuse it. */
  ghost predicate Startable(c: Config, r: BeginRequest) {
    && r.envelope.version == 1 && r.envelope.suite == CIPHER_SUITE_ID && r.envelope.kind == CredentialRequest
    && r.envelope.keyId in c.accepted && 1 <= |c.keyId| <= 128
    && 1 <= |r.client| <= 256 && 1 <= |r.server| <= 256
    && var started := c.protocol.start(r, r.envelope.payload);
    && started.Success? && 1 <= |started.value.response| <= MAX_MESSAGE_BYTES
    && |started.value.state| <= MAX_MESSAGE_BYTES
  }

  lemma StartableInserts(c: Config, call: Call)
    requires call.BeginCall? && Startable(c, call.request)
    ensures ToOp(c, call).Insert? && ToOp(c, call).handles == call.handles
    ensures forall h :: BeginAnswer(c, call.request, OneTime.Inserted(h))
                        == Success((Envelope(1, CIPHER_SUITE_ID, CredentialResponse, c.keyId,
                                             c.protocol.start(call.request, call.request.envelope.payload)
                                             .value.response), h))
    ensures BeginAnswer(c, call.request, OneTime.CapacityReached) == Failure(StoreFailed(StoreError.CapacityReached))
    ensures BeginAnswer(c, call.request, OneTime.HandleCollision) == Failure(StoreFailed(StoreError.HandleCollision))
  {
    hide Package;
    PackageLayout(c.protocol.start(call.request, call.request.envelope.payload).value.state);
  }

  /**
   A begin that is in order is answered from the history of calls alone: refused
   as full exactly when as many logins are pending as the store holds; else it
   gets the protocol's own response, under the active key, with the first of
   its handles that is not pending.
   */
  lemma BeginAnsweredExactly(c: Config, calls: seq<Call>, j: nat)
    requires OrderedCalls(calls) && j < |calls| && calls[j].BeginCall? && Startable(c, calls[j].request)
    ensures var used, answer := PendingHandles(c, calls, j, calls[j].at), BeginAnswerAt(c, calls, j);
            if |used| >= c.capacity then answer == Failure(StoreFailed(StoreError.CapacityReached))
            else if forall h :: h in calls[j].handles ==> h in used then
              answer == Failure(StoreFailed(StoreError.HandleCollision))
            else
              && answer.Success? && OneTime.FirstFree(calls[j].handles, used, answer.value.1)
              && answer.value.0 == Envelope(1, CIPHER_SUITE_ID, CredentialResponse, c.keyId,
                                            c.protocol.start(calls[j].request, calls[j].request.envelope.payload)
                                            .value.response)
  {
    hide OneTime.ReplyAt, PendingHandles, OneTime.InUse, OneTime.FirstFree, BeginAnswer, Startable;
    var ops := ToOps(c, calls);
    OpsAreOrdered(c, calls);
    StartableInserts(c, calls[j]);
    assert ops[j] == ToOp(c, calls[j]);
    PendingHandlesAreInUse(c, calls, j, calls[j].at);
    OneTime.InsertExactly(c.capacity, ops, j);
  }

  /** A begin that is not in order stores nothing and is refused for its first defect. */
  lemma BeginRefusedExactly(c: Config, calls: seq<Call>, j: nat)
    requires j < |calls| && calls[j].BeginCall? && !Startable(c, calls[j].request)
    ensures var e, started := calls[j].request.envelope, c.protocol.start(calls[j].request,
                                                                          calls[j].request.envelope.payload);
            var error := if e.version != 1 then Auth(UnsupportedVersion)
                         else if e.suite != CIPHER_SUITE_ID then Auth(UnsupportedSuite)
                         else if e.kind != CredentialRequest then Auth(UnexpectedMessageKind)
                         else if e.keyId !in c.accepted then Auth(UnexpectedServerKey)
                         else if started.Failure? then Auth(started.error)
                         else if !(1 <= |c.keyId| <= 128) then Auth(InvalidArgument)
                         else if started.value.response == [] then Auth(EmptyMessage)
                         else if |started.value.response| > MAX_MESSAGE_BYTES then Auth(MessageTooLarge)
                         else if |started.value.state| <= MAX_MESSAGE_BYTES
                                 || !(1 <= |calls[j].request.client| <= 256 && 1 <= |calls[j].request.server| <= 256)
                         then StoreFailed(InvalidIdentifier)
                         else StoreFailed(StateTooLarge);
            BeginAnswerAt(c, calls, j) == Failure(error)
    ensures OneTime.StateAt(c.capacity, ToOps(c, calls), j + 1) == OneTime.StateAt(c.capacity, ToOps(c, calls), j)
  {
    hide OneTime.ReplyAt, Package;
    var ops, r := ToOps(c, calls), calls[j].request;
    var started := c.protocol.start(r, r.envelope.payload);
    if started.Success? {
      PackageLayout(started.value.state);
    }
    assert ops[j] == OneTime.Skip(calls[j].at);
    SkipKeepsState(c.capacity, ops, j);
  }
}
