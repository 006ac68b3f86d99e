/** The Redis adapters: handle attempts, sealing and decoding around the scripts. */
module RedisStores {
  import opened Common
  import opened Redis
  import opened RedisIndex
  import opened OneTimeRedis
  import opened OneTimeMemory
  import opened Codec
  import OneTime

  const REDIS_HANDLE_ATTEMPTS: nat := 8
  const MAX_LOGIN_TTL_MILLIS: nat := 15 * 60 * 1000
  const MAX_CEREMONY_TTL_MILLIS: nat := 15 * 60 * 1000
  const NANOS_PER_MILLI: nat := 1_000_000

  // ---------------------------------------------------------------------
  // Key names

  function LoginSpace(namespace: string): Space {
    Space(namespace + ":opaque:v1:login:", namespace + ":opaque:v1:login:pending", m => |m| == 64)
  }

  function KindName(kind: CeremonyKind): string {
    match kind
    case Registration => "registration"
    case Authentication => "authentication"
  }

  function CeremonyPrefix(namespace: string, kind: CeremonyKind): string {
    namespace + ":webauthn:v1:" + KindName(kind) + ":"
  }

  predicate StartsWith(s: string, prefix: string) {
    |prefix| <= |s| && s[..|prefix|] == prefix
  }

  /** The members of the ceremony index are whole key names. */
  function CeremonySpace(namespace: string): Space {
    Space("", namespace + ":webauthn:v1:pending",
          m => StartsWith(m, CeremonyPrefix(namespace, Registration))
               || StartsWith(m, CeremonyPrefix(namespace, Authentication)))
  }

  lemma SpacesAreWellNamed(namespace: string)
    ensures LoginSpace(namespace).WellNamed() && CeremonySpace(namespace).WellNamed()
  {
    var login, ceremony := LoginSpace(namespace), CeremonySpace(namespace);
    forall m | login.isMember(m) ensures login.Key(m) != login.index {
      assert |login.Key(m)| == |namespace| + 17 + 64;
    }
    var at := |namespace| + 13;
    assert ceremony.index[at] == ":webauthn:v1:pending"[13] == 'p';
    forall m | ceremony.isMember(m) ensures ceremony.Key(m) != ceremony.index {
      assert ceremony.Key(m) == m;
      if StartsWith(m, CeremonyPrefix(namespace, Registration)) {
        assert m[at] == CeremonyPrefix(namespace, Registration)[at] == 'r';
      } else {
        assert m[at] == CeremonyPrefix(namespace, Authentication)[at] == 'a';
      }
    }
  }

  function HexDigit(n: nat): char
    requires n < 16
  {
    "0123456789abcdef"[n]
  }

  function Hex(bytes: seq<byte>): (s: string)
    ensures |s| == 2 * |bytes|
  {
    if bytes == [] then ""
    else [HexDigit(bytes[0] / 16), HexDigit(bytes[0] % 16)] + Hex(bytes[1..])
  }

  lemma {:induction false} HexInjective(a: seq<byte>, b: seq<byte>)
    requires Hex(a) == Hex(b)
    ensures a == b
  {
    assert |a| == |b|;
    if a != [] {
      assert Hex(a)[..2] == Hex(b)[..2] && Hex(a)[2..] == Hex(b)[2..];
      assert Hex(a)[2..] == Hex(a[1..]) && Hex(b)[2..] == Hex(b[1..]);
      HexInjective(a[1..], b[1..]);
      HexDigitInjective(a[0] / 16, b[0] / 16);
      HexDigitInjective(a[0] % 16, b[0] % 16);
      assert Hex(a)[0] == HexDigit(a[0] / 16) && Hex(a)[1] == HexDigit(a[0] % 16);
      assert Hex(b)[0] == HexDigit(b[0] / 16) && Hex(b)[1] == HexDigit(b[0] % 16);
      assert a == [a[0]] + a[1..] && b == [b[0]] + b[1..];
    }
  }

  lemma HexDigitInjective(m: nat, n: nat)
    requires m < 16 && n < 16
    ensures HexDigit(m) == HexDigit(n) ==> m == n
  {
  }

  function CeremonyKey(namespace: string, kind: CeremonyKind, handle: Handle): string {
    CeremonyPrefix(namespace, kind) + Hex(handle)
  }

  /** The key names the kind as well as the handle. */
  lemma CeremonyKeyInjective(namespace: string, kind: CeremonyKind, handle: Handle,
                             kind2: CeremonyKind, handle2: Handle)
    requires CeremonyKey(namespace, kind, handle) == CeremonyKey(namespace, kind2, handle2)
    ensures kind == kind2 && handle == handle2
  {
    var a, b := CeremonyKey(namespace, kind, handle), CeremonyKey(namespace, kind2, handle2);
    assert a[|namespace| + 13] == KindName(kind)[0] && b[|namespace| + 13] == KindName(kind2)[0];
    assert Hex(handle) == a[|CeremonyPrefix(namespace, kind)|..];
    assert Hex(handle2) == b[|CeremonyPrefix(namespace, kind2)|..];
    HexInjective(handle, handle2);
  }

  /** The names of the keys, written out. */
  lemma KeyNames(namespace: string, handle: Handle, hash: string)
    ensures CeremonyKey(namespace, Registration, handle) == namespace + ":webauthn:v1:registration:" + Hex(handle)
    ensures CeremonyKey(namespace, Authentication, handle) == namespace + ":webauthn:v1:authentication:" + Hex(handle)
    ensures CeremonySpace(namespace).index == namespace + ":webauthn:v1:pending"
    ensures LoginSpace(namespace).Key(hash) == namespace + ":opaque:v1:login:" + hash
    ensures LoginSpace(namespace).index == namespace + ":opaque:v1:login:pending"
  {
    hide Hex;
    assert ":webauthn:v1:" + "registration" + ":" == ":webauthn:v1:registration:";
    assert ":webauthn:v1:" + "authentication" + ":" == ":webauthn:v1:authentication:";
    var r, a := KindName(Registration), KindName(Authentication);
    assert namespace + ":webauthn:v1:" + r + ":" == namespace + (":webauthn:v1:" + r + ":");
    assert namespace + ":webauthn:v1:" + a + ":" == namespace + (":webauthn:v1:" + a + ":");
  }

  lemma CeremonyKeyIsMember(namespace: string, kind: CeremonyKind, handle: Handle)
    ensures CeremonySpace(namespace).isMember(CeremonyKey(namespace, kind, handle))
  {
    assert StartsWith(CeremonyKey(namespace, kind, handle), CeremonyPrefix(namespace, kind));
  }

  // ---------------------------------------------------------------------
  // The adapters

  function LoginStore(namespace: string, capacity: nat, ttl: nat): Store {
    Store(LoginSpace(namespace), LoginScripts, capacity, ttl, MaxFrameBytes(LoginFrame(Ascii(namespace))))
  }

  function CeremonyStore(namespace: string): Store {
    Store(CeremonySpace(namespace), CeremonyScripts, MAX_PENDING_CEREMONIES, MAX_CEREMONY_TTL_MILLIS,
          MaxFrameBytes(CeremonyFrame(Ascii(namespace))))
  }

  /** The result of handing one value to the insert script under each of `members` until one is vacant. */
  ghost predicate InsertedSomewhere(st: Store, before: Records, after: Records, value: seq<byte>, expiresAt: int,
                                    members: seq<string>, i: nat)
    requires i < |members|
  {
    && |before| < st.capacity && members[i] !in before
    && (forall j :: 0 <= j < i ==> members[j] in before)
    && after == before[members[i] := OneTime.Record((), value, expiresAt)]
  }

  /** The effect of one insert script, case by case. */
  lemma InsertEffect(db: Db, now: int, st: Store, value: seq<byte>, ttl: nat, member: string)
    requires st.sp.WellNamed() && Sound(db, now, st) && st.sp.isMember(member)
    requires 1 <= ttl <= st.maxTtl && |value| <= st.maxBytes
    ensures var s, before := InsertScript(db, now, st, value, ttl, member), RecordsOf(db, now, st);
            && Sound(s.0, now, st)
            && if |before| >= st.capacity then s.1 == Full && RecordsOf(s.0, now, st) == before
               else if member in before then s.1 == Occupied && RecordsOf(s.0, now, st) == before
               else s.1 == Stored && RecordsOf(s.0, now, st) == before[member := OneTime.Record((), value, now + ttl)]
  {
    hide InsertScript, Sound, RecordsOf, OneTime.Purge;
    InsertRefines(db, now, st, value, ttl, member);
    RecordsAreLive(db, now, st);
    var before := RecordsOf(db, now, st);
    assert OneTime.FirstVacant(before, [member]) == if member in before then None else Some(member);
  }

  class Attempts {
    const scripts: Scripts

    constructor (scripts: Scripts)
      ensures this.scripts == scripts
    {
      this.scripts := scripts;
    }

    /** One run of the insert script, seen through the records the keyspace stands for. */
    method TryInsert(value: seq<byte>, ttl: nat, member: string) returns (status: InsertStatus)
      requires scripts.st.sp.WellNamed() && scripts.st.sp.isMember(member)
      requires Sound(scripts.server.db, scripts.server.now, scripts.st)
      requires 1 <= ttl <= scripts.st.maxTtl && |value| <= scripts.st.maxBytes
      modifies scripts.server`db
      ensures Sound(scripts.server.db, scripts.server.now, scripts.st)
      ensures var before, after := RecordsOf(old(scripts.server.db), scripts.server.now, scripts.st),
                                   RecordsOf(scripts.server.db, scripts.server.now, scripts.st);
              if |before| >= scripts.st.capacity then status == Full && after == before
              else if member in before then status == Occupied && after == before
              else status == Stored
                   && after == before[member := OneTime.Record((), value, scripts.server.now + ttl)]
    {
      hide InsertScript, Sound, RecordsOf;
      InsertEffect(scripts.server.db, scripts.server.now, scripts.st, value, ttl, member);
      status := scripts.Insert(value, ttl, member);
    }

    /** One run of the consume script, seen the same way. */
    method TryConsume(member: string) returns (value: Option<seq<byte>>)
      requires scripts.st.sp.WellNamed() && scripts.st.sp.isMember(member)
      requires Sound(scripts.server.db, scripts.server.now, scripts.st)
      modifies scripts.server`db
      ensures Sound(scripts.server.db, scripts.server.now, scripts.st)
      ensures var before, after := RecordsOf(old(scripts.server.db), scripts.server.now, scripts.st),
                                   RecordsOf(scripts.server.db, scripts.server.now, scripts.st);
              && after == before - {member}
              && value == if member in before then Some(before[member].value) else None
    {
      ConsumeRefines(scripts.server.db, scripts.server.now, scripts.st, member);
      KeyIsThere(scripts.server.db, scripts.server.now, scripts.st, member);
      hide ConsumeScript, Sound, RecordsOf, Lookup, Live;
      ghost var before := RecordsOf(scripts.server.db, scripts.server.now, scripts.st);
      assert member !in before ==> before - {member} == before;
      var status := scripts.Consume(member);
      match status {
        case Found(v) => value := Some(v);
        case Absent => value := None;
        case Broken => assert false;
      }
    }

    /** The loop over random handles that both adapters run. */
    method Insert(value: seq<byte>, ttl: nat, members: seq<string>) returns (status: InsertStatus, i: nat)
      requires scripts.st.sp.WellNamed() && forall j :: 0 <= j < |members| ==> scripts.st.sp.isMember(members[j])
      requires Sound(scripts.server.db, scripts.server.now, scripts.st)
      requires 1 <= ttl <= scripts.st.maxTtl && |value| <= scripts.st.maxBytes && 1 <= |members|
      modifies scripts.server`db
      ensures Sound(scripts.server.db, scripts.server.now, scripts.st)
      ensures var before, after := RecordsOf(old(scripts.server.db), scripts.server.now, scripts.st),
                                   RecordsOf(scripts.server.db, scripts.server.now, scripts.st);
              match status {
                case Stored => i < |members|
                               && InsertedSomewhere(scripts.st, before, after, value, scripts.server.now + ttl,
                                                    members, i)
                case Full => after == before && |before| >= scripts.st.capacity
                case Occupied => after == before && |before| < scripts.st.capacity
                                 && forall j :: 0 <= j < |members| ==> members[j] in before
                case _ => false
              }
    {
      hide Sound, RecordsOf;
      ghost var before := RecordsOf(scripts.server.db, scripts.server.now, scripts.st);
      i := 0;
      while i < |members|
        invariant 0 <= i <= |members|
        invariant Sound(scripts.server.db, scripts.server.now, scripts.st)
        invariant RecordsOf(scripts.server.db, scripts.server.now, scripts.st) == before
        invariant forall j :: 0 <= j < i ==> members[j] in before
        invariant 0 < i ==> |before| < scripts.st.capacity
      {
        status := TryInsert(value, ttl, members[i]);
        if status != Occupied {
          return;
        }
        i := i + 1;
      }
      status := Occupied;
    }
  }

  function OpenLogin(f: Frame, aead: Aead, value: seq<byte>): Result<BoundLoginState, StoreError>
    requires f.Valid()
  {
    match Open(f, aead, value)
    case Failure(_) => Failure(Unavailable)
    case Success(encoded) => DecodeBoundState(encoded)
  }

  class RedisOneTimeLoginStateStore {
    const namespace: string
    const scripts: Scripts
    const attempts: Attempts
    const aead: Aead
    const hash: Handle -> string

    ghost predicate Valid()
      reads scripts.server
    {
      && attempts.scripts == scripts && scripts.st.sp == LoginSpace(namespace)
      && scripts.st.flavour == LoginScripts && 1 <= scripts.st.maxTtl <= MAX_LOGIN_TTL_MILLIS
      && scripts.st.maxBytes == MaxFrameBytes(LoginFrame(Ascii(namespace)))
      && aead.Invertible() && (forall h: Handle :: |hash(h)| == 64)
      && Sound(scripts.server.db, scripts.server.now, scripts.st)
    }

    ghost function Pending(): Records
      reads scripts.server
    {
      RecordsOf(scripts.server.db, scripts.server.now, scripts.st)
    }

    constructor (server: Server, namespace: string, capacity: nat, ttl: nat, aead: Aead, hash: Handle -> string)
      requires aead.Invertible() && forall h: Handle :: |hash(h)| == 64
      requires 1 <= ttl <= MAX_LOGIN_TTL_MILLIS && Sound(server.db, server.now, LoginStore(namespace, capacity, ttl))
      ensures Valid() && scripts.server == server && scripts.st == LoginStore(namespace, capacity, ttl)
      ensures this.namespace == namespace && this.aead == aead && this.hash == hash
    {
      this.namespace := namespace;
      var made := new Scripts(server, LoginStore(namespace, capacity, ttl));
      scripts := made;
      attempts := new Attempts(made);
      this.aead := aead;
      this.hash := hash;
    }

    /** `handles` and `nonce` are the random draws of this call. */
    method InsertBound(b: BoundLoginState, nonce: seq<byte>, handles: seq<Handle>)
      returns (r: Result<Handle, StoreError>)
      requires Valid() && b.Valid() && |nonce| == 12 && |handles| == REDIS_HANDLE_ATTEMPTS
      modifies scripts.server`db
      ensures Valid()
      ensures |b.state| > MAX_STORED_STATE_BYTES ==> r == Failure(StateTooLarge)
      ensures r.Success? ==>
                && r.value in handles && |b.state| <= MAX_STORED_STATE_BYTES
                && hash(r.value) !in old(Pending())
                && Pending() == old(Pending())[hash(r.value) := OneTime.Record((),
                                  Framed(LoginFrame(Ascii(namespace)), aead, nonce, BoundRecord(b)),
                                  scripts.server.now + scripts.st.maxTtl)]
      ensures r.Failure? ==> Pending() == old(Pending())
      ensures |b.state| <= MAX_STORED_STATE_BYTES ==>
                && (r == Failure(StoreError.CapacityReached) <==> |old(Pending())| >= scripts.st.capacity)
                && (r == Failure(StoreError.HandleCollision) <==>
                      |old(Pending())| < scripts.st.capacity && forall h :: h in handles ==> hash(h) in old(Pending()))
    {
      hide Sound, RecordsOf, BoundRecord, Framed, Space.WellNamed;
      var encoded := EncodeBoundState(b);
      if encoded.Failure? {
        return Failure(encoded.error);
      }
      ConstructibleStatesAreEncodable(b);
      var frame := LoginFrame(Ascii(namespace));
      var protected := Seal(frame, aead, nonce, encoded.value);
      SpacesAreWellNamed(namespace);
      var members := seq(|handles|, i requires 0 <= i < |handles| => hash(handles[i]));
      var status, i := attempts.Insert(protected.value, scripts.st.maxTtl, members);
      match status {
        case Stored =>
          return Success(handles[i]);
        case Full =>
          return Failure(StoreError.CapacityReached);
        case BrokenIndex => assert false;
        case Aborted => assert false;
        case Occupied =>
          forall h | h in handles ensures hash(h) in old(Pending()) {
            var j :| 0 <= j < |handles| && handles[j] == h;
            assert members[j] == hash(h);
          }
          return Failure(StoreError.HandleCollision);
      }
    }

    method TakeBound(handle: Handle) returns (r: Result<Option<BoundLoginState>, StoreError>)
      requires Valid()
      modifies scripts.server`db
      ensures Valid() && Pending() == old(Pending()) - {hash(handle)}
      ensures hash(handle) !in old(Pending()) ==> r == Success(None)
      ensures hash(handle) in old(Pending()) ==>
                r == match OpenLogin(LoginFrame(Ascii(namespace)), aead, old(Pending())[hash(handle)].value) {
                       case Success(b) => Success(Some(b))
                       case Failure(error) => Failure(error)
                     }
    {
      hide Sound, RecordsOf, Open, DecodeBoundState;
      SpacesAreWellNamed(namespace);
      var protected := attempts.TryConsume(hash(handle));
      if protected.None? {
        return Success(None);
      }
      var encoded := Open(LoginFrame(Ascii(namespace)), aead, protected.value);
      if encoded.Failure? {
        return Failure(Unavailable);
      }
      var decoded := DecodeBoundState(encoded.value);
      if decoded.Failure? {
        return Failure(decoded.error);
      }
      return Success(Some(decoded.value));
    }
  }

  /** What `InsertBound` stores, `TakeBound` gives back. */
  lemma StoredLoginOpens(namespace: string, aead: Aead, nonce: seq<byte>, b: BoundLoginState)
    requires aead.Invertible() && |nonce| == 12 && b.Valid() && 1 <= |b.state| <= MAX_STORED_STATE_BYTES
    ensures OpenLogin(LoginFrame(Ascii(namespace)), aead,
                      Framed(LoginFrame(Ascii(namespace)), aead, nonce, BoundRecord(b))) == Success(b)
  {
    ConstructibleStatesAreEncodable(b);
    OpenUndoesSeal(LoginFrame(Ascii(namespace)), aead, nonce, BoundRecord(b));
    DecodeAcceptsExactlyRecords(BoundRecord(b), b);
  }

  lemma CeremonyRecordSize(c: CeremonyState)
    requires ValidateState(c.state).None?
    ensures 1 <= |CeremonyRecord(c)| <= MAX_CEREMONY_RECORD_BYTES
  {
  }

  function OpenCeremony(f: Frame, aead: Aead, value: seq<byte>): Result<CeremonyState, CeremonyError>
    requires f.Valid()
  {
    match Open(f, aead, value)
    case Failure(_) => Failure(CeremonyInvalidState)
    case Success(encoded) => DecodeCeremonyRecord(encoded)
  }

  lemma StoredCeremonyOpens(namespace: string, aead: Aead, nonce: seq<byte>, c: CeremonyState)
    requires aead.Invertible() && |nonce| == 12 && ValidateState(c.state).None?
    ensures OpenCeremony(CeremonyFrame(Ascii(namespace)), aead,
                         Framed(CeremonyFrame(Ascii(namespace)), aead, nonce, CeremonyRecord(c))) == Success(c)
  {
    CeremonyStateSurvivesStorage(aead, Ascii(namespace), nonce, c);
  }

  /** The key under each of the handles. */
  function CeremonyKeys(namespace: string, kind: CeremonyKind, handles: seq<Handle>): (keys: seq<string>)
    ensures |keys| == |handles|
    ensures forall i :: 0 <= i < |handles| ==> keys[i] == CeremonyKey(namespace, kind, handles[i])
    ensures forall i :: 0 <= i < |handles| ==> CeremonySpace(namespace).isMember(keys[i])
  {
    seq(|handles|, i requires 0 <= i < |handles| =>
                     CeremonyKeyIsMember(namespace, kind, handles[i]); CeremonyKey(namespace, kind, handles[i]))
  }

  lemma NoneVacant(namespace: string, kind: CeremonyKind, handles: seq<Handle>, pending: Records)
    requires forall i :: 0 <= i < |handles| ==> CeremonyKeys(namespace, kind, handles)[i] in pending
    ensures forall h :: h in handles ==> CeremonyKey(namespace, kind, h) in pending
  {
    forall h | h in handles ensures CeremonyKey(namespace, kind, h) in pending {
      var i :| 0 <= i < |handles| && handles[i] == h;
      assert CeremonyKeys(namespace, kind, handles)[i] in pending;
    }
  }

  class RedisWebAuthnStore {
    const namespace: string
    const scripts: Scripts
    const attempts: Attempts
    const aead: Aead

    ghost predicate Valid()
      reads scripts.server
    {
      && attempts.scripts == scripts && scripts.st == CeremonyStore(namespace) && aead.Invertible()
      && Sound(scripts.server.db, scripts.server.now, scripts.st)
    }

    ghost function Pending(): Records
      reads scripts.server
    {
      RecordsOf(scripts.server.db, scripts.server.now, scripts.st)
    }

    constructor (server: Server, namespace: string, aead: Aead)
      requires aead.Invertible() && Sound(server.db, server.now, CeremonyStore(namespace))
      ensures Valid() && scripts.server == server && this.namespace == namespace && this.aead == aead
    {
      this.namespace := namespace;
      var made := new Scripts(server, CeremonyStore(namespace));
      scripts := made;
      attempts := new Attempts(made);
      this.aead := aead;
    }

    /** The TTL has nanosecond resolution; Redis sees whole milliseconds. */
    method Insert(kind: CeremonyKind, user: UserId, state: seq<byte>, ttlNanos: nat, nonce: seq<byte>,
                  handles: seq<Handle>)
      returns (r: Result<Handle, CeremonyError>)
      requires Valid() && |nonce| == 12 && |handles| == REDIS_HANDLE_ATTEMPTS
      modifies scripts.server`db
      ensures Valid()
      ensures ttlNanos == 0 || ttlNanos > MAX_CEREMONY_TTL_MILLIS * NANOS_PER_MILLI ==> r == Failure(CeremonyInvalidTtl)
      ensures r.Failure? ==> Pending() == old(Pending())
      ensures r.Success? ==>
                && r.value in handles && ValidateState(state).None?
                && NANOS_PER_MILLI <= ttlNanos <= MAX_CEREMONY_TTL_MILLIS * NANOS_PER_MILLI
                && CeremonyKey(namespace, kind, r.value) !in old(Pending())
                && Pending() == old(Pending())[CeremonyKey(namespace, kind, r.value) := OneTime.Record((),
                                  Framed(CeremonyFrame(Ascii(namespace)), aead, nonce,
                                         CeremonyRecord(CeremonyState(kind, user, state))),
                                  scripts.server.now + ttlNanos / NANOS_PER_MILLI)]
      ensures NANOS_PER_MILLI <= ttlNanos <= MAX_CEREMONY_TTL_MILLIS * NANOS_PER_MILLI && ValidateState(state).None? ==>
                (r.Success? <==> |old(Pending())| < MAX_PENDING_CEREMONIES
                                 && exists h :: h in handles && CeremonyKey(namespace, kind, h) !in old(Pending()))
    {
      hide Sound, RecordsOf, CeremonyRecord, Framed;
      if ttlNanos == 0 || ttlNanos > MAX_CEREMONY_TTL_MILLIS * NANOS_PER_MILLI {
        return Failure(CeremonyInvalidTtl);
      }
      var ttl := ttlNanos / NANOS_PER_MILLI;
      if |state| > MAX_CEREMONY_STATE_BYTES {
        return Failure(CeremonyStateTooLarge);
      }
      var encoded := EncodeCeremonyRecord(kind, user, state);
      if encoded.Failure? {
        return Failure(encoded.error);
      }
      CeremonyRecordSize(CeremonyState(kind, user, state));
      var frame := CeremonyFrame(Ascii(namespace));
      var protected := Seal(frame, aead, nonce, encoded.value);
      SpacesAreWellNamed(namespace);
      assert ttlNanos >= NANOS_PER_MILLI <==> ttl >= 1;
      if ttl == 0 {
        r := FirstAttemptFails(protected.value, CeremonyKeys(namespace, kind, handles)[0]);
        return;
      }
      r := InsertSealed(kind, protected.value, ttl, handles);
    }

    /** The attempts, one handle after the other. */
    method InsertSealed(kind: CeremonyKind, value: seq<byte>, ttl: nat, handles: seq<Handle>)
      returns (r: Result<Handle, CeremonyError>)
      requires Valid() && CeremonySpace(namespace).WellNamed() && |handles| == REDIS_HANDLE_ATTEMPTS
      requires 1 <= ttl <= MAX_CEREMONY_TTL_MILLIS && |value| <= scripts.st.maxBytes
      modifies scripts.server`db
      ensures Valid()
      ensures r.Failure? ==> Pending() == old(Pending())
      ensures r.Success? ==>
                && r.value in handles && CeremonyKey(namespace, kind, r.value) !in old(Pending())
                && Pending() == old(Pending())[CeremonyKey(namespace, kind, r.value) :=
                                               OneTime.Record((), value, scripts.server.now + ttl)]
      ensures r.Success? <==> |old(Pending())| < MAX_PENDING_CEREMONIES
                              && exists h :: h in handles && CeremonyKey(namespace, kind, h) !in old(Pending())
    {
      hide Sound, RecordsOf, CeremonyKey, CeremonySpace;
      var members := CeremonyKeys(namespace, kind, handles);
      var status, i := attempts.Insert(value, ttl, members);
      match status {
        case Stored =>
          assert members[i] == CeremonyKey(namespace, kind, handles[i]);
          return Success(handles[i]);
        case Full =>
          return Failure(CeremonyCapacityReached);
        case BrokenIndex => assert false;
        case Aborted => assert false;
        case Occupied =>
          NoneVacant(namespace, kind, handles, old(Pending()));
          return Failure(CeremonyHandleCollision);
      }
    }

    /** With a TTL of zero milliseconds the first attempt already ends the call. */
    method FirstAttemptFails(value: seq<byte>, member: string) returns (r: Result<Handle, CeremonyError>)
      requires Valid() && scripts.st.sp.WellNamed() && scripts.st.sp.isMember(member)
      modifies scripts.server`db
      ensures Valid() && Pending() == old(Pending())
      ensures r == Failure(if |old(Pending())| < MAX_PENDING_CEREMONIES then CeremonyUnavailable
                           else CeremonyCapacityReached)
    {
      hide Sound, RecordsOf, InsertScript;
      ZeroTtlStoresNothing(scripts.server.db, scripts.server.now, scripts.st, value, member);
      var status := scripts.Insert(value, 0, member);
      if status == Full {
        return Failure(CeremonyCapacityReached);
      }
      return Failure(CeremonyUnavailable);
    }

    method Take(kind: CeremonyKind, handle: Handle) returns (r: Result<Option<CeremonyState>, CeremonyError>)
      requires Valid()
      modifies scripts.server`db
      ensures Valid() && Pending() == old(Pending()) - {CeremonyKey(namespace, kind, handle)}
      ensures var key := CeremonyKey(namespace, kind, handle);
              if key !in old(Pending()) then r == Success(None)
              else r == match OpenCeremony(CeremonyFrame(Ascii(namespace)), aead, old(Pending())[key].value) {
                          case Success(c) => Success(if c.kind == kind then Some(c) else None)
                          case Failure(error) => Failure(error)
                        }
    {
      var key := CeremonyKey(namespace, kind, handle);
      hide Sound, RecordsOf, Open, DecodeCeremonyRecord;
      SpacesAreWellNamed(namespace);
      CeremonyKeyIsMember(namespace, kind, handle);
      hide CeremonyKey;
      var protected := attempts.TryConsume(key);
      if protected.None? {
        return Success(None);
      }
      var encoded := Open(CeremonyFrame(Ascii(namespace)), aead, protected.value);
      if encoded.Failure? {
        return Failure(CeremonyInvalidState);
      }
      var state := DecodeCeremonyRecord(encoded.value);
      if state.Failure? {
        return Failure(state.error);
      }
      if state.value.kind != kind {
        return Success(None);
      }
      return Success(Some(state.value));
    }
  }
}
