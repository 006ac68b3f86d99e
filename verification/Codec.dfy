/**
 The durable record formats: the packaged OPAQUE server state, the bound login
 record around it, the ceremony record, and the encrypted frame around both.
 */
module Codec {
  import opened Common
  import opened OneTimeMemory

  const MAX_RECORD_BYTES: nat := 32 * 1024
  const RECORD_HEADER_BYTES: nat := 4 + 2 + 4 + 2 + 2
  const PROTECTED_HEADER_BYTES: nat := 4 + 2 + 12
  const PROTECTED_TAG_BYTES: nat := 16
  const CEREMONY_RECORD_HEADER_BYTES: nat := 1 + 1 + 16 + 4
  const MAX_CEREMONY_RECORD_BYTES: nat := CEREMONY_RECORD_HEADER_BYTES + MAX_CEREMONY_STATE_BYTES

  const RECORD_MAGIC: seq<byte> := Ascii("SKBS")
  const RECORD_VERSION: nat := 1
  const SERVER_LOGIN_STATE_MAGIC: seq<byte> := Ascii("SKLS")
  const SERVER_LOGIN_STATE_VERSION: nat := 1
  const CIPHER_SUITE_ID: seq<byte> := Ascii("opaque-ke-4.0.1-ristretto255-tripledh-sha512-argon2")
  const CEREMONY_RECORD_VERSION: byte := 1

  function Ascii(s: string): (b: seq<byte>)
    ensures |b| == |s|
  {
    seq(|s|, i requires 0 <= i < |s| => if s[i] < 128 as char then s[i] as int else 0)
  }

  /** The least significant octet. */
  function Low(n: nat): (b: byte)
    ensures b == n % 256
  {
    var low: int := n % 256;
    low
  }

  function Le16(n: nat): (b: seq<byte>)
    requires n < 0x1_0000
    ensures |b| == 2 && Le16Value(b) == n
  {
    [Low(n), Low(n / 256)]
  }

  function Le16Value(b: seq<byte>): (n: nat)
    requires |b| == 2
    ensures n < 0x1_0000
  {
    b[0] as int + 256 * b[1] as int
  }

  function Le32(n: nat): (b: seq<byte>)
    requires n < 0x1_0000_0000
    ensures |b| == 4 && Le32Value(b) == n
  {
    Base256Value(n);
    [Low(n), Low(n / 256), Low(n / 65536), Low(n / 16777216)]
  }

  function Le32Value(b: seq<byte>): (n: nat)
    requires |b| == 4
    ensures n < 0x1_0000_0000
  {
    Base256Digits(Base256(b[0], b[1], b[2], b[3]), b[0], b[1], b[2], b[3]);
    Base256Digits(Base256(b[3], b[2], b[1], b[0]), b[3], b[2], b[1], b[0]);
    Base256(b[0], b[1], b[2], b[3])
  }

  function Be32(n: nat): (b: seq<byte>)
    requires n < 0x1_0000_0000
    ensures |b| == 4 && Be32Value(b) == n
  {
    Base256Value(n);
    [Low(n / 16777216), Low(n / 65536), Low(n / 256), Low(n)]
  }

  function Be32Value(b: seq<byte>): (n: nat)
    requires |b| == 4
    ensures n < 0x1_0000_0000
  {
    Base256Digits(Base256(b[0], b[1], b[2], b[3]), b[0], b[1], b[2], b[3]);
    Base256Digits(Base256(b[3], b[2], b[1], b[0]), b[3], b[2], b[1], b[0]);
    Base256(b[3], b[2], b[1], b[0])
  }

  function Base256(d0: int, d1: int, d2: int, d3: int): int {
    d0 + 256 * (d1 + 256 * (d2 + 256 * d3))
  }

  lemma Base256Digits(n: int, d0: int, d1: int, d2: int, d3: int)
    requires 0 <= d0 < 256 && 0 <= d1 < 256 && 0 <= d2 < 256 && 0 <= d3 < 256
    requires n == Base256(d0, d1, d2, d3)
    ensures 0 <= n < 0x1_0000_0000
    ensures n % 256 == d0 && n / 256 % 256 == d1 && n / 65536 % 256 == d2 && n / 16777216 % 256 == d3
  {
    var n1, n2 := d1 + 256 * (d2 + 256 * d3), d2 + 256 * d3;
    assert n / 256 == n1 && n1 / 256 == n2 && n2 / 256 == d3;
    assert n / 65536 == n2 && n / 16777216 == d3;
  }

  lemma Base256Value(n: nat)
    requires n < 0x1_0000_0000
    ensures Base256(n % 256, n / 256 % 256, n / 65536 % 256, n / 16777216 % 256) == n
  {
    assert n / 65536 == n / 256 / 256 && n / 16777216 == n / 256 / 256 / 256;
  }

  lemma IntegersAreExact(b: seq<byte>)
    ensures |b| == 2 ==> Le16(Le16Value(b)) == b
    ensures |b| == 4 ==> Le32(Le32Value(b)) == b && Be32(Be32Value(b)) == b
  {
    if |b| == 4 {
      Base256Digits(Le32Value(b), b[0], b[1], b[2], b[3]);
      Base256Digits(Be32Value(b), b[3], b[2], b[1], b[0]);
    }
  }

  // ---------------------------------------------------------------------
  // The packaged server login state

  datatype AuthError =
    | Protocol | InvalidSetup | InvalidCredentialFile | InvalidLogin | InvalidArgument | RequestBodyTooLarge
    | MalformedTransport | EmptyMessage | MessageTooLarge | UnsupportedVersion | UnsupportedSuite
    | UnexpectedMessageKind | UnexpectedServerKey

  const STATE_HEADER_BYTES: nat := 6 + CIPHER_SUITE_ID_BYTES

  function Package(serialized: seq<byte>): seq<byte> {
    SERVER_LOGIN_STATE_MAGIC + Le16(SERVER_LOGIN_STATE_VERSION) + CIPHER_SUITE_ID + serialized
  }

  method PackageServerLoginState(serialized: seq<byte>) returns (bytes: seq<byte>)
    ensures bytes == Package(serialized)
  {
    bytes := [];
    bytes := bytes + SERVER_LOGIN_STATE_MAGIC;
    bytes := bytes + Le16(SERVER_LOGIN_STATE_VERSION);
    bytes := bytes + CIPHER_SUITE_ID;
    bytes := bytes + serialized;
  }

  function Unpackage(bytes: seq<byte>): Result<seq<byte>, AuthError> {
    if |bytes| < STATE_HEADER_BYTES || bytes[..4] != SERVER_LOGIN_STATE_MAGIC then Failure(Protocol)
    else if Le16Value(bytes[4..6]) != SERVER_LOGIN_STATE_VERSION then Failure(UnsupportedVersion)
    else if bytes[6..STATE_HEADER_BYTES] != CIPHER_SUITE_ID then Failure(UnsupportedSuite)
    else if |bytes| == STATE_HEADER_BYTES then Failure(EmptyMessage)
    else if |bytes| - STATE_HEADER_BYTES > MAX_MESSAGE_BYTES then Failure(MessageTooLarge)
    else Success(bytes[STATE_HEADER_BYTES..])
  }

  lemma PackageLayout(serialized: seq<byte>)
    ensures var bytes := Package(serialized);
            && |bytes| == STATE_HEADER_BYTES + |serialized|
            && bytes[..4] == SERVER_LOGIN_STATE_MAGIC
            && bytes[4..6] == Le16(SERVER_LOGIN_STATE_VERSION)
            && bytes[6..STATE_HEADER_BYTES] == CIPHER_SUITE_ID
            && bytes[STATE_HEADER_BYTES..] == serialized
  {
  }

  /** Unpackaging accepts exactly the packaged non-empty states of at most one message. */
  lemma UnpackageAcceptsExactlyPackages(bytes: seq<byte>, serialized: seq<byte>)
    ensures Unpackage(bytes) == Success(serialized)
            <==> bytes == Package(serialized) && 1 <= |serialized| <= MAX_MESSAGE_BYTES
  {
    PackageLayout(serialized);
    if Unpackage(bytes).Success? {
      IntegersAreExact(bytes[4..6]);
      assert bytes == bytes[..4] + bytes[4..6] + bytes[6..STATE_HEADER_BYTES] + bytes[STATE_HEADER_BYTES..];
    }
  }

  // ---------------------------------------------------------------------
  // The bound login record

  /** The record of a state whose lengths fit the length fields. */
  function BoundRecord(b: BoundLoginState): seq<byte>
    requires |b.state| < 0x1_0000_0000 && |b.client| < 0x1_0000 && |b.server| < 0x1_0000
  {
    RECORD_MAGIC + Le16(RECORD_VERSION) + Le32(|b.state|) + Le16(|b.client|) + Le16(|b.server|)
    + b.state + b.client + b.server
  }

  predicate Encodable(b: BoundLoginState) {
    && |b.client| < 0x1_0000 && |b.server| < 0x1_0000 && |b.state| <= MAX_STORED_STATE_BYTES
    && RECORD_HEADER_BYTES + |b.state| + |b.client| + |b.server| <= MAX_RECORD_BYTES
  }

  method EncodeBoundState(b: BoundLoginState) returns (r: Result<seq<byte>, StoreError>)
    ensures r == if Encodable(b) then Success(BoundRecord(b)) else Failure(StateTooLarge)
  {
    if |b.client| >= 0x1_0000 || |b.server| >= 0x1_0000 {
      return Failure(StateTooLarge);
    }
    var total := RECORD_HEADER_BYTES + |b.state| + |b.client| + |b.server|;
    if |b.state| > MAX_STORED_STATE_BYTES || total > MAX_RECORD_BYTES {
      return Failure(StateTooLarge);
    }
    var encoded := RECORD_MAGIC;
    encoded := encoded + Le16(RECORD_VERSION);
    encoded := encoded + Le32(|b.state|);
    encoded := encoded + Le16(|b.client|);
    encoded := encoded + Le16(|b.server|);
    encoded := encoded + b.state;
    encoded := encoded + b.client;
    encoded := encoded + b.server;
    return Success(encoded);
  }

  function DecodeBoundState(e: seq<byte>): Result<BoundLoginState, StoreError> {
    if |e| < RECORD_HEADER_BYTES || |e| > MAX_RECORD_BYTES || e[..4] != RECORD_MAGIC
       || Le16Value(e[4..6]) != RECORD_VERSION then Failure(Unavailable)
    else
      var stateLen, clientLen, serverLen := Le32Value(e[6..10]), Le16Value(e[10..12]), Le16Value(e[12..14]);
      if stateLen == 0 || stateLen > MAX_STORED_STATE_BYTES
         || RECORD_HEADER_BYTES + stateLen + clientLen + serverLen != |e| then Failure(Unavailable)
      else
        var clientStart := RECORD_HEADER_BYTES + stateLen;
        var serverStart := clientStart + clientLen;
        match NewBoundLoginState(e[RECORD_HEADER_BYTES..clientStart], e[clientStart..serverStart], e[serverStart..])
        case Success(b) => Success(b)
        case Failure(_) => Failure(Unavailable)
  }

  lemma BoundRecordLayout(b: BoundLoginState)
    requires |b.state| < 0x1_0000_0000 && |b.client| < 0x1_0000 && |b.server| < 0x1_0000
    ensures var e, clientStart := BoundRecord(b), RECORD_HEADER_BYTES + |b.state|;
            && |e| == clientStart + |b.client| + |b.server|
            && e[..4] == RECORD_MAGIC && e[4..6] == Le16(RECORD_VERSION)
            && e[6..10] == Le32(|b.state|) && e[10..12] == Le16(|b.client|) && e[12..14] == Le16(|b.server|)
            && e[RECORD_HEADER_BYTES..clientStart] == b.state
            && e[clientStart..clientStart + |b.client|] == b.client
            && e[clientStart + |b.client|..] == b.server
  {
    hide Le16, Le32, Ascii;
    var e := BoundRecord(b);
    var header := RECORD_MAGIC + Le16(RECORD_VERSION) + Le32(|b.state|) + Le16(|b.client|) + Le16(|b.server|);
    assert e == header + (b.state + b.client + b.server);
    assert header[..4] == RECORD_MAGIC && header[4..6] == Le16(RECORD_VERSION);
    assert header[6..10] == Le32(|b.state|);
  }

  /** The checks a decoded record has passed, and where its parts come from. */
  lemma DecodedParts(e: seq<byte>)
    requires DecodeBoundState(e).Success?
    ensures RECORD_HEADER_BYTES <= |e| && e[..4] == RECORD_MAGIC && Le16Value(e[4..6]) == RECORD_VERSION
    ensures var b := DecodeBoundState(e).value;
            var clientStart := RECORD_HEADER_BYTES + |b.state|;
            && b.Valid() && 1 <= |b.state| <= MAX_STORED_STATE_BYTES
            && |b.state| == Le32Value(e[6..10])
            && |b.client| == Le16Value(e[10..12]) && |b.server| == Le16Value(e[12..14])
            && clientStart + |b.client| + |b.server| == |e| && b.state == e[RECORD_HEADER_BYTES..clientStart]
            && b.client == e[clientStart..clientStart + |b.client|] && b.server == e[clientStart + |b.client|..]
  {
    hide Le16Value, Le32Value, Ascii;
  }

  lemma ShortIsExact(b: seq<byte>, n: nat)
    requires |b| == 2 && Le16Value(b) == n
    ensures n < 0x1_0000 && Le16(n) == b
  {
    IntegersAreExact(b);
    hide Le16;
  }

  lemma LongIsExact(b: seq<byte>, n: nat)
    requires |b| == 4 && Le32Value(b) == n
    ensures n < 0x1_0000_0000 && Le32(n) == b
  {
    IntegersAreExact(b);
    hide Le32;
  }

  lemma ThreeParts(e: seq<byte>, from: nat, a: seq<byte>, b: seq<byte>, c: seq<byte>)
    requires from + |a| + |b| + |c| == |e| && a == e[from..from + |a|]
    requires b == e[from + |a|..from + |a| + |b|] && c == e[from + |a| + |b|..]
    ensures e[from..] == a + b + c
  {
  }

  /** What a decoded record looks like, field by field. */
  lemma DecodedFields(e: seq<byte>)
    requires DecodeBoundState(e).Success?
    ensures var b := DecodeBoundState(e).value;
            && b.Valid() && 1 <= |b.state| <= MAX_STORED_STATE_BYTES
            && e[..4] == RECORD_MAGIC && e[4..6] == Le16(RECORD_VERSION) && e[6..10] == Le32(|b.state|)
            && e[10..12] == Le16(|b.client|) && e[12..14] == Le16(|b.server|)
            && e[14..] == b.state + b.client + b.server
  {
    assert RECORD_HEADER_BYTES == 14;
    hide *;
    DecodedParts(e);
    var b := DecodeBoundState(e).value;
    ShortIsExact(e[4..6], RECORD_VERSION);
    LongIsExact(e[6..10], |b.state|);
    ShortIsExact(e[10..12], |b.client|);
    ShortIsExact(e[12..14], |b.server|);
    ThreeParts(e, 14, b.state, b.client, b.server);
  }

  /**
   The decoder accepts exactly the encoder's images of the states it may
   return: bounded, with a non-empty state and valid identifiers.
   */
  lemma DecodeAcceptsExactlyRecords(e: seq<byte>, b: BoundLoginState)
    ensures DecodeBoundState(e) == Success(b)
            <==> b.Valid() && 1 <= |b.state| <= MAX_STORED_STATE_BYTES && e == BoundRecord(b)
  {
    if b.Valid() && 1 <= |b.state| <= MAX_STORED_STATE_BYTES && e == BoundRecord(b) {
      BoundRecordLayout(b);
      hide Le16, Le32, Ascii, BoundRecord;
      assert DecodeBoundState(e) == Success(b);
    }
    if DecodeBoundState(e) == Success(b) {
      DecodedFields(e);
      hide Le16, Le32, Ascii, DecodeBoundState, Le16Value, Le32Value;
      assert e == e[..4] + e[4..6] + e[6..10] + e[10..12] + e[12..14] + e[14..];
      assert e == BoundRecord(b);
    }
  }

  /** No state the service can build fails the size bounds of the encoder. */
  lemma ConstructibleStatesAreEncodable(b: BoundLoginState)
    requires b.Valid() && |b.state| <= MAX_STORED_STATE_BYTES
    ensures Encodable(b)
    ensures RECORD_HEADER_BYTES <= |BoundRecord(b)| <= MAX_RECORD_BYTES
  {
    BoundRecordLayout(b);
  }

  // ---------------------------------------------------------------------
  // The ceremony record

  function KindTag(kind: CeremonyKind): byte {
    match kind
    case Registration => 1
    case Authentication => 2
  }

  function KindFromTag(tag: byte): Option<CeremonyKind> {
    if tag == 1 then Some(Registration) else if tag == 2 then Some(Authentication) else None
  }

  function CeremonyRecord(c: CeremonyState): seq<byte>
    requires |c.state| < 0x1_0000_0000
  {
    [CEREMONY_RECORD_VERSION, KindTag(c.kind)] + c.user + Be32(|c.state|) + c.state
  }

  method EncodeCeremonyRecord(kind: CeremonyKind, user: UserId, state: seq<byte>)
    returns (r: Result<seq<byte>, CeremonyError>)
    ensures r == match ValidateState(state) {
                   case Some(error) => Failure(error)
                   case None => Success(CeremonyRecord(CeremonyState(kind, user, state)))
                 }
  {
    var invalid := ValidateState(state);
    if invalid.Some? {
      return Failure(invalid.value);
    }
    var record: seq<byte> := [];
    record := record + [CEREMONY_RECORD_VERSION];
    record := record + [KindTag(kind)];
    record := record + user;
    record := record + Be32(|state|);
    record := record + state;
    assert record == CeremonyRecord(CeremonyState(kind, user, state));
    return Success(record);
  }

  function DecodeCeremonyRecord(e: seq<byte>): Result<CeremonyState, CeremonyError> {
    if |e| < CEREMONY_RECORD_HEADER_BYTES || |e| > MAX_CEREMONY_RECORD_BYTES || e[0] != CEREMONY_RECORD_VERSION
    then Failure(CeremonyInvalidState)
    else
      match KindFromTag(e[1])
      case None => Failure(CeremonyInvalidState)
      case Some(kind) =>
        var stateLen := Be32Value(e[18..22]);
        if stateLen == 0 || stateLen > MAX_CEREMONY_STATE_BYTES || |e| != CEREMONY_RECORD_HEADER_BYTES + stateLen
        then Failure(CeremonyInvalidState)
        else
          match ValidateState(e[22..])
          case Some(error) => Failure(error)
          case None => Success(CeremonyState(kind, e[2..18], e[22..]))
  }

  lemma CeremonyDecodeAcceptsExactlyRecords(e: seq<byte>, c: CeremonyState)
    ensures DecodeCeremonyRecord(e) == Success(c) <==> ValidateState(c.state).None? && e == CeremonyRecord(c)
  {
    if ValidateState(c.state).None? && e == CeremonyRecord(c) {
      CeremonyRecordDecodes(c);
    }
    if DecodeCeremonyRecord(e) == Success(c) {
      CeremonyDecodedFields(e);
      hide DecodeCeremonyRecord, Be32, ValidateState, KindTag;
      assert e == [e[0], e[1]] + e[2..18] + e[18..22] + e[22..];
    }
  }

  lemma CeremonyRecordDecodes(c: CeremonyState)
    requires ValidateState(c.state).None?
    ensures DecodeCeremonyRecord(CeremonyRecord(c)) == Success(c)
  {
    hide Be32, Be32Value;
    var r := CeremonyRecord(c);
    assert r[2..18] == c.user && r[18..22] == Be32(|c.state|) && r[22..] == c.state;
    assert r[0] == CEREMONY_RECORD_VERSION && r[1] == KindTag(c.kind);
  }

  lemma CeremonyDecodedFields(e: seq<byte>)
    requires DecodeCeremonyRecord(e).Success?
    ensures var c := DecodeCeremonyRecord(e).value;
            && ValidateState(c.state).None? && |e| == CEREMONY_RECORD_HEADER_BYTES + |c.state|
            && e[0] == CEREMONY_RECORD_VERSION && e[1] == KindTag(c.kind)
            && e[2..18] == c.user && e[18..22] == Be32(|c.state|) && e[22..] == c.state
  {
    hide Be32, Be32Value;
    IntegersAreExact(e[18..22]);
  }

  // ---------------------------------------------------------------------
  // The encrypted frame

  /** An authenticated cipher under one fixed key. */
  datatype Aead = Aead(seal: (seq<byte>, seq<byte>, seq<byte>) -> seq<byte>,
                       open: (seq<byte>, seq<byte>, seq<byte>) -> Option<seq<byte>>) {

    /** The tag adds 16 bytes and decryption undoes encryption. */
    ghost predicate Invertible() {
      forall nonce: seq<byte>, aad: seq<byte>, plain: seq<byte> ::
        |seal(nonce, aad, plain)| == |plain| + PROTECTED_TAG_BYTES
        && open(nonce, aad, seal(nonce, aad, plain)) == Some(plain)
    }

    /** Nothing but a ciphertext made with the same nonce and associated data opens. */
    ghost predicate Authentic() {
      forall nonce: seq<byte>, aad: seq<byte>, cipher: seq<byte> ::
        open(nonce, aad, cipher).Some? ==> seal(nonce, aad, open(nonce, aad, cipher).value) == cipher
    }
  }

  datatype FrameError = TooLarge | Malformed

  /** One adapter's frame: its magic, version, record bound and associated data. */
  datatype Frame = Frame(magic: seq<byte>, version: nat, maxRecord: nat, aadPrefix: seq<byte>, namespace: seq<byte>) {
    predicate Valid() {
      |magic| == 4 && version < 0x1_0000
    }

    function AssociatedData(): seq<byte> {
      aadPrefix + Ascii(":") + namespace
    }
  }

  const PROTECTED_MAGIC: seq<byte> := Ascii("SKPE")
  const PROTECTED_VERSION: nat := 2
  const PROTECTED_AAD: seq<byte> := Ascii("secure-keypad:opaque-login-state:v2")
  const CEREMONY_PROTECTED_MAGIC: seq<byte> := Ascii("SKWP")
  const CEREMONY_PROTECTED_VERSION: nat := 1
  const CEREMONY_PROTECTED_AAD: seq<byte> := Ascii("secure-keypad:webauthn-ceremony-state:v1")

  function LoginFrame(namespace: seq<byte>): Frame {
    Frame(PROTECTED_MAGIC, PROTECTED_VERSION, MAX_RECORD_BYTES, PROTECTED_AAD, namespace)
  }

  function CeremonyFrame(namespace: seq<byte>): Frame {
    Frame(CEREMONY_PROTECTED_MAGIC, CEREMONY_PROTECTED_VERSION, MAX_CEREMONY_RECORD_BYTES, CEREMONY_PROTECTED_AAD,
          namespace)
  }

  function MaxFrameBytes(f: Frame): nat {
    PROTECTED_HEADER_BYTES + PROTECTED_TAG_BYTES + f.maxRecord
  }

  function Framed(f: Frame, aead: Aead, nonce: seq<byte>, plain: seq<byte>): seq<byte>
    requires f.Valid()
  {
    f.magic + Le16(f.version) + nonce + aead.seal(nonce, f.AssociatedData(), plain)
  }

  method Seal(f: Frame, aead: Aead, nonce: seq<byte>, plain: seq<byte>) returns (r: Result<seq<byte>, FrameError>)
    requires f.Valid() && |nonce| == 12
    ensures |plain| == 0 || |plain| > f.maxRecord ==> r == Failure(TooLarge)
    ensures 1 <= |plain| <= f.maxRecord && aead.Invertible() ==> r == Success(Framed(f, aead, nonce, plain))
    ensures r.Success? ==> |r.value| <= MaxFrameBytes(f)
  {
    if |plain| == 0 || |plain| > f.maxRecord {
      return Failure(TooLarge);
    }
    var ciphertext := aead.seal(nonce, f.AssociatedData(), plain);
    var total := PROTECTED_HEADER_BYTES + |ciphertext|;
    if total > MaxFrameBytes(f) {
      return Failure(TooLarge);
    }
    var protected := f.magic;
    protected := protected + Le16(f.version);
    protected := protected + nonce;
    protected := protected + ciphertext;
    return Success(protected);
  }

  function Open(f: Frame, aead: Aead, e: seq<byte>): Result<seq<byte>, FrameError>
    requires f.Valid()
  {
    if |e| < PROTECTED_HEADER_BYTES + PROTECTED_TAG_BYTES || |e| > MaxFrameBytes(f)
       || e[..4] != f.magic || Le16Value(e[4..6]) != f.version then Failure(Malformed)
    else
      match aead.open(e[6..PROTECTED_HEADER_BYTES], f.AssociatedData(), e[PROTECTED_HEADER_BYTES..])
      case None => Failure(Malformed)
      case Some(plain) => Success(plain)
  }

  lemma FrameLayout(f: Frame, aead: Aead, nonce: seq<byte>, plain: seq<byte>)
    requires f.Valid() && |nonce| == 12
    ensures var e, cipher := Framed(f, aead, nonce, plain), aead.seal(nonce, f.AssociatedData(), plain);
            && |e| == PROTECTED_HEADER_BYTES + |cipher|
            && e[..4] == f.magic && e[4..6] == Le16(f.version)
            && e[6..PROTECTED_HEADER_BYTES] == nonce && e[PROTECTED_HEADER_BYTES..] == cipher
  {
  }

  lemma OpenUndoesSeal(f: Frame, aead: Aead, nonce: seq<byte>, plain: seq<byte>)
    requires f.Valid() && |nonce| == 12 && aead.Invertible() && |plain| <= f.maxRecord
    ensures Open(f, aead, Framed(f, aead, nonce, plain)) == Success(plain)
  {
    FrameLayout(f, aead, nonce, plain);
  }

  /** Whatever opens was sealed, under the nonce it carries and this frame's associated data. */
  lemma OpenAcceptsOnlyFrames(f: Frame, aead: Aead, e: seq<byte>)
    requires f.Valid() && aead.Authentic() && Open(f, aead, e).Success?
    ensures e == Framed(f, aead, e[6..PROTECTED_HEADER_BYTES], Open(f, aead, e).value)
  {
    IntegersAreExact(e[4..6]);
    assert e == e[..4] + e[4..6] + e[6..PROTECTED_HEADER_BYTES] + e[PROTECTED_HEADER_BYTES..];
  }

  // ---------------------------------------------------------------------
  // All layers together

  /**
   Packaging, encoding and sealing a login state never fails, and opening,
   decoding and unpackaging gives back the state and both identifiers.
   */
  lemma LoginStateSurvivesStorage(aead: Aead, namespace: seq<byte>, nonce: seq<byte>,
                                  serialized: seq<byte>, client: seq<byte>, server: seq<byte>)
    requires aead.Invertible() && |nonce| == 12
    requires 1 <= |serialized| <= MAX_MESSAGE_BYTES && ValidIdentifier(client) && ValidIdentifier(server)
    ensures var b, f := BoundLoginState(Package(serialized), client, server), LoginFrame(namespace);
            && b.Valid() && Encodable(b) && |BoundRecord(b)| <= f.maxRecord
            && |Framed(f, aead, nonce, BoundRecord(b))| <= MaxFrameBytes(f)
            && Open(f, aead, Framed(f, aead, nonce, BoundRecord(b))) == Success(BoundRecord(b))
            && DecodeBoundState(BoundRecord(b)) == Success(b)
            && Unpackage(b.state) == Success(serialized)
  {
    var b, f := BoundLoginState(Package(serialized), client, server), LoginFrame(namespace);
    PackageLayout(serialized);
    ConstructibleStatesAreEncodable(b);
    DecodeAcceptsExactlyRecords(BoundRecord(b), b);
    UnpackageAcceptsExactlyPackages(b.state, serialized);
    OpenUndoesSeal(f, aead, nonce, BoundRecord(b));
    FrameLayout(f, aead, nonce, BoundRecord(b));
  }

  lemma CeremonyStateSurvivesStorage(aead: Aead, namespace: seq<byte>, nonce: seq<byte>, c: CeremonyState)
    requires aead.Invertible() && |nonce| == 12 && ValidateState(c.state).None?
    ensures var f := CeremonyFrame(namespace);
            && 1 <= |CeremonyRecord(c)| <= f.maxRecord
            && |Framed(f, aead, nonce, CeremonyRecord(c))| <= MaxFrameBytes(f)
            && Open(f, aead, Framed(f, aead, nonce, CeremonyRecord(c))) == Success(CeremonyRecord(c))
            && DecodeCeremonyRecord(CeremonyRecord(c)) == Success(c)
  {
    var f := CeremonyFrame(namespace);
    CeremonyDecodeAcceptsExactlyRecords(CeremonyRecord(c), c);
    OpenUndoesSeal(f, aead, nonce, CeremonyRecord(c));
    FrameLayout(f, aead, nonce, CeremonyRecord(c));
  }
}
