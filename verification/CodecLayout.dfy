/**
 What the stored bytes are, octet by octet, and what the encrypted frame is
 bound to: a frame opens under the store and the namespace it was sealed for
 and under no other.
 */
module CodecLayout {
  import opened Common
  import opened OneTimeMemory
  import opened Codec

  lemma AsciiAt(s: string, i: nat)
    requires i < |s| && s[i] < 128 as char
    ensures Ascii(s)[i] == s[i] as int
  {
  }

  lemma LittleEndian(n: nat)
    ensures n < 0x1_0000 ==> Le16(n) == [Low(n), Low(n / 256)]
    ensures n < 0x1_0000_0000 ==> Le32(n) == [Low(n), Low(n / 256), Low(n / 65536), Low(n / 16777216)]
    ensures n < 0x1_0000_0000 ==> Be32(n) == [Low(n / 16777216), Low(n / 65536), Low(n / 256), Low(n)]
  {
  }

  lemma Versions()
    ensures Le16(1) == [1, 0] && Le16(2) == [2, 0]
  {
  }

  lemma Magics()
    ensures RECORD_MAGIC == [0x53, 0x4B, 0x42, 0x53]
    ensures SERVER_LOGIN_STATE_MAGIC == [0x53, 0x4B, 0x4C, 0x53]
    ensures PROTECTED_MAGIC == [0x53, 0x4B, 0x50, 0x45] && CEREMONY_PROTECTED_MAGIC == [0x53, 0x4B, 0x57, 0x50]
  {
  }

  /** The packaged state: `SKLS`, version 1 in little-endian order, the suite's name, the state. */
  lemma PackageBytes(serialized: seq<byte>)
    ensures var e := Package(serialized);
            && |e| == 57 + |serialized|
            && e[..6] == [0x53, 0x4B, 0x4C, 0x53, 1, 0]
            && e[6..57] == Ascii("opaque-ke-4.0.1-ristretto255-tripledh-sha512-argon2")
            && e[57..] == serialized
  {
    Magics();
    PackageVersion();
    PackageLayout(serialized);
    hide *;
    var e := Package(serialized);
    assert e[..6] == e[..4] + e[4..6];
  }

  lemma PackageVersion()
    ensures STATE_HEADER_BYTES == 57 && Le16(SERVER_LOGIN_STATE_VERSION) == [1, 0]
    ensures CIPHER_SUITE_ID == Ascii("opaque-ke-4.0.1-ristretto255-tripledh-sha512-argon2")
  {
    Versions();
    hide Ascii, Le16;
  }

  /** What a package with a wrong field is refused as, the fields taken in their order. */
  lemma UnpackageRefusals(version: seq<byte>, suite: seq<byte>, state: seq<byte>)
    requires |version| == 2 && |suite| == 51
    ensures var e := SERVER_LOGIN_STATE_MAGIC + version + suite + state;
            && (version != [1, 0] ==> Unpackage(e) == Failure(UnsupportedVersion))
            && (version == [1, 0] && suite != CIPHER_SUITE_ID ==> Unpackage(e) == Failure(UnsupportedSuite))
            && (version == [1, 0] && suite == CIPHER_SUITE_ID && state == [] ==> Unpackage(e) == Failure(EmptyMessage))
            && (version == [1, 0] && suite == CIPHER_SUITE_ID && |state| > MAX_MESSAGE_BYTES ==>
                  Unpackage(e) == Failure(MessageTooLarge))
  {
    var e := SERVER_LOGIN_STATE_MAGIC + version + suite + state;
    PackageVersion();
    Versions();
    IntegersAreExact(version);
    hide Ascii, Le16, Le16Value, Low;
    assert e[..4] == SERVER_LOGIN_STATE_MAGIC && e[4..6] == version && e[6..57] == suite;
  }

  /** The login record: `SKBS`, version 1, the three lengths in little-endian order, then the three parts. */
  lemma LoginRecordBytes(b: BoundLoginState)
    requires b.Valid() && |b.state| <= MAX_STORED_STATE_BYTES
    ensures var e, n := BoundRecord(b), |b.state|;
            && e[..6] == [0x53, 0x4B, 0x42, 0x53, 1, 0]
            && e[6..14] == [Low(n), Low(n / 256), Low(n / 65536), Low(n / 16777216),
                            Low(|b.client|), Low(|b.client| / 256), Low(|b.server|), Low(|b.server| / 256)]
            && e[14..] == b.state + b.client + b.server
  {
    Magics();
    LittleEndian(1);
    LittleEndian(|b.state|);
    LittleEndian(|b.client|);
    LittleEndian(|b.server|);
    BoundRecordLayout(b);
    hide Le16, Le32, Ascii, BoundRecord, Low;
    var e := BoundRecord(b);
    ThreeParts(e, 14, b.state, b.client, b.server);
    assert e[..6] == e[..4] + e[4..6];
    assert e[6..14] == e[6..10] + e[10..12] + e[12..14];
  }

  /** The ceremony record: version 1, the kind's tag, the user, the length in big-endian order, the state. */
  lemma CeremonyRecordBytes(c: CeremonyState)
    requires ValidateState(c.state).None?
    ensures var n := |c.state|;
            CeremonyRecord(c) == [1, if c.kind == CeremonyKind.Registration then 1 else 2] + c.user
                                 + [Low(n / 16777216), Low(n / 65536), Low(n / 256), Low(n)] + c.state
  {
    LittleEndian(|c.state|);
    hide Be32, Low;
  }

  // ---------------------------------------------------------------------
  // What a frame is bound to

  datatype RecordKind = LoginRecords | CeremonyRecords

  function FrameFor(kind: RecordKind, namespace: seq<byte>): (f: Frame)
    ensures f.Valid()
  {
    match kind
    case LoginRecords => LoginFrame(namespace)
    case CeremonyRecords => CeremonyFrame(namespace)
  }

  function PurposeOf(kind: RecordKind): string {
    match kind
    case LoginRecords => "secure-keypad:opaque-login-state:v2:"
    case CeremonyRecords => "secure-keypad:webauthn-ceremony-state:v1:"
  }

  /** The associated data: the purpose, a colon, and the namespace. */
  lemma AssociatedBytes(kind: RecordKind, namespace: seq<byte>)
    ensures FrameFor(kind, namespace).AssociatedData() == Ascii(PurposeOf(kind)) + namespace
  {
    match kind {
      case LoginRecords =>
        AsciiConcat("secure-keypad:opaque-login-state:v2", ":");
        assert PurposeOf(kind) == "secure-keypad:opaque-login-state:v2" + ":";
      case CeremonyRecords =>
        AsciiConcat("secure-keypad:webauthn-ceremony-state:v1", ":");
        assert PurposeOf(kind) == "secure-keypad:webauthn-ceremony-state:v1" + ":";
    }
    hide Ascii;
  }

  lemma AsciiConcat(a: string, b: string)
    ensures Ascii(a + b) == Ascii(a) + Ascii(b)
  {
  }

  /** Different stores or different namespaces, different associated data. */
  lemma AssociatedDataIsExact(kind: RecordKind, namespace: seq<byte>, kind2: RecordKind, namespace2: seq<byte>)
    ensures FrameFor(kind, namespace).AssociatedData() == FrameFor(kind2, namespace2).AssociatedData()
            <==> kind == kind2 && namespace == namespace2
  {
    AssociatedBytes(kind, namespace);
    AssociatedBytes(kind2, namespace2);
    assert PurposeOf(LoginRecords)[14] == 'o' && PurposeOf(CeremonyRecords)[14] == 'w';
    AsciiAt(PurposeOf(LoginRecords), 14);
    AsciiAt(PurposeOf(CeremonyRecords), 14);
    hide FrameFor, Ascii, PurposeOf;
    var a, b := Ascii(PurposeOf(kind)) + namespace, Ascii(PurposeOf(kind2)) + namespace2;
    if a == b {
      assert a[14] == Ascii(PurposeOf(kind))[14] && b[14] == Ascii(PurposeOf(kind2))[14];
      assert namespace == a[|PurposeOf(kind)|..] && namespace2 == b[|PurposeOf(kind2)|..];
    }
  }

  /** The bytes of a frame: magic, version in little-endian order, nonce, and the box under the associated data. */
  lemma FrameBytes(kind: RecordKind, namespace: seq<byte>, aead: Aead, nonce: seq<byte>, plain: seq<byte>)
    requires |nonce| == 12
    ensures Framed(FrameFor(kind, namespace), aead, nonce, plain)
            == (if kind == LoginRecords then [0x53, 0x4B, 0x50, 0x45, 2, 0] else [0x53, 0x4B, 0x57, 0x50, 1, 0])
               + nonce + aead.seal(nonce, FrameFor(kind, namespace).AssociatedData(), plain)
  {
    hide *;
    var f := FrameFor(kind, namespace);
    FrameHeader(kind, namespace);
    FramedUnfolds(f, aead, nonce, plain);
  }

  lemma FrameHeader(kind: RecordKind, namespace: seq<byte>)
    ensures var f := FrameFor(kind, namespace);
            f.magic + Le16(f.version)
            == if kind == LoginRecords then [0x53, 0x4B, 0x50, 0x45, 2, 0] else [0x53, 0x4B, 0x57, 0x50, 1, 0]
  {
    hide *;
    Magics();
    Versions();
    FrameFields(kind, namespace);
  }

  lemma FrameFields(kind: RecordKind, namespace: seq<byte>)
    ensures var f := FrameFor(kind, namespace);
            && f.magic == (if kind == LoginRecords then PROTECTED_MAGIC else CEREMONY_PROTECTED_MAGIC)
            && f.version == if kind == LoginRecords then 2 else 1
  {
  }

  lemma FramedUnfolds(f: Frame, aead: Aead, nonce: seq<byte>, plain: seq<byte>)
    requires f.Valid()
    ensures Framed(f, aead, nonce, plain)
            == (f.magic + Le16(f.version)) + nonce + aead.seal(nonce, f.AssociatedData(), plain)
  {
  }

  /** What is sealed under one of these associated data opens under no other of them, whatever the nonce. */
  ghost predicate Binding(aead: Aead, aads: set<seq<byte>>) {
    forall a, b, nonce: seq<byte>, other: seq<byte>, plain: seq<byte> | a in aads && b in aads && a != b ::
      aead.open(other, b, aead.seal(nonce, a, plain)).None?
  }

  /**
   A sealed frame opens exactly under the kind of store and the namespace it was
   sealed for.
   */
  lemma OpensOnlyWhereSealed(aead: Aead, nonce: seq<byte>, plain: seq<byte>,
                             kind: RecordKind, namespace: seq<byte>, kind2: RecordKind, namespace2: seq<byte>)
    requires |nonce| == 12 && aead.Invertible() && |plain| <= FrameFor(kind, namespace).maxRecord
    requires Binding(aead, {FrameFor(kind, namespace).AssociatedData(), FrameFor(kind2, namespace2).AssociatedData()})
    ensures var e := Framed(FrameFor(kind, namespace), aead, nonce, plain);
            var r := Open(FrameFor(kind2, namespace2), aead, e);
            && (kind == kind2 && namespace == namespace2 ==> r == Success(plain))
            && (kind != kind2 || namespace != namespace2 ==> r == Failure(Malformed))
  {
    var f, g := FrameFor(kind, namespace), FrameFor(kind2, namespace2);
    AssociatedDataIsExact(kind, namespace, kind2, namespace2);
    OpenUndoesSeal(f, aead, nonce, plain);
    FrameLayout(f, aead, nonce, plain);
    hide FrameFor, Framed;
    var e := Framed(f, aead, nonce, plain);
    assert f.AssociatedData() != g.AssociatedData() ==>
        aead.open(nonce, g.AssociatedData(), aead.seal(nonce, f.AssociatedData(), plain)).None?;
  }
}
