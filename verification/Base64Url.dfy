/**
 Unpadded base64url (RFC 4648, sections 3.5 and 5) as the web client codes it.
 Numbers in the decoder are 32-bit JavaScript bit operands: a left shift wraps
 and a right shift keeps the sign.
 */
module Base64Url {
  import opened Common

  const UPPER: string := "ABCDEFGHIJKLMNOPQRSTUVWXYZ"
  const LOWER: string := "abcdefghijklmnopqrstuvwxyz"
  const REST: string := "0123456789-_"
  const ALPHABET: string := UPPER + LOWER + REST
  const MAX_WEBAUTHN_BINARY_BYTES: nat := 8 * 1024

  datatype ClientError = InvalidCredential | InvalidOptions

  type digit = d: int | 0 <= d < 64

  function CharOf(d: digit): char {
    if d < 26 then (65 + d as int) as char
    else if d < 52 then (97 + (d as int - 26)) as char
    else if d < 62 then (48 + (d as int - 52)) as char
    else if d == 62 then '-'
    else '_'
  }

  /** The pattern `^[A-Za-z0-9_-]*$`, character by character. */
  predicate InAlphabet(c: char) {
    'A' <= c <= 'Z' || 'a' <= c <= 'z' || '0' <= c <= '9' || c == '_' || c == '-'
  }

  function DigitOf(c: char): digit
    requires InAlphabet(c)
  {
    if 'A' <= c <= 'Z' then c as int - 'A' as int
    else if 'a' <= c <= 'z' then c as int - 'a' as int + 26
    else if '0' <= c <= '9' then c as int - '0' as int + 52
    else if c == '-' then 62
    else 63
  }

  lemma DigitsAndChars(c: char, d: digit)
    ensures InAlphabet(CharOf(d)) && DigitOf(CharOf(d)) == d
    ensures InAlphabet(c) ==> CharOf(DigitOf(c)) == c
  {
  }

  lemma UpperAt(i: nat)
    requires i < 26
    ensures |UPPER| == 26 && UPPER[i] as int == 65 + i
  {
  }

  lemma LowerAt(i: nat)
    requires i < 26
    ensures |LOWER| == 26 && LOWER[i] as int == 97 + i
  {
  }

  lemma RestAt(i: nat)
    requires i < 12
    ensures |REST| == 12
    ensures REST[i] == if i < 10 then (48 + i) as char else if i == 10 then '-' else '_'
  {
  }

  /** `CharOf` is the alphabet constant, position by position. */
  lemma AlphabetIsCharOf(d: digit)
    ensures |ALPHABET| == 64 && ALPHABET[d] == CharOf(d)
  {
    hide UPPER, LOWER, REST;
    UpperAt(0);
    LowerAt(0);
    RestAt(0);
    if d < 26 {
      UpperAt(d);
    } else if d < 52 {
      LowerAt(d - 26);
    } else {
      RestAt(d - 52);
    }
  }

  predicate AllInAlphabet(s: string) {
    forall i :: 0 <= i < |s| ==> InAlphabet(s[i])
  }

  // ---------------------------------------------------------------------
  // Specification: groups of three bytes and four digits

  function EncodeDigits(b: seq<byte>): seq<digit> {
    if |b| == 0 then []
    else if |b| == 1 then [First(b[0]), Second(b[0], 0)]
    else if |b| == 2 then [First(b[0]), Second(b[0], b[1]), Third(b[1], 0)]
    else [First(b[0]), Second(b[0], b[1]), Third(b[1], b[2]), Fourth(b[2])] + EncodeDigits(b[3..])
  }

  lemma {:induction false} EncodedLength(b: seq<byte>)
    ensures |EncodeDigits(b)| == (4 * |b| + 2) / 3
  {
    hide First, Second, Third, Fourth;
    if |b| >= 3 {
      EncodedLength(b[3..]);
    }
  }

  function First(x: byte): (d: digit) { x / 4 }

  function Second(x: byte, y: byte): (d: digit) {
    var d: int := x % 4 * 16 + y / 16;
    d
  }

  function Third(y: byte, z: byte): (d: digit) {
    var d: int := y % 16 * 4 + z / 64;
    d
  }

  function Fourth(z: byte): (d: digit) { z % 64 }

  function Chars(ds: seq<digit>): (s: string)
    ensures |s| == |ds| && forall i :: 0 <= i < |ds| ==> s[i] == CharOf(ds[i])
  {
    seq(|ds|, i requires 0 <= i < |ds| => CharOf(ds[i]))
  }

  function Digits(s: string): (ds: seq<digit>)
    requires AllInAlphabet(s)
    ensures |ds| == |s| && forall i :: 0 <= i < |s| ==> ds[i] == DigitOf(s[i])
  {
    seq(|s|, i requires 0 <= i < |s| => DigitOf(s[i]))
  }

  function Encode(b: seq<byte>): string {
    Chars(EncodeDigits(b))
  }

  /** The bytes that whole groups and a canonical tail stand for. */
  function DecodeDigits(ds: seq<digit>): Option<seq<byte>> {
    if |ds| == 0 then Some([])
    else if |ds| == 1 then None
    else if |ds| == 2 then if ds[1] % 16 == 0 then Some([Byte1(ds[0], ds[1])]) else None
    else if |ds| == 3 then
      if ds[2] % 4 == 0 then Some([Byte1(ds[0], ds[1]), Byte2(ds[1], ds[2])]) else None
    else
      match DecodeDigits(ds[4..])
      case None => None
      case Some(rest) => Some([Byte1(ds[0], ds[1]), Byte2(ds[1], ds[2]), Byte3(ds[2], ds[3])] + rest)
  }

  function Byte1(a: digit, b: digit): (x: byte) {
    var x: int := a * 4 + b / 16;
    x
  }

  function Byte2(b: digit, c: digit): (x: byte) {
    var x: int := b % 16 * 16 + c / 4;
    x
  }

  function Byte3(c: digit, d: digit): (x: byte) {
    var x: int := c % 4 * 64 + d;
    x
  }

  lemma {:induction false} DecodeUndoesEncode(b: seq<byte>)
    ensures DecodeDigits(EncodeDigits(b)) == Some(b)
    decreases |b|
  {
    hide First, Second, Third, Fourth, Byte1, Byte2, Byte3, EncodeDigits, DecodeDigits;
    if |b| >= 3 {
      DecodeUndoesEncode(b[3..]);
      WholeGroup(b[0], b[1], b[2], b[3..]);
      assert b == [b[0], b[1], b[2]] + b[3..];
    } else if |b| == 2 {
      ShortGroups(b[0], b[1]);
      assert b == [b[0], b[1]];
    } else if |b| == 1 {
      ShortGroups(b[0], 0);
      assert b == [b[0]];
    } else {
      ShortGroups(0, 0);
      assert b == [];
    }
  }

  lemma WholeGroup(x: byte, y: byte, z: byte, rest: seq<byte>)
    requires DecodeDigits(EncodeDigits(rest)) == Some(rest)
    ensures DecodeDigits(EncodeDigits([x, y, z] + rest)) == Some([x, y, z] + rest)
  {
    GroupRoundTrip(x, y, z);
    hide First, Second, Third, Fourth, Byte1, Byte2, Byte3;
    var ds := [First(x), Second(x, y), Third(y, z), Fourth(z)];
    assert ([x, y, z] + rest)[3..] == rest;
    assert EncodeDigits([x, y, z] + rest) == ds + EncodeDigits(rest);
    assert (ds + EncodeDigits(rest))[4..] == EncodeDigits(rest);
  }

  lemma ShortGroups(x: byte, y: byte)
    ensures DecodeDigits(EncodeDigits([])) == Some([])
    ensures DecodeDigits(EncodeDigits([x])) == Some([x])
    ensures DecodeDigits(EncodeDigits([x, y])) == Some([x, y])
  {
    GroupRoundTrip(x, y, 0);
    hide First, Second, Third, Fourth, Byte1, Byte2, Byte3;
  }

  lemma GroupRoundTrip(x: byte, y: byte, z: byte)
    ensures Byte1(First(x), Second(x, y)) == x
    ensures Byte2(Second(x, y), Third(y, z)) == y
    ensures Byte3(Third(y, z), Fourth(z)) == z
    ensures Second(x, 0) % 16 == 0 && Third(y, 0) % 4 == 0
  {
  }

  lemma GroupIsExact(a: digit, b: digit, c: digit, d: digit)
    ensures First(Byte1(a, b)) == a
    ensures Second(Byte1(a, b), Byte2(b, c)) == b && (b % 16 == 0 ==> Second(Byte1(a, b), 0) == b)
    ensures Third(Byte2(b, c), Byte3(c, d)) == c && (c % 4 == 0 ==> Third(Byte2(b, c), 0) == c)
    ensures Fourth(Byte3(c, d)) == d
  {
    var x: int, y: int, z: int := Byte1(a, b), Byte2(b, c), Byte3(c, d);
    DivideBy(x, 4, a, b / 16);
    DivideBy(y, 16, b % 16, c / 4);
    DivideBy(z, 64, c % 4, d);
    assert b == b / 16 * 16 + b % 16 && c == c / 4 * 4 + c % 4;
  }

  lemma {:induction false} EncodeUndoesDecode(ds: seq<digit>)
    requires DecodeDigits(ds).Some?
    ensures EncodeDigits(DecodeDigits(ds).value) == ds
    decreases |ds|
  {
    if |ds| >= 4 {
      EncodeUndoesDecode(ds[4..]);
      var rest := DecodeDigits(ds[4..]).value;
      var b := DecodeDigits(ds).value;
      assert b[3..] == rest;
      GroupIsExact(ds[0], ds[1], ds[2], ds[3]);
      assert ds == [ds[0], ds[1], ds[2], ds[3]] + ds[4..];
    } else if |ds| == 3 {
      GroupIsExact(ds[0], ds[1], ds[2], 0);
    } else if |ds| == 2 {
      GroupIsExact(ds[0], ds[1], 0, 0);
    }
  }

  /** What the decoder accepts, and what it returns. */
  function DecodeSpec(s: string, maxBytes: int): (r: Result<seq<byte>, ClientError>)
    ensures r.Failure? ==> r.error == InvalidOptions
  {
    if 0 <= maxBytes <= MAX_WEBAUTHN_BINARY_BYTES && |s| <= (4 * maxBytes + 2) / 3 && AllInAlphabet(s)
       && DecodeDigits(Digits(s)).Some?
    then Success(DecodeDigits(Digits(s)).value)
    else Failure(InvalidOptions)
  }

  lemma CharsAndDigits(s: string, ds: seq<digit>)
    ensures AllInAlphabet(Chars(ds)) && Digits(Chars(ds)) == ds
    ensures AllInAlphabet(s) ==> Chars(Digits(s)) == s
  {
    forall i | 0 <= i < |ds| ensures InAlphabet(Chars(ds)[i]) && DigitOf(Chars(ds)[i]) == ds[i] {
      DigitsAndChars('A', ds[i]);
    }
    if AllInAlphabet(s) {
      forall i | 0 <= i < |s| ensures Chars(Digits(s))[i] == s[i] {
        DigitsAndChars(s[i], 0);
      }
    }
  }

  /**
   Decoding and encoding are inverse bijections between the byte strings of at
   most `maxBytes` and the accepted strings.
   */
  lemma DecodeInvertsEncode(s: string, maxBytes: int, b: seq<byte>)
    ensures DecodeSpec(s, maxBytes) == Success(b)
            <==> 0 <= maxBytes <= MAX_WEBAUTHN_BINARY_BYTES && |b| <= maxBytes && s == Encode(b)
  {
    if s == Encode(b) {
      EncodedLength(b);
      DecodeUndoesEncode(b);
      CharsAndDigits(s, EncodeDigits(b));
    }
    if DecodeSpec(s, maxBytes) == Success(b) {
      EncodeUndoesDecode(Digits(s));
      CharsAndDigits(s, []);
      EncodedLength(b);
    }
  }

  // ---------------------------------------------------------------------
  // The loops

  method EncodeBase64Url(bytes: seq<byte>) returns (r: Result<string, ClientError>)
    ensures |bytes| > MAX_WEBAUTHN_BINARY_BYTES ==> r == Failure(InvalidCredential)
    ensures |bytes| <= MAX_WEBAUTHN_BINARY_BYTES ==> r == Success(Encode(bytes))
  {
    if |bytes| > MAX_WEBAUTHN_BINARY_BYTES {
      return Failure(InvalidCredential);
    }
    var encoded := "";
    var index: nat := 0;
    while index < |bytes|
      invariant index <= |bytes| ==> encoded + Encode(bytes[index..]) == Encode(bytes)
      invariant index > |bytes| ==> encoded == Encode(bytes)
      decreases |bytes| - index
    {
      hide Encode, First, Second, Third, Fourth, CharOf;
      var first := bytes[index];
      var second := if index + 1 < |bytes| then Some(bytes[index + 1]) else None;
      var third := if index + 2 < |bytes| then Some(bytes[index + 2]) else None;
      var y: byte := if second.Some? then second.value else 0;
      var z: byte := if third.Some? then third.value else 0;
      var group := [AlphabetAt(First(first))];
      group := group + [AlphabetAt(Second(first, y))];
      if second.Some? {
        group := group + [AlphabetAt(Third(y, z))];
      }
      if third.Some? {
        group := group + [AlphabetAt(Fourth(z))];
      }
      EncodeGroup(bytes[index..], group);
      if index + 3 <= |bytes| {
        assert bytes[index..][3..] == bytes[index + 3..];
        assert encoded + (group + Encode(bytes[index + 3..])) == (encoded + group) + Encode(bytes[index + 3..]);
      }
      encoded := encoded + group;
      index := index + 3;
    }
    assert index == |bytes| ==> bytes[index..] == [] && encoded + [] == encoded;
    return Success(encoded);
  }

  function AlphabetAt(d: digit): (c: char)
    ensures c == CharOf(d)
  {
    AlphabetIsCharOf(d);
    ALPHABET[d]
  }

  /** The characters of the first group, followed by the rest. */
  lemma EncodeGroup(b: seq<byte>, group: string)
    requires b != []
    requires group == if |b| == 1 then [CharOf(First(b[0])), CharOf(Second(b[0], 0))]
                      else if |b| == 2 then [CharOf(First(b[0])), CharOf(Second(b[0], b[1])), CharOf(Third(b[1], 0))]
                      else [CharOf(First(b[0])), CharOf(Second(b[0], b[1])), CharOf(Third(b[1], b[2])),
                            CharOf(Fourth(b[2]))]
    ensures Encode(b) == if |b| < 3 then group else group + Encode(b[3..])
  {
    if |b| == 3 {
      assert b[3..] == [];
    }
  }

  function ToInt32(x: int): (r: int)
    ensures -0x8000_0000 <= r < 0x8000_0000
  {
    (x + 0x8000_0000) % 0x1_0000_0000 - 0x8000_0000
  }

  /** `(accumulator << 6) | digit`: the shift clears the low six bits, so or-ing the digit adds it. */
  function ShiftIn(accumulator: int, d: digit): int {
    ToInt32(accumulator * 64) + d
  }

  /** `(accumulator >> bits) & 0xff` for the shift counts that occur. */
  function TopByte(accumulator: int, bits: nat): (x: byte)
    requires bits == 0 || bits == 2 || bits == 4
  {
    var x: int := (if bits == 0 then accumulator else if bits == 2 then accumulator / 4 else accumulator / 16) % 256;
    x
  }

  /** Although the accumulator wraps, its low bits are those of the last two digits. */
  lemma WrapKeepsLowBits(accumulator: int, last: digit, d: digit)
    requires accumulator % 64 == last
    ensures var a := ShiftIn(accumulator, d);
            && a % 64 == d && -0x8000_0000 <= a < 0x8000_0000
            && TopByte(a, 4) == Byte1(last, d) && TopByte(a, 2) == Byte2(last, d) && TopByte(a, 0) == Byte3(last, d)
  {
    var q := WrapIsShifted(accumulator, last, d);
    LowBits(ShiftIn(accumulator, d), q, last, d);
  }

  lemma WrapIsShifted(accumulator: int, last: int, d: int) returns (q: int)
    requires 0 <= last < 64 && 0 <= d < 64 && accumulator % 64 == last
    ensures ShiftIn(accumulator, d) == 4096 * q + last * 64 + d
    ensures -0x8000_0000 <= ShiftIn(accumulator, d) < 0x8000_0000
  {
    var shifted := accumulator * 64 + 0x8000_0000;
    var k := shifted / 0x1_0000_0000;
    assert shifted % 0x1_0000_0000 == shifted - 0x1_0000_0000 * k;
    q := accumulator / 64 - 1048576 * k;
    assert accumulator == 64 * (accumulator / 64) + last;
    assert ToInt32(accumulator * 64) == 4096 * q + last * 64;
    assert ToInt32(accumulator * 64) < 0x8000_0000 && 0x8000_0000 == 4096 * 524288;
  }

  lemma DivideBy(n: int, m: int, q: int, r: int)
    requires m == 4 || m == 16 || m == 64 || m == 256 || m == 4096 || m == 262144
    requires n == m * q + r && 0 <= r < m
    ensures n / m == q && n % m == r
  {
  }

  lemma LowBits(a: int, q: int, last: int, d: int)
    requires 0 <= last < 64 && 0 <= d < 64
    requires a == 4096 * q + last * 64 + d
    ensures a % 64 == d
    ensures a / 16 % 256 == last * 4 + d / 16
    ensures a / 4 % 256 == last % 16 * 16 + d / 4
    ensures a % 256 == last % 4 * 64 + d
  {
    var d16, d4, l16, l4 := d / 16, d / 4, last / 16, last / 4;
    DivideBy(a, 64, 64 * q + last, d);
    DivideBy(a, 16, 256 * q + last * 4 + d16, d - 16 * d16);
    DivideBy(a / 16, 256, q, last * 4 + d16);
    DivideBy(a, 4, 1024 * q + last * 16 + d4, d - 4 * d4);
    DivideBy(a / 4, 256, 4 * q + l16, (last - 16 * l16) * 16 + d4);
    DivideBy(a, 256, 16 * q + l4, (last - 4 * l4) * 64 + d);
  }

  /** The bytes that are complete after the digits `ds`. */
  function Emitted(ds: seq<digit>): seq<byte> {
    if |ds| < 2 then []
    else if |ds| == 2 then [Byte1(ds[0], ds[1])]
    else if |ds| == 3 then [Byte1(ds[0], ds[1]), Byte2(ds[1], ds[2])]
    else [Byte1(ds[0], ds[1]), Byte2(ds[1], ds[2]), Byte3(ds[2], ds[3])] + Emitted(ds[4..])
  }

  lemma {:induction false} EmittedLength(ds: seq<digit>)
    ensures |Emitted(ds)| == 3 * |ds| / 4
  {
    hide Byte1, Byte2, Byte3;
    if |ds| >= 4 {
      EmittedLength(ds[4..]);
    }
  }

  /** The byte, if any, that the digit `d` completes after the digits `ds`. */
  function Completed(ds: seq<digit>, d: digit): (b: seq<byte>)
    ensures |b| == if |ds| % 4 == 0 then 0 else 1
  {
    var n := |ds|;
    if n % 4 == 0 then [] else if n % 4 == 1 then [Byte1(ds[n - 1], d)]
    else if n % 4 == 2 then [Byte2(ds[n - 1], d)] else [Byte3(ds[n - 1], d)]
  }

  lemma CompletedByTail(ds: seq<digit>, d: digit)
    requires |ds| >= 4
    ensures Completed(ds[4..], d) == Completed(ds, d)
  {
    hide Byte1, Byte2, Byte3;
  }

  lemma EmittedGroup(a: digit, b: digit, c: digit, d: digit, rest: seq<digit>)
    ensures Emitted([a, b, c, d] + rest) == [Byte1(a, b), Byte2(b, c), Byte3(c, d)] + Emitted(rest)
  {
    hide Byte1, Byte2, Byte3;
    assert ([a, b, c, d] + rest)[4..] == rest;
  }

  lemma EmittedPrefixes(a: digit, b: digit, c: digit, d: digit)
    ensures Emitted([] + [d]) == Emitted([]) + Completed([], d)
    ensures Emitted([a] + [d]) == Emitted([a]) + Completed([a], d)
    ensures Emitted([a, b] + [d]) == Emitted([a, b]) + Completed([a, b], d)
    ensures Emitted([a, b, c] + [d]) == Emitted([a, b, c]) + Completed([a, b, c], d)
  {
    hide Byte1, Byte2, Byte3;
    assert ([a, b, c] + [d])[4..] == [];
  }

  lemma EmittedShort(ds: seq<digit>, d: digit)
    requires |ds| < 4
    ensures Emitted(ds + [d]) == Emitted(ds) + Completed(ds, d)
  {
    hide *;
    if ds == [] {
      EmittedPrefixes(d, d, d, d);
    } else if |ds| == 1 {
      assert ds == [ds[0]];
      EmittedPrefixes(ds[0], d, d, d);
    } else if |ds| == 2 {
      assert ds == [ds[0], ds[1]];
      EmittedPrefixes(ds[0], ds[1], d, d);
    } else {
      assert ds == [ds[0], ds[1], ds[2]];
      EmittedPrefixes(ds[0], ds[1], ds[2], d);
    }
  }

  lemma {:induction false} EmittedAppend(ds: seq<digit>, d: digit)
    ensures Emitted(ds + [d]) == Emitted(ds) + Completed(ds, d)
    decreases |ds|
  {
    hide Byte1, Byte2, Byte3, Emitted, Completed;
    if |ds| >= 4 {
      var rest := ds[4..];
      EmittedAppend(rest, d);
      CompletedByTail(ds, d);
      assert ds == [ds[0], ds[1], ds[2], ds[3]] + rest;
      assert ds + [d] == [ds[0], ds[1], ds[2], ds[3]] + (rest + [d]);
      EmittedGroup(ds[0], ds[1], ds[2], ds[3], rest);
      EmittedGroup(ds[0], ds[1], ds[2], ds[3], rest + [d]);
    } else {
      EmittedShort(ds, d);
    }
  }

  /** The tail bits that must be zero, given how many are left over. */
  predicate Canonical(ds: seq<digit>) {
    var n := |ds|;
    n % 4 != 1 && (n % 4 == 2 ==> ds[n - 1] % 16 == 0) && (n % 4 == 3 ==> ds[n - 1] % 4 == 0)
  }

  lemma {:induction false} DecodesCanonical(ds: seq<digit>)
    ensures DecodeDigits(ds) == if Canonical(ds) then Some(Emitted(ds)) else None
    decreases |ds|
  {
    if |ds| >= 4 {
      var rest := ds[4..];
      DecodesCanonical(rest);
      CanonicalTail(ds);
      GroupDecodes(ds);
      hide *;
    } else {
      hide Byte1, Byte2, Byte3;
    }
  }

  lemma CanonicalTail(ds: seq<digit>)
    requires |ds| >= 4
    ensures Canonical(ds[4..]) == Canonical(ds)
  {
    assert |ds| > 4 ==> ds[4..][|ds| - 5] == ds[|ds| - 1];
  }

  lemma GroupDecodes(ds: seq<digit>)
    requires |ds| >= 4
    ensures var bytes := [Byte1(ds[0], ds[1]), Byte2(ds[1], ds[2]), Byte3(ds[2], ds[3])];
            && Emitted(ds) == bytes + Emitted(ds[4..])
            && DecodeDigits(ds) == match DecodeDigits(ds[4..]) {
                                     case None => None
                                     case Some(rest) => Some(bytes + rest)
                                   }
  {
    hide Byte1, Byte2, Byte3;
  }

  /** Bits held back after `i` digits. */
  function BitsAfter(i: nat): nat {
    if i % 4 == 0 then 0 else if i % 4 == 1 then 6 else if i % 4 == 2 then 4 else 2
  }

  /** One turn of the decoder's loop: the digit at `i` completes the next output byte, or none. */
  lemma DigitStep(ds: seq<digit>, i: nat, accumulator: int, last: digit)
    requires i < |ds| && accumulator % 64 == last && (i > 0 ==> last == ds[i - 1])
    ensures ShiftIn(accumulator, ds[i]) % 64 == ds[i]
    ensures BitsAfter(i + 1) == if i % 4 == 0 then BitsAfter(i) + 6 else BitsAfter(i) - 2
    ensures i % 4 == 0 <==> BitsAfter(i) + 6 < 8
    ensures i % 4 != 0 ==> BitsAfter(i) - 2 in {0, 2, 4}
    ensures |Emitted(ds[..i + 1])| <= 3 * |ds| / 4
    ensures Emitted(ds[..i + 1])
            == Emitted(ds[..i]) + if i % 4 == 0 then [] else [TopByte(ShiftIn(accumulator, ds[i]), BitsAfter(i) - 2)]
  {
    hide *;
    BitsStep(i);
    EmittedStep(ds, i);
    CompletedIsTopByte(ds, i, accumulator, last);
  }

  lemma BitsStep(i: nat)
    ensures BitsAfter(i + 1) == if i % 4 == 0 then BitsAfter(i) + 6 else BitsAfter(i) - 2
    ensures i % 4 == 0 <==> BitsAfter(i) + 6 < 8
    ensures i % 4 != 0 ==> BitsAfter(i) - 2 in {0, 2, 4}
  {
  }

  lemma EmittedStep(ds: seq<digit>, i: nat)
    requires i < |ds|
    ensures |Emitted(ds[..i + 1])| <= 3 * |ds| / 4
    ensures Emitted(ds[..i + 1]) == Emitted(ds[..i]) + Completed(ds[..i], ds[i])
  {
    hide *;
    assert ds[..i + 1] == ds[..i] + [ds[i]];
    EmittedAppend(ds[..i], ds[i]);
    EmittedLength(ds[..i + 1]);
  }

  lemma CompletedIsTopByte(ds: seq<digit>, i: nat, accumulator: int, last: digit)
    requires i < |ds| && accumulator % 64 == last && (i > 0 ==> last == ds[i - 1])
    ensures i % 4 != 0 ==> BitsAfter(i) - 2 in {0, 2, 4}
    ensures ShiftIn(accumulator, ds[i]) % 64 == ds[i]
    ensures Completed(ds[..i], ds[i])
            == if i % 4 == 0 then [] else [TopByte(ShiftIn(accumulator, ds[i]), BitsAfter(i) - 2)]
  {
    hide Byte1, Byte2, Byte3, ShiftIn, TopByte;
    WrapKeepsLowBits(accumulator, last, ds[i]);
  }

  lemma NothingEmitted(ds: seq<digit>)
    ensures Emitted(ds[..0]) == [] && ds[..|ds|] == ds && BitsAfter(0) == 0
  {
  }

  /** The check on the last digit's held-back bits is the canonical-tail condition. */
  lemma TailCheck(ds: seq<digit>, last: digit)
    requires |ds| % 4 != 1 && (|ds| > 0 ==> last == ds[|ds| - 1])
    ensures Canonical(ds)
            <==> !((BitsAfter(|ds|) == 4 && last % 16 != 0) || (BitsAfter(|ds|) == 2 && last % 4 != 0))
    ensures BitsAfter(|ds|) in {0, 2, 4}
  {
  }

  /** For input within bounds, the specification is the canonical-tail condition and the bytes emitted. */
  lemma DecodeSpecWithinBounds(value: string, maxBytes: int)
    requires 0 <= maxBytes <= MAX_WEBAUTHN_BINARY_BYTES && |value| <= (4 * maxBytes + 2) / 3 && AllInAlphabet(value)
    ensures var ds := Digits(value);
            && |Emitted(ds)| == 3 * |value| / 4
            && (|value| % 4 != 1 ==> |Emitted(ds)| <= maxBytes)
            && DecodeSpec(value, maxBytes) == (if Canonical(ds) then Success(Emitted(ds)) else Failure(InvalidOptions))
            && (|value| % 4 == 1 ==> !Canonical(ds))
  {
    var ds := Digits(value);
    DecodesCanonical(ds);
    EmittedLength(ds);
    hide DecodeDigits, Emitted;
  }

  method DecodeBase64Url(value: string, maxBytes: int) returns (r: Result<seq<byte>, ClientError>)
    ensures r == DecodeSpec(value, maxBytes)
  {
    hide Emitted, ShiftIn, TopByte, DigitOf, DecodeDigits, Canonical, BitsAfter;
    if maxBytes < 0 || maxBytes > MAX_WEBAUTHN_BINARY_BYTES {
      return Failure(InvalidOptions);
    }
    var maxEncodedLength := (4 * maxBytes + 2) / 3;
    if |value| > maxEncodedLength || !AllInAlphabet(value) {
      return Failure(InvalidOptions);
    }
    ghost var ds := Digits(value);
    DecodeSpecWithinBounds(value, maxBytes);
    hide DecodeSpec;
    if |value| % 4 == 1 {
      return Failure(InvalidOptions);
    }
    NothingEmitted(ds);
    var output := new byte[|value| * 6 / 8](_ => 0);
    assert output.Length == 3 * |ds| / 4;
    var accumulator := 0;
    var bits: nat := 0;
    var outputIndex: nat := 0;
    var lastDigit: digit := 0;
    for i := 0 to |value|
      invariant bits == BitsAfter(i)
      invariant outputIndex == |Emitted(ds[..i])| <= output.Length
      invariant output[..outputIndex] == Emitted(ds[..i])
      invariant accumulator % 64 == lastDigit && (i > 0 ==> lastDigit == ds[i - 1])
    {
      var d := DigitOf(value[i]);
      DigitStep(ds, i, accumulator, lastDigit);
      lastDigit := d;
      accumulator := ShiftIn(accumulator, d);
      bits := bits + 6;
      if bits >= 8 {
        bits := bits - 8;
        var x := TopByte(accumulator, bits);
        if outputIndex >= output.Length {
          assert false;
        }
        output[outputIndex] := x;
        outputIndex := outputIndex + 1;
      }
    }
    NothingEmitted(ds);
    TailCheck(ds, lastDigit);
    assert output[..output.Length] == output[..];
    if (bits == 4 && lastDigit % 16 != 0) || (bits == 2 && lastDigit % 4 != 0) {
      return Failure(InvalidOptions);
    }
    if output.Length > maxBytes {
      assert false;
    }
    return Success(output[..]);
  }

  // ---------------------------------------------------------------------
  // The bits

  /** The byte at `i`, or 0 past the end. */
  function ByteAt(b: seq<byte>, i: nat): byte {
    if i < |b| then b[i] else 0
  }

  /** Three bytes from `i` on, as one 24-bit number, most significant first. */
  function Group24(b: seq<byte>, i: nat): int {
    65536 * ByteAt(b, i) as int + 256 * ByteAt(b, i + 1) as int + ByteAt(b, i + 2) as int
  }

  /**
   The digits are the bits in order: those of each group of three bytes, padded
   with zeros at the end, are the base-64 digits of its 24-bit number.
   */
  lemma {:induction false} DigitsAreBits(b: seq<byte>, g: nat)
    requires 3 * g < |b|
    ensures |EncodeDigits(b)| == (4 * |b| + 2) / 3
    ensures var ds, n := EncodeDigits(b), Group24(b, 3 * g);
            && ds[4 * g] == n / 262144 && ds[4 * g + 1] == n / 4096 % 64
            && (3 * g + 1 < |b| ==> ds[4 * g + 2] == n / 64 % 64)
            && (3 * g + 2 < |b| ==> ds[4 * g + 3] == n % 64)
    decreases g
  {
    hide First, Second, Third, Fourth;
    EncodedLength(b);
    if g == 0 {
      GroupBits(b[0], ByteAt(b, 1), ByteAt(b, 2));
    } else {
      DigitsAreBits(b[3..], g - 1);
      ShiftedGroup(b, 3 * g);
    }
  }

  lemma ShiftedGroup(b: seq<byte>, i: nat)
    requires 3 <= i && 3 <= |b|
    ensures Group24(b[3..], i - 3) == Group24(b, i)
  {
  }

  lemma GroupBits(x: byte, y: byte, z: byte)
    ensures var n := 65536 * x as int + 256 * y as int + z as int;
            && First(x) == n / 262144 && Second(x, y) == n / 4096 % 64
            && Third(y, z) == n / 64 % 64 && Fourth(z) == n % 64
  {
    UpperBits(x, y, z);
    LowerBits(x, y, z);
  }

  lemma UpperBits(x: int, y: int, z: int)
    requires 0 <= x < 256 && 0 <= y < 256 && 0 <= z < 256
    ensures var n := 65536 * x + 256 * y + z; n / 262144 == x / 4 && n / 4096 % 64 == x % 4 * 16 + y / 16
  {
    var n := 65536 * x + 256 * y + z;
    DivideBy(n, 4096, 16 * x + y / 16, y % 16 * 256 + z);
    DivideBy(16 * x + y / 16, 64, x / 4, x % 4 * 16 + y / 16);
    DivideBy(n, 262144, x / 4, x % 4 * 65536 + y * 256 + z);
  }

  lemma LowerBits(x: int, y: int, z: int)
    requires 0 <= x < 256 && 0 <= y < 256 && 0 <= z < 256
    ensures var n := 65536 * x + 256 * y + z; n / 64 % 64 == y % 16 * 4 + z / 64 && n % 64 == z % 64
  {
    var n := 65536 * x + 256 * y + z;
    DivideBy(n, 64, 1024 * x + 4 * y + z / 64, z % 64);
    DivideBy(1024 * x + 4 * y + z / 64, 64, 16 * x + y / 16, y % 16 * 4 + z / 64);
  }
}
