/** UTF-8 (RFC 3629, section 3) and the secret byte buffer the encoder fills. */
module Utf8 {
  import opened Common

  /** What `char::from_u32` accepts. */
  predicate IsScalar(c: int) {
    0 <= c < 0xD800 || 0xE000 <= c < 0x11_0000
  }

  function Octet(n: int): (b: byte)
    requires 0 <= n < 256
    ensures b == n
  {
    n
  }

  function EncodeScalar(c: int): (b: seq<byte>)
    requires IsScalar(c)
    ensures 1 <= |b| <= 4
  {
    if c < 0x80 then [Octet(c)]
    else if c < 0x800 then [Octet(0xC0 + c / 64), Octet(0x80 + c % 64)]
    else if c < 0x1_0000 then [Octet(0xE0 + c / 4096), Octet(0x80 + c / 64 % 64), Octet(0x80 + c % 64)]
    else [Octet(0xF0 + c / 262144), Octet(0x80 + c / 4096 % 64), Octet(0x80 + c / 64 % 64), Octet(0x80 + c % 64)]
  }

  function Encode(cs: seq<int>): seq<byte>
    requires forall i :: 0 <= i < |cs| ==> IsScalar(cs[i])
  {
    if cs == [] then [] else EncodeScalar(cs[0]) + Encode(cs[1..])
  }

  predicate Continuation(b: int) { 0x80 <= b <= 0xBF }

  /** The scalar at the front of `b` and its length, for the well-formed sequences of RFC 3629 only. */
  function DecodeFirst(b: seq<byte>): (r: Option<(int, nat)>)
    ensures r.Some? ==> IsScalar(r.value.0) && 1 <= r.value.1 <= 4 && r.value.1 <= |b|
  {
    if b == [] then None
    else
      var b0: int := b[0];
      if b0 < 0x80 then Some((b0, 1))
      else if 0xC2 <= b0 <= 0xDF && |b| >= 2 && Continuation(b[1]) then
        Some(((b0 - 0xC0) * 64 + (b[1] as int - 0x80), 2))
      else if 0xE0 <= b0 <= 0xEF && |b| >= 3 && Continuation(b[1]) && Continuation(b[2]) then
        var c := (b0 - 0xE0) * 4096 + (b[1] as int - 0x80) * 64 + (b[2] as int - 0x80);
        if c >= 0x800 && IsScalar(c) then Some((c, 3)) else None
      else if 0xF0 <= b0 <= 0xF4 && |b| >= 4 && Continuation(b[1]) && Continuation(b[2]) && Continuation(b[3]) then
        var c := (b0 - 0xF0) * 262144 + (b[1] as int - 0x80) * 4096 + (b[2] as int - 0x80) * 64 + (b[3] as int - 0x80);
        if 0x1_0000 <= c < 0x11_0000 then Some((c, 4)) else None
      else None
  }

  function Decode(b: seq<byte>): (r: Option<seq<int>>)
    ensures r.Some? ==> forall i :: 0 <= i < |r.value| ==> IsScalar(r.value[i])
    decreases |b|
  {
    if b == [] then Some([])
    else
      match DecodeFirst(b)
      case None => None
      case Some((c, width)) =>
        match Decode(b[width..])
        case None => None
        case Some(rest) => Some([c] + rest)
  }

  lemma Base64Digits(c: int, d0: int, d1: int, d2: int, d3: int)
    requires 0 <= d0 < 64 && 0 <= d1 < 64 && 0 <= d2 < 64 && 0 <= d3
    requires c == d0 + 64 * (d1 + 64 * (d2 + 64 * d3))
    ensures c % 64 == d0 && c / 64 % 64 == d1 && c / 4096 % 64 == d2 && c / 262144 == d3
    ensures d3 == 0 ==> c / 4096 == d2
    ensures d3 == 0 && d2 == 0 ==> c / 64 == d1
  {
    var c1, c2 := d1 + 64 * (d2 + 64 * d3), d2 + 64 * d3;
    assert c / 64 == c1 && c1 / 64 == c2 && c2 / 64 == d3;
    assert c / 4096 == c2 && c / 262144 == d3;
  }

  lemma Base64Value(c: int)
    requires 0 <= c
    ensures c == c % 64 + 64 * (c / 64 % 64 + 64 * (c / 4096 % 64 + 64 * (c / 262144)))
    ensures c < 0x1_0000 ==> c / 262144 == 0 && c / 4096 < 16
    ensures c < 0x800 ==> c / 64 < 32
  {
    assert c / 4096 == c / 64 / 64 && c / 262144 == c / 64 / 64 / 64;
  }

  lemma DecodesShort(c: int, rest: seq<byte>)
    requires 0 <= c < 0x800
    ensures DecodeFirst(EncodeScalar(c) + rest) == Some((c, |EncodeScalar(c)|))
  {
    Base64Value(c);
    var e := EncodeScalar(c);
    var b := e + rest;
    assert b[0] == e[0] && (|e| == 2 ==> b[1] == e[1]);
  }

  lemma DecodesThree(c: int, rest: seq<byte>)
    requires 0x800 <= c < 0x1_0000 && IsScalar(c)
    ensures DecodeFirst(EncodeScalar(c) + rest) == Some((c, 3))
  {
    Base64Value(c);
    var e := EncodeScalar(c);
    var b := e + rest;
    assert b[0] == e[0] && b[1] == e[1] && b[2] == e[2];
  }

  lemma DecodesFour(c: int, rest: seq<byte>)
    requires 0x1_0000 <= c < 0x11_0000
    ensures DecodeFirst(EncodeScalar(c) + rest) == Some((c, 4))
  {
    Base64Value(c);
    var e := EncodeScalar(c);
    var b := e + rest;
    assert b[0] == e[0] && b[1] == e[1] && b[2] == e[2] && b[3] == e[3];
  }

  lemma DecodesWhatWasEncoded(c: int, rest: seq<byte>)
    requires IsScalar(c)
    ensures DecodeFirst(EncodeScalar(c) + rest) == Some((c, |EncodeScalar(c)|))
  {
    hide DecodeFirst;
    if c < 0x800 {
      DecodesShort(c, rest);
    } else if c < 0x1_0000 {
      DecodesThree(c, rest);
    } else {
      DecodesFour(c, rest);
    }
  }

  lemma EncodedAsWritten(b: seq<byte>)
    requires DecodeFirst(b).Some?
    ensures EncodeScalar(DecodeFirst(b).value.0) == b[..DecodeFirst(b).value.1]
  {
    var (c, width) := DecodeFirst(b).value;
    var b0: int := b[0];
    if width == 2 {
      Base64Digits(c, b[1] as int - 0x80, b0 - 0xC0, 0, 0);
    } else if width == 3 {
      Base64Digits(c, b[2] as int - 0x80, b[1] as int - 0x80, b0 - 0xE0, 0);
    } else if width == 4 {
      Base64Digits(c, b[3] as int - 0x80, b[2] as int - 0x80, b[1] as int - 0x80, b0 - 0xF0);
    }
  }

  /** Decoding inverts encoding, and accepts nothing but encodings. */
  lemma {:induction false} DecodeIsExact(b: seq<byte>, cs: seq<int>)
    ensures Decode(b) == Some(cs)
            <==> (forall i :: 0 <= i < |cs| ==> IsScalar(cs[i])) && b == Encode(cs)
    decreases |b|, |cs|
  {
    hide DecodeFirst, EncodeScalar, IsScalar;
    if b == [] {
      if cs != [] && forall i :: 0 <= i < |cs| ==> IsScalar(cs[i]) {
        assert IsScalar(cs[0]) && |EncodeScalar(cs[0])| >= 1;
      }
    } else if cs == [] {
      assert Decode(b) != Some([]);
    } else {
      if (forall i :: 0 <= i < |cs| ==> IsScalar(cs[i])) && b == Encode(cs) {
        assert IsScalar(cs[0]);
        var width := |EncodeScalar(cs[0])|;
        DecodesWhatWasEncoded(cs[0], Encode(cs[1..]));
        assert b[width..] == Encode(cs[1..]);
        DecodeIsExact(b[width..], cs[1..]);
        assert cs == [cs[0]] + cs[1..] && Decode(b) == Some([cs[0]] + cs[1..]);
      }
      if Decode(b) == Some(cs) {
        var (c, width) := DecodeFirst(b).value;
        EncodedAsWritten(b);
        assert cs == [c] + Decode(b[width..]).value && cs[1..] == Decode(b[width..]).value;
        DecodeIsExact(b[width..], cs[1..]);
        assert forall i :: 0 <= i < |cs| ==> IsScalar(cs[i]) by {
          assert forall i :: 1 <= i < |cs| ==> cs[i] == cs[1..][i - 1];
        }
        assert b == b[..width] + b[width..] == EncodeScalar(cs[0]) + Encode(cs[1..]);
      }
    }
  }

  // ---------------------------------------------------------------------
  // The encoder of the secret core

  /** What the encoder writes: code points that are not scalar values are passed over. */
  function EncodeLossy(cs: seq<int>): (b: seq<byte>)
    ensures |b| <= 4 * |cs|
    ensures (forall i :: 0 <= i < |cs| ==> IsScalar(cs[i])) ==> b == Encode(cs)
  {
    if cs == [] then [] else (if IsScalar(cs[0]) then EncodeScalar(cs[0]) else []) + EncodeLossy(cs[1..])
  }

  lemma {:induction false} EncodeLossyAppend(cs: seq<int>, c: int)
    ensures EncodeLossy(cs + [c]) == EncodeLossy(cs) + (if IsScalar(c) then EncodeScalar(c) else [])
  {
    hide EncodeScalar, IsScalar;
    if cs == [] {
      assert cs + [c] == [c] && [c][1..] == [];
      assert EncodeLossy([]) == [] && EncodeLossy([c]) == (if IsScalar(c) then EncodeScalar(c) else []) + [];
    } else {
      var longer, head := cs + [c], if IsScalar(cs[0]) then EncodeScalar(cs[0]) else [];
      assert longer[0] == cs[0] && longer[1..] == cs[1..] + [c];
      assert EncodeLossy(longer) == head + EncodeLossy(cs[1..] + [c]) && EncodeLossy(cs) == head + EncodeLossy(cs[1..]);
      hide EncodeLossy;
      EncodeLossyAppend(cs[1..], c);
    }
  }

  /** A byte buffer that is never reallocated: extending it past its capacity is a panic. */
  class SecretBuffer {
    var bytes: seq<byte>
    const capacity: nat

    constructor (capacity: nat)
      ensures bytes == [] && this.capacity == capacity
    {
      this.bytes := [];
      this.capacity := capacity;
    }

    /** The precondition is the assertion that the source makes before it copies. */
    method ExtendFromSlice(more: seq<byte>)
      requires |bytes| + |more| <= capacity
      modifies this
      ensures bytes == old(bytes) + more
    {
      bytes := bytes + more;
    }
  }

  /** Encodes the code points into the buffer and wipes them. */
  method EncodeUtf8(codepoints: array<u32>, output: SecretBuffer)
    requires |output.bytes| + 4 * codepoints.Length <= output.capacity
    modifies codepoints, output
    ensures output.bytes == old(output.bytes) + EncodeLossy(old(codepoints[..]))
    ensures forall i :: 0 <= i < codepoints.Length ==> codepoints[i] == 0
  {
    for i := 0 to codepoints.Length
      invariant codepoints[..] == old(codepoints[..])
      invariant output.bytes == old(output.bytes) + EncodeLossy(codepoints[..i])
      invariant |EncodeLossy(codepoints[..i])| <= 4 * i
    {
      EncodeLossyAppend(codepoints[..i], codepoints[i]);
      assert codepoints[..i + 1] == codepoints[..i] + [codepoints[i]];
      if IsScalar(codepoints[i]) {
        output.ExtendFromSlice(EncodeScalar(codepoints[i]));
      }
    }
    assert codepoints[..codepoints.Length] == codepoints[..];
    for i := 0 to codepoints.Length
      invariant forall j :: 0 <= j < i ==> codepoints[j] == 0
      invariant output.bytes == old(output.bytes) + EncodeLossy(old(codepoints[..]))
    {
      codepoints[i] := 0;
    }
  }

  /** The buffer is provisioned with four bytes a code point, so the extension never fails. */
  method EncodeRenderedToSecretBuffer(rendered: array<u32>) returns (buffer: SecretBuffer)
    modifies rendered
    ensures fresh(buffer) && buffer.bytes == EncodeLossy(old(rendered[..]))
    ensures forall i :: 0 <= i < rendered.Length ==> rendered[i] == 0
  {
    buffer := new SecretBuffer(rendered.Length * 4);
    EncodeUtf8(rendered, buffer);
  }
}
