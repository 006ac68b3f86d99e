/**
 The C ABI's finish functions over a flat byte memory: the aliasing checks, the
 slot resets, and what is read after them. Addresses are 64-bit.
 */
module Overlap {
  import opened Common

  const ADDRESS_SPACE: nat := 0x1_0000_0000_0000_0000
  const POINTER_SIZE: nat := 8
  const MAX_PUBLIC_ID_BYTES: nat := 256

  type usize = x: int | 0 <= x < 0x1_0000_0000_0000_0000

  datatype ErrorCode = Ok | InvalidArgument | AuthFailed

  // ---------------------------------------------------------------------
  // Ranges

  function CheckedAdd(a: usize, b: usize): Option<usize> {
    if a + b < ADDRESS_SPACE then Some(a + b) else None
  }

  /** `memory_ranges_overlap` */
  predicate RangesOverlap(first: usize, firstLength: usize, second: usize, secondLength: usize) {
    if firstLength == 0 || secondLength == 0 then false
    else
      match CheckedAdd(first, firstLength)
      case None => true
      case Some(firstEnd) =>
        match CheckedAdd(second, secondLength)
        case None => true
        case Some(secondEnd) => first < secondEnd && second < firstEnd
  }

  function AddressAt(start: usize, i: usize): usize {
    (start + i) % ADDRESS_SPACE
  }

  /** The bytes a range names, counting on past the end of the address space from 0. */
  predicate Names(start: usize, length: usize, address: usize) {
    exists i: usize :: 0 <= i < length && address == AddressAt(start, i)
  }

  predicate EndsInside(start: usize, length: usize) {
    start + length < ADDRESS_SPACE
  }

  lemma NamesInside(start: usize, length: usize, address: usize)
    requires EndsInside(start, length)
    ensures Names(start, length, address) <==> start <= address < start + length
  {
    forall i: usize | i < length ensures AddressAt(start, i) == start + i {
    }
    if start <= address < start + length {
      assert address == AddressAt(start, address - start);
    }
  }

  /**
   The test answers no exactly for empty ranges, and for ranges that share no
   address and both end before the last address; so a range that reaches the
   end of the address space or wraps is refused.
   */
  lemma OverlapIsExact(a: usize, la: usize, b: usize, lb: usize)
    ensures !RangesOverlap(a, la, b, lb)
            <==> la == 0 || lb == 0
                 || (EndsInside(a, la) && EndsInside(b, lb) && forall k: usize :: !(Names(a, la, k) && Names(b, lb, k)))
  {
    if la != 0 && lb != 0 && EndsInside(a, la) && EndsInside(b, lb) {
      var k: usize := if a < b then b else a;
      NamesInside(a, la, k);
      NamesInside(b, lb, k);
      forall k: usize | !RangesOverlap(a, la, b, lb) ensures !(Names(a, la, k) && Names(b, lb, k)) {
        NamesInside(a, la, k);
        NamesInside(b, lb, k);
      }
    }
  }

  // ---------------------------------------------------------------------
  // The arguments of a finish function

  /** `objectSize` and `messageSize` are the sizes of the input object and of the response. */
  datatype Arguments = Arguments(inputSlot: usize, inputObject: usize, objectSize: usize,
                                 response: usize, messageSize: usize,
                                 clientIdentifier: usize, clientLength: usize,
                                 serverIdentifier: usize, serverLength: usize, output: usize)

  /** `auth_finish_arguments_alias`, check by check. */
  predicate ArgumentsAlias(a: Arguments) {
    || RangesOverlap(a.inputSlot, POINTER_SIZE, a.output, POINTER_SIZE)
    || RangesOverlap(a.inputSlot, POINTER_SIZE, a.inputObject, a.objectSize)
    || RangesOverlap(a.inputSlot, POINTER_SIZE, a.response, a.messageSize)
    || RangesOverlap(a.output, POINTER_SIZE, a.inputObject, a.objectSize)
    || RangesOverlap(a.output, POINTER_SIZE, a.response, a.messageSize)
    || RangesOverlap(a.inputObject, a.objectSize, a.response, a.messageSize)
    || RangesOverlap(a.clientIdentifier, a.clientLength, a.inputSlot, POINTER_SIZE)
    || RangesOverlap(a.clientIdentifier, a.clientLength, a.output, POINTER_SIZE)
    || RangesOverlap(a.serverIdentifier, a.serverLength, a.inputSlot, POINTER_SIZE)
    || RangesOverlap(a.serverIdentifier, a.serverLength, a.output, POINTER_SIZE)
    || RangesOverlap(a.clientIdentifier, a.clientLength, a.inputObject, a.objectSize)
    || RangesOverlap(a.clientIdentifier, a.clientLength, a.response, a.messageSize)
    || RangesOverlap(a.serverIdentifier, a.serverLength, a.inputObject, a.objectSize)
    || RangesOverlap(a.serverIdentifier, a.serverLength, a.response, a.messageSize)
  }

  datatype Region = Region(start: usize, length: usize)

  /** What a finish function reads: the two objects and the two identifiers. */
  function Inputs(a: Arguments): seq<Region> {
    [Region(a.inputObject, a.objectSize), Region(a.response, a.messageSize),
     Region(a.clientIdentifier, a.clientLength), Region(a.serverIdentifier, a.serverLength)]
  }

  function Slots(a: Arguments): seq<Region> {
    [Region(a.inputSlot, POINTER_SIZE), Region(a.output, POINTER_SIZE)]
  }

  predicate Apart(r: Region, q: Region) {
    !RangesOverlap(r.start, r.length, q.start, q.length)
  }

  /** Everything is apart, except that the two identifiers may share bytes. */
  predicate AllApart(a: Arguments) {
    && Apart(Slots(a)[0], Slots(a)[1])
    && (forall i, j :: 0 <= i < 2 && 0 <= j < 4 ==> Apart(Slots(a)[i], Inputs(a)[j]))
    && (forall i, j :: 0 <= i < 2 && i < j < 4 ==> Apart(Inputs(a)[i], Inputs(a)[j]))
  }

  lemma ApartIsSymmetric(r: Region, q: Region)
    ensures Apart(r, q) == Apart(q, r)
  {
  }

  /** The fourteen pairwise checks leave out no pair but the two identifiers. */
  lemma AliasTestsAreComplete(a: Arguments)
    ensures !ArgumentsAlias(a) <==> AllApart(a)
  {
    var s, r := Slots(a), Inputs(a);
    ApartIsSymmetric(s[0], r[2]);
    ApartIsSymmetric(s[0], r[3]);
    ApartIsSymmetric(s[1], r[2]);
    ApartIsSymmetric(s[1], r[3]);
    ApartIsSymmetric(r[0], r[2]);
    ApartIsSymmetric(r[0], r[3]);
    ApartIsSymmetric(r[1], r[2]);
    ApartIsSymmetric(r[1], r[3]);
    hide RangesOverlap;
    if AllApart(a) {
      assert Apart(s[0], s[1]) && Apart(s[0], r[0]) && Apart(s[0], r[1]) && Apart(s[1], r[0]) && Apart(s[1], r[1]);
      assert Apart(s[0], r[2]) && Apart(s[0], r[3]) && Apart(s[1], r[2]) && Apart(s[1], r[3]);
      assert Apart(r[0], r[1]) && Apart(r[0], r[2]) && Apart(r[0], r[3]) && Apart(r[1], r[2]) && Apart(r[1], r[3]);
    }
  }

  // ---------------------------------------------------------------------
  // Memory

  /** A little-endian number. */
  function Number(b: seq<byte>): nat {
    if b == [] then 0 else b[0] + 256 * Number(b[1..])
  }

  function NumberBytes(n: nat, length: nat): (b: seq<byte>)
    ensures |b| == length
  {
    if length == 0 then []
    else
      var low: int := n % 256;
      [low] + NumberBytes(n / 256, length - 1)
  }

  lemma {:induction false} NumberRoundTrip(b: seq<byte>)
    ensures NumberBytes(Number(b), |b|) == b
  {
    if b != [] {
      NumberRoundTrip(b[1..]);
      LowByte(b);
      NextByte(Number(b), |b|);
      hide Number, NumberBytes;
      assert b == [b[0]] + b[1..];
      var r := NumberBytes(Number(b), |b|);
      assert r == [r[0]] + r[1..];
    }
  }

  lemma LowByte(b: seq<byte>)
    requires b != []
    ensures Number(b) % 256 == b[0] as int && Number(b) / 256 == Number(b[1..])
  {
  }

  function Power256(n: nat): nat {
    if n == 0 then 1 else 256 * Power256(n - 1)
  }

  lemma {:induction false} BytesRoundTrip(n: nat, length: nat)
    requires n < Power256(length)
    ensures Number(NumberBytes(n, length)) == n
  {
    if length > 0 {
      assert n / 256 < Power256(length - 1);
      BytesRoundTrip(n / 256, length - 1);
      assert NumberBytes(n, length)[1..] == NumberBytes(n / 256, length - 1);
    }
  }

  lemma {:induction false} NumberIsSmall(b: seq<byte>)
    ensures Number(b) < Power256(|b|)
  {
    if b != [] {
      NumberIsSmall(b[1..]);
    }
  }

  lemma PointerPower()
    ensures Power256(POINTER_SIZE) == ADDRESS_SPACE
  {
    assert Power256(4) == 0x1_0000_0000;
    assert Power256(8) == 256 * (256 * (256 * (256 * Power256(4))));
  }

  predicate Inside(memory: seq<byte>, start: int, length: int) {
    0 <= start && 0 <= length && start + length <= |memory|
  }

  function BytesAt(memory: seq<byte>, start: int, length: int): seq<byte>
    requires Inside(memory, start, length)
  {
    memory[start..start + length]
  }

  function PointerAt(memory: seq<byte>, at: int): (p: usize)
    requires Inside(memory, at, POINTER_SIZE)
  {
    NumberIsSmall(BytesAt(memory, at, POINTER_SIZE));
    PointerPower();
    Number(BytesAt(memory, at, POINTER_SIZE))
  }

  function Stored(memory: seq<byte>, at: int, pointer: usize): (r: seq<byte>)
    requires Inside(memory, at, POINTER_SIZE)
    ensures |r| == |memory|
  {
    memory[..at] + NumberBytes(pointer, POINTER_SIZE) + memory[at + POINTER_SIZE..]
  }

  /** A stored pointer is read back, and every range apart from the slot keeps its bytes. */
  lemma StoredAndRead(memory: seq<byte>, at: int, pointer: usize)
    requires Inside(memory, at, POINTER_SIZE)
    ensures PointerAt(Stored(memory, at, pointer), at) == pointer
  {
    PointerPower();
    BytesRoundTrip(pointer, POINTER_SIZE);
    assert BytesAt(Stored(memory, at, pointer), at, POINTER_SIZE) == NumberBytes(pointer, POINTER_SIZE);
  }

  lemma StoreKeepsApart(memory: seq<byte>, at: usize, pointer: usize, start: usize, length: usize)
    requires Inside(memory, at, POINTER_SIZE) && Inside(memory, start, length)
    requires !RangesOverlap(at, POINTER_SIZE, start, length)
    ensures BytesAt(Stored(memory, at, pointer), start, length) == BytesAt(memory, start, length)
  {
    var stored := Stored(memory, at, pointer);
    assert forall k :: start <= k < start + length ==> stored[k] == memory[k];
  }

  method StorePointer(memory: array<byte>, at: usize, pointer: usize)
    requires Inside(memory[..], at, POINTER_SIZE)
    modifies memory
    ensures memory[..] == Stored(old(memory[..]), at, pointer)
  {
    ghost var before := memory[..];
    ghost var all := NumberBytes(pointer, POINTER_SIZE);
    var rest: nat := pointer;
    assert all[0..] == all;
    for i := 0 to POINTER_SIZE
      invariant all[i..] == NumberBytes(rest, POINTER_SIZE - i)
      invariant forall k :: 0 <= k < memory.Length ==>
                  memory[k] == if at <= k < at + i then all[k - at] else before[k]
    {
      NextByte(rest, POINTER_SIZE - i);
      var low: int := rest % 256;
      hide NumberBytes;
      assert all[i..][0] == all[i] && all[i..][1..] == all[i + 1..];
      memory[at + i] := low;
      rest := rest / 256;
    }
    assert memory[..] == Stored(before, at, pointer);
  }

  lemma NextByte(n: nat, length: nat)
    requires length > 0
    ensures NumberBytes(n, length)[0] as int == n % 256
    ensures NumberBytes(n, length)[1..] == NumberBytes(n / 256, length - 1)
  {
  }

  // ---------------------------------------------------------------------
  // The finish functions

  /** What the authentication core is called with. */
  datatype CoreCall = CoreCall(state: seq<byte>, response: seq<byte>, client: seq<byte>, server: seq<byte>)

  predicate PublicIdAccepted(identifier: usize, length: usize) {
    identifier != 0 && 0 < length <= MAX_PUBLIC_ID_BYTES
  }

  function ParsePublicId(memory: seq<byte>, identifier: usize, length: usize): Result<seq<byte>, ErrorCode>
    requires PublicIdAccepted(identifier, length) ==> Inside(memory, identifier, length)
  {
    if !PublicIdAccepted(identifier, length) then Failure(InvalidArgument)
    else Success(BytesAt(memory, identifier, length))
  }

  /** The caller's side of the contract: what is dereferenced is there. */
  predicate CallerKeepsContract(memory: seq<byte>, a: Arguments) {
    && (a.inputSlot != 0 ==> Inside(memory, a.inputSlot, POINTER_SIZE))
    && (a.output != 0 ==> Inside(memory, a.output, POINTER_SIZE))
    && (a.response != 0 ==> Inside(memory, a.response, a.messageSize))
    && (a.inputSlot != 0 && a.inputObject != 0 ==> Inside(memory, a.inputObject, a.objectSize))
    && (PublicIdAccepted(a.clientIdentifier, a.clientLength) ==> Inside(memory, a.clientIdentifier, a.clientLength))
    && (PublicIdAccepted(a.serverIdentifier, a.serverLength) ==> Inside(memory, a.serverIdentifier, a.serverLength))
  }

  /** The input object is the one the input slot points to. */
  predicate SlotPointsToObject(memory: seq<byte>, a: Arguments) {
    a.inputSlot != 0 && Inside(memory, a.inputSlot, POINTER_SIZE) ==> a.inputObject == PointerAt(memory, a.inputSlot)
  }

  predicate Refused(a: Arguments) {
    a.inputSlot == 0 || a.response == 0 || a.output == 0
    || RangesOverlap(a.inputSlot, POINTER_SIZE, a.output, POINTER_SIZE) || a.inputObject == 0 || ArgumentsAlias(a)
  }

  /**
   What a finish function promises, in terms of the memory it was called with:
   the core is called with the caller's own bytes, and nothing but the two slots
   changes. `handle` is what the core returns.
   */
  function Finished(memory: seq<byte>, a: Arguments, handle: Option<usize>): (seq<byte>, ErrorCode, Option<CoreCall>)
    requires CallerKeepsContract(memory, a)
  {
    if Refused(a) then (memory, InvalidArgument, None)
    else
      var reset := Stored(Stored(memory, a.output, 0), a.inputSlot, 0);
      var client := ParsePublicId(memory, a.clientIdentifier, a.clientLength);
      var server := ParsePublicId(memory, a.serverIdentifier, a.serverLength);
      if client.Failure? || server.Failure? then (reset, InvalidArgument, None)
      else
        var call := CoreCall(BytesAt(memory, a.inputObject, a.objectSize), BytesAt(memory, a.response, a.messageSize),
                             client.value, server.value);
        match handle
        case None => (reset, AuthFailed, Some(call))
        case Some(h) => (Stored(reset, a.output, h), Ok, Some(call))
  }

  /** The four input regions survive both resets. */
  lemma ResetsKeepInputs(memory: seq<byte>, a: Arguments)
    requires CallerKeepsContract(memory, a) && !Refused(a)
    ensures var reset := Stored(Stored(memory, a.output, 0), a.inputSlot, 0);
            && BytesAt(reset, a.inputObject, a.objectSize) == BytesAt(memory, a.inputObject, a.objectSize)
            && BytesAt(reset, a.response, a.messageSize) == BytesAt(memory, a.response, a.messageSize)
            && ParsePublicId(reset, a.clientIdentifier, a.clientLength)
               == ParsePublicId(memory, a.clientIdentifier, a.clientLength)
            && ParsePublicId(reset, a.serverIdentifier, a.serverLength)
               == ParsePublicId(memory, a.serverIdentifier, a.serverLength)
  {
    AliasTestsAreComplete(a);
    hide ArgumentsAlias;
    forall j | 0 <= j < 4 && Inside(memory, Inputs(a)[j].start, Inputs(a)[j].length)
      ensures var r := Inputs(a)[j];
              BytesAt(Stored(Stored(memory, a.output, 0), a.inputSlot, 0), r.start, r.length)
              == BytesAt(memory, r.start, r.length)
    {
      ResetsKeep(memory, a, j);
    }
    hide AllApart, Stored;
    var r := Inputs(a);
    assert r[0] == Region(a.inputObject, a.objectSize) && r[1] == Region(a.response, a.messageSize);
    assert r[2] == Region(a.clientIdentifier, a.clientLength) && r[3] == Region(a.serverIdentifier, a.serverLength);
  }

  lemma ResetsKeep(memory: seq<byte>, a: Arguments, j: nat)
    requires a.inputSlot != 0 && a.output != 0 && CallerKeepsContract(memory, a) && AllApart(a) && j < 4
    requires Inside(memory, Inputs(a)[j].start, Inputs(a)[j].length)
    ensures var r := Inputs(a)[j];
            BytesAt(Stored(Stored(memory, a.output, 0), a.inputSlot, 0), r.start, r.length)
            == BytesAt(memory, r.start, r.length)
  {
    var r := Inputs(a)[j];
    assert Apart(Slots(a)[0], r) && Apart(Slots(a)[1], r);
    hide RangesOverlap, AllApart, Stored, BytesAt;
    StoreKeepsApart(memory, a.output, 0, r.start, r.length);
    StoreKeepsApart(Stored(memory, a.output, 0), a.inputSlot, 0, r.start, r.length);
  }

  /** `secure_keypad_client_login_finish` and its registration twin, which differ in `objectSize`. */
  method ClientFinish(memory: array<byte>, a: Arguments, handle: Option<usize>)
    returns (code: ErrorCode, call: Option<CoreCall>)
    requires CallerKeepsContract(memory[..], a) && SlotPointsToObject(memory[..], a)
    modifies memory
    ensures (memory[..], code, call) == Finished(old(memory[..]), a, handle)
  {
    hide ArgumentsAlias, RangesOverlap, Stored, BytesAt;
    if a.inputSlot == 0 || a.response == 0 || a.output == 0 {
      return InvalidArgument, None;
    }
    if RangesOverlap(a.inputSlot, POINTER_SIZE, a.output, POINTER_SIZE) {
      return InvalidArgument, None;
    }
    var inputObject := PointerAt(memory[..], a.inputSlot);
    if inputObject == 0 {
      return InvalidArgument, None;
    }
    if ArgumentsAlias(a) {
      return InvalidArgument, None;
    }
    ResetsKeepInputs(memory[..], a);
    StorePointer(memory, a.output, 0);
    StorePointer(memory, a.inputSlot, 0);
    var state := BytesAt(memory[..], inputObject, a.objectSize);
    var response := BytesAt(memory[..], a.response, a.messageSize);
    var client := ParsePublicId(memory[..], a.clientIdentifier, a.clientLength);
    if client.Failure? {
      return client.error, None;
    }
    var server := ParsePublicId(memory[..], a.serverIdentifier, a.serverLength);
    if server.Failure? {
      return server.error, None;
    }
    call := Some(CoreCall(state, response, client.value, server.value));
    match handle {
      case None => code := AuthFailed;
      case Some(h) =>
        StorePointer(memory, a.output, h);
        code := Ok;
    }
  }

  predicate InSlot(slot: usize, i: int) {
    slot <= i < slot + POINTER_SIZE
  }

  lemma StoredElsewhere(memory: seq<byte>, at: usize, pointer: usize, i: nat)
    requires Inside(memory, at, POINTER_SIZE) && i < |memory| && !InSlot(at, i)
    ensures Stored(memory, at, pointer)[i] == memory[i]
  {
  }

  /** After a call that was not refused, the input slot is null and the output slot is null or holds the new handle. */
  lemma SlotsAfterFinish(memory: seq<byte>, a: Arguments, handle: Option<usize>)
    requires CallerKeepsContract(memory, a) && !Refused(a)
    ensures var (after, code, call) := Finished(memory, a, handle);
            && |after| == |memory| && PointerAt(after, a.inputSlot) == 0
            && PointerAt(after, a.output) == (if code == Ok then handle.value else 0)
            && forall i :: 0 <= i < |memory| && !InSlot(a.inputSlot, i) && !InSlot(a.output, i) ==>
                             after[i] == memory[i]
  {
    hide ArgumentsAlias;
    var first := Stored(memory, a.output, 0);
    var reset := Stored(first, a.inputSlot, 0);
    StoredAndRead(memory, a.output, 0);
    StoredAndRead(first, a.inputSlot, 0);
    StoreKeepsApart(first, a.inputSlot, 0, a.output, POINTER_SIZE);
    if handle.Some? {
      StoredAndRead(reset, a.output, handle.value);
      StoreKeepsApart(reset, a.output, handle.value, a.inputSlot, POINTER_SIZE);
    }
    hide RangesOverlap, ParsePublicId, PointerAt, Stored, InSlot;
    var after := Finished(memory, a, handle).0;
    forall i | 0 <= i < |memory| && !InSlot(a.inputSlot, i) && !InSlot(a.output, i) ensures after[i] == memory[i] {
      StoredElsewhere(memory, a.output, 0, i);
      StoredElsewhere(first, a.inputSlot, 0, i);
      if handle.Some? {
        StoredElsewhere(reset, a.output, handle.value, i);
      }
    }
  }

  /** An identifier that the finish functions accept: not null, and of 1 to 256 bytes. */
  predicate Usable(identifier: usize, length: usize) {
    identifier != 0 && 1 <= length <= 256
  }

  /**
   When the core is called, and with what: the four arguments must be there and
   all regions apart, and both identifiers usable; it then gets the object, the
   response, the client's identifier and the server's, each byte for byte as
   the caller passed it, and its own verdict is the result.
   */
  lemma CoreSeesCallersBytes(memory: seq<byte>, a: Arguments, handle: Option<usize>)
    requires CallerKeepsContract(memory, a)
    ensures var (after, code, call) := Finished(memory, a, handle);
            if a.inputSlot == 0 || a.response == 0 || a.output == 0 || a.inputObject == 0 || !AllApart(a) then
              after == memory && code == InvalidArgument && call == None
            else if !Usable(a.clientIdentifier, a.clientLength) || !Usable(a.serverIdentifier, a.serverLength) then
              code == InvalidArgument && call == None
            else
              && call.Some? && code == (if handle.Some? then Ok else AuthFailed)
              && call.value.state == memory[a.inputObject..a.inputObject + a.objectSize]
              && call.value.response == memory[a.response..a.response + a.messageSize]
              && call.value.client == memory[a.clientIdentifier..a.clientIdentifier + a.clientLength]
              && call.value.server == memory[a.serverIdentifier..a.serverIdentifier + a.serverLength]
  {
    AliasTestsAreComplete(a);
    RefusedWhenSlotsMeet(a);
    hide ArgumentsAlias, RangesOverlap, AllApart, Stored;
  }

  lemma RefusedWhenSlotsMeet(a: Arguments)
    ensures RangesOverlap(a.inputSlot, POINTER_SIZE, a.output, POINTER_SIZE) ==> !AllApart(a)
  {
  }
}
