/** Tagged key tokens and their rendering as Unicode code points. */
module Hangul {
  import opened Common

  datatype ResolvedKey =
    | Digit(value: byte)
    | AsciiKey(value: byte)
    | Leading(value: byte)
    | Vowel(value: byte)
    | Trailing(value: byte)
  {
    /** The keys that an input policy can resolve a key identifier to. */
    predicate Valid() {
      match this
      case Digit(d) => d < 10
      case AsciiKey(a) => 0x20 <= a <= 0x7E
      case Leading(l) => l < 19
      case Vowel(v) => v < 21
      case Trailing(t) => 1 <= t <= 27
    }
  }

  const TAG_DIGIT: u32 := 0x1000
  const TAG_LEADING: u32 := 0x2000
  const TAG_VOWEL: u32 := 0x3000
  const TAG_TRAILING: u32 := 0x4000
  const TAG_ASCII: u32 := 0x5000

  /** A tag has its low twelve bits clear, so or-ing a byte into it adds the byte. */
  function EncodeKey(key: ResolvedKey): u32 {
    match key
    case Digit(value) => TAG_DIGIT + value
    case AsciiKey(value) => TAG_ASCII + value
    case Leading(value) => TAG_LEADING + value
    case Vowel(value) => TAG_VOWEL + value
    case Trailing(value) => TAG_TRAILING + value
  }

  /** Bits 12 to 15 of a token, in place. */
  function TagOf(token: u32): u32 {
    token / 0x1000 % 16 * 0x1000
  }

  /** The payload of a token with the given tag, when the rest of the token fits one byte. */
  function Decode(token: u32, tag: u32): Option<byte> {
    var rest: int := token - TagOf(token);
    if TagOf(token) == tag && 0 <= rest < 256 then Some(rest) else None
  }

  function LeadingOf(token: u32): Option<byte> { Decode(token, TAG_LEADING) }

  function VowelOf(token: u32): Option<byte> { Decode(token, TAG_VOWEL) }

  function TrailingOf(token: u32): Option<byte> { Decode(token, TAG_TRAILING) }

  function DigitOf(token: u32): Option<byte> { Decode(token, TAG_DIGIT) }

  function AsciiOf(token: u32): Option<byte> { Decode(token, TAG_ASCII) }

  lemma TokensDecode(key: ResolvedKey)
    ensures var t := EncodeKey(key);
            && LeadingOf(t) == (if key.Leading? then Some(key.value) else None)
            && VowelOf(t) == (if key.Vowel? then Some(key.value) else None)
            && TrailingOf(t) == (if key.Trailing? then Some(key.value) else None)
            && DigitOf(t) == (if key.Digit? then Some(key.value) else None)
            && AsciiOf(t) == (if key.AsciiKey? then Some(key.value) else None)
  {
  }

  function CombineVowel(first: byte, second: byte): (r: Option<byte>)
    ensures r.Some? ==> first < 21 && second < 21 && r.value < 21
  {
    match (first, second)
    case (0, 20) => Some(1)
    case (2, 20) => Some(3)
    case (8, 0) => Some(9)
    case (8, 1) => Some(10)
    case (8, 20) => Some(11)
    case (13, 4) => Some(14)
    case (13, 5) => Some(15)
    case (13, 20) => Some(16)
    case (18, 20) => Some(19)
    case _ => None
  }

  function CombineTrailing(first: byte, second: byte): (r: Option<byte>)
    ensures r.Some? ==> 1 <= first <= 27 && 1 <= second <= 27 && 1 <= r.value <= 27
  {
    match (first, second)
    case (1, 19) => Some(3)
    case (4, 22) => Some(5)
    case (4, 27) => Some(6)
    case (8, 1) => Some(9)
    case (8, 16) => Some(10)
    case (8, 17) => Some(11)
    case (8, 19) => Some(12)
    case (8, 25) => Some(13)
    case (8, 26) => Some(14)
    case (8, 27) => Some(15)
    case (17, 19) => Some(18)
    case _ => None
  }

  /** No combined vowel or trailing consonant is the first half of another combination. */
  lemma CombinationsAreFinal(first: byte, second: byte, third: byte)
    ensures CombineVowel(first, second).Some? ==> CombineVowel(CombineVowel(first, second).value, third) == None
    ensures CombineTrailing(first, second).Some? ==>
              CombineTrailing(CombineTrailing(first, second).value, third) == None
  {
  }

  function VowelAt(tokens: seq<u32>, i: nat): Option<byte> {
    if i < |tokens| then VowelOf(tokens[i]) else None
  }

  function TrailingAt(tokens: seq<u32>, i: nat): Option<byte> {
    if i < |tokens| then TrailingOf(tokens[i]) else None
  }

  function CombinedVowel(tokens: seq<u32>, index: nat, first: byte): (r: (byte, nat))
    ensures 1 <= r.1 <= 2
  {
    match VowelAt(tokens, index + 1)
    case None => (first, 1)
    case Some(second) =>
      match CombineVowel(first, second)
      case None => (first, 1)
      case Some(combined) => (combined, 2)
  }

  function CombinedTrailing(tokens: seq<u32>, index: nat): (r: (byte, nat))
    ensures r.1 <= 2 && (r.1 >= 1 <==> TrailingAt(tokens, index).Some?)
  {
    match TrailingAt(tokens, index)
    case None => (0, 0)
    case Some(first) =>
      match TrailingAt(tokens, index + 1)
      case None => (first, 1)
      case Some(second) =>
        match CombineTrailing(first, second)
        case None => (first, 1)
        case Some(combined) => (combined, 2)
  }

  function Syllable(leading: int, vowel: int, trailing: int): int {
    0xAC00 + (leading * 21 + vowel) * 28 + trailing
  }

  datatype Piece = Piece(rendered: seq<int>, width: nat)

  /** The greedy piece at the front of `tokens[i..]`: what it renders to and how many tokens it uses. */
  function PieceAt(tokens: seq<u32>, i: nat): (p: Piece)
    requires i < |tokens|
    ensures 1 <= p.width && i + p.width <= |tokens| && |p.rendered| <= 1
  {
    match LeadingOf(tokens[i])
    case Some(leading) =>
      (match VowelAt(tokens, i + 1)
       case Some(first) =>
         var (vowel, vowelWidth) := CombinedVowel(tokens, i + 1, first);
         var (trailing, trailingWidth) := CombinedTrailing(tokens, i + 1 + vowelWidth);
         Piece([Syllable(leading, vowel, trailing)], 1 + vowelWidth + trailingWidth)
       case None => Piece([0x1100 + leading as int], 1))
    case None =>
      Piece(Single(tokens[i]), 1)
  }

  /** The rendering of one token that starts no syllable. */
  function Single(token: u32): (r: seq<int>)
    ensures |r| <= 1
  {
    if VowelOf(token).Some? then [0x1161 + VowelOf(token).value as int]
    else if TrailingOf(token).Some? then [0x11A7 + TrailingOf(token).value as int]
    else if DigitOf(token).Some? then [0x30 + DigitOf(token).value as int]
    else if AsciiOf(token).Some? then [AsciiOf(token).value as int]
    else []
  }

  function RenderFrom(tokens: seq<u32>, i: nat): seq<int>
    requires i <= |tokens|
    decreases |tokens| - i
  {
    if i == |tokens| then [] else PieceAt(tokens, i).rendered + RenderFrom(tokens, i + PieceAt(tokens, i).width)
  }

  function Rendered(tokens: seq<u32>): seq<int> {
    RenderFrom(tokens, 0)
  }

  lemma PieceDone(tokens: seq<u32>, index: nat, before: seq<int>, piece: Piece)
    requires index < |tokens| && piece == PieceAt(tokens, index)
    ensures before + RenderFrom(tokens, index)
            == (before + piece.rendered) + RenderFrom(tokens, index + piece.width)
  {
    hide PieceAt;
    assert RenderFrom(tokens, index) == piece.rendered + RenderFrom(tokens, index + piece.width);
    hide RenderFrom;
  }

  /** The longest match after a leading consonant and a vowel. */
  method RenderSyllable(tokens: seq<u32>, index: nat, leading: byte, firstVowel: byte)
    returns (syllable: int, width: nat)
    requires index < |tokens| && LeadingOf(tokens[index]) == Some(leading)
    requires VowelAt(tokens, index + 1) == Some(firstVowel)
    ensures PieceAt(tokens, index) == Piece([syllable], width)
  {
    hide CombineTrailing, CombineVowel;
    var (vowelIndex, vowelWidth) := CombinedVowel(tokens, index + 1, firstVowel);
    var trailingIndex: byte := 0;
    var trailingWidth: nat := 0;
    var firstTrailing := TrailingAt(tokens, index + 1 + vowelWidth);
    if firstTrailing.Some? {
      trailingIndex := firstTrailing.value;
      trailingWidth := 1;
      var secondTrailing := TrailingAt(tokens, index + 2 + vowelWidth);
      if secondTrailing.Some? {
        var combined := CombineTrailing(firstTrailing.value, secondTrailing.value);
        if combined.Some? {
          trailingIndex := combined.value;
          trailingWidth := 2;
        }
      }
    }
    syllable := 0xAC00 + (leading as int * 21 + vowelIndex as int) * 28 + trailingIndex as int;
    width := 1 + vowelWidth + trailingWidth;
  }

  method Render(tokens: seq<u32>) returns (rendered: seq<int>)
    ensures rendered == Rendered(tokens)
  {
    rendered := [];
    var index: nat := 0;
    while index < |tokens|
      invariant index <= |tokens|
      invariant rendered + RenderFrom(tokens, index) == Rendered(tokens)
    {
      hide RenderFrom, Decode, CombinedVowel, CombinedTrailing;
      var leading := LeadingOf(tokens[index]);
      if leading.Some? {
        var firstVowel := VowelAt(tokens, index + 1);
        if firstVowel.Some? {
          var syllable, width := RenderSyllable(tokens, index, leading.value, firstVowel.value);
          PieceDone(tokens, index, rendered, Piece([syllable], width));
          rendered := rendered + [syllable];
          index := index + width;
          continue;
        }
        PieceDone(tokens, index, rendered, Piece([0x1100 + leading.value as int], 1));
        rendered := rendered + [0x1100 + leading.value as int];
        index := index + 1;
        continue;
      }
      PieceDone(tokens, index, rendered, Piece(Single(tokens[index]), 1));
      var vowel := VowelOf(tokens[index]);
      if vowel.Some? {
        rendered := rendered + [0x1161 + vowel.value as int];
        index := index + 1;
        continue;
      }
      var trailing := TrailingOf(tokens[index]);
      if trailing.Some? {
        rendered := rendered + [0x11A7 + trailing.value as int];
        index := index + 1;
        continue;
      }
      DigitIsNotAscii(tokens[index]);
      ghost var before := rendered;
      var digit := DigitOf(tokens[index]);
      if digit.Some? {
        rendered := rendered + [0x30 + digit.value as int];
      }
      var ascii := AsciiOf(tokens[index]);
      if ascii.Some? {
        rendered := rendered + [ascii.value as int];
      }
      assert rendered == before + Single(tokens[index]);
      index := index + 1;
    }
    assert rendered + [] == rendered;
  }

  lemma DigitIsNotAscii(token: u32)
    ensures DigitOf(token).None? || AsciiOf(token).None?
  {
  }
}
