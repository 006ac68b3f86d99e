/**
 What the renderer promises: the greedy longest match is the same as composing
 one key at a time, its output is stable under the composition of section 3.12
 of the Unicode Standard, and splitting the output back into jamo loses nothing.
 */
module HangulTheorems {
  import opened Common
  import opened Hangul

  /** The key a token stands for. */
  function KeyOf(token: u32): (k: Option<ResolvedKey>)
    ensures LeadingOf(token) == (if k.Some? && k.value.Leading? then Some(k.value.value) else None)
    ensures VowelOf(token) == (if k.Some? && k.value.Vowel? then Some(k.value.value) else None)
    ensures TrailingOf(token) == (if k.Some? && k.value.Trailing? then Some(k.value.value) else None)
    ensures DigitOf(token) == (if k.Some? && k.value.Digit? then Some(k.value.value) else None)
    ensures AsciiOf(token) == (if k.Some? && k.value.AsciiKey? then Some(k.value.value) else None)
  {
    if LeadingOf(token).Some? then Some(Leading(LeadingOf(token).value))
    else if VowelOf(token).Some? then Some(Vowel(VowelOf(token).value))
    else if TrailingOf(token).Some? then Some(Trailing(TrailingOf(token).value))
    else if DigitOf(token).Some? then Some(Digit(DigitOf(token).value))
    else if AsciiOf(token).Some? then Some(AsciiKey(AsciiOf(token).value))
    else None
  }

  lemma KeyRoundTrip(key: ResolvedKey)
    ensures KeyOf(EncodeKey(key)) == Some(key)
  {
    TokensDecode(key);
  }

  predicate ValidToken(token: u32) {
    KeyOf(token).Some? && KeyOf(token).value.Valid()
  }

  predicate AllValid(tokens: seq<u32>) {
    forall i :: 0 <= i < |tokens| ==> ValidToken(tokens[i])
  }

  // ---------------------------------------------------------------------
  // Composing one key at a time

  predicate IsLeadingJamo(c: int) { 0x1100 <= c < 0x1100 + 19 }

  predicate IsSyllable(c: int) { 0xAC00 <= c <= 0xD7A3 }

  function LeadingIndex(c: int): int { (c - 0xAC00) / 588 }

  function VowelIndex(c: int): int { (c - 0xAC00) / 28 % 21 }

  function TrailingIndex(c: int): int { (c - 0xAC00) % 28 }

  /** Each syllable recovers its three indices. */
  lemma SyllableRoundTrip(l: int, v: int, t: int)
    requires 0 <= l < 19 && 0 <= v < 21 && 0 <= t < 28
    ensures var c := Syllable(l, v, t);
            IsSyllable(c) && LeadingIndex(c) == l && VowelIndex(c) == v && TrailingIndex(c) == t
  {
    var n := (l * 21 + v) * 28 + t;
    assert n % 28 == t && n / 28 == l * 21 + v;
    assert (l * 21 + v) % 21 == v && (l * 21 + v) / 21 == l;
    assert n / 588 == l;
  }

  lemma SyllableParts(c: int)
    requires IsSyllable(c)
    ensures 0 <= LeadingIndex(c) < 19 && 0 <= VowelIndex(c) < 21 && 0 <= TrailingIndex(c) < 28
    ensures Syllable(LeadingIndex(c), VowelIndex(c), TrailingIndex(c)) == c
  {
    var n := c - 0xAC00;
    assert n / 588 == n / 28 / 21;
  }

  /** The code point of one key on its own. */
  function Jamo(key: ResolvedKey): int {
    match key
    case Leading(l) => 0x1100 + l as int
    case Vowel(v) => 0x1161 + v as int
    case Trailing(t) => 0x11A7 + t as int
    case Digit(d) => 0x30 + d as int
    case AsciiKey(a) => a as int
  }

  /** The code point that `key` turns the last code point `c` into, if it composes with it. */
  function Extend(c: int, key: ResolvedKey): Option<int> {
    if IsLeadingJamo(c) && key.Vowel? then Some(Syllable(c - 0x1100, key.value, 0))
    else if IsSyllable(c) && TrailingIndex(c) == 0 && key.Trailing? then Some(c + key.value)
    else if IsSyllable(c) && TrailingIndex(c) == 0 && key.Vowel? then
      var combined := CombineVowel(VowelIndex(c), key.value);
      if combined.Some? then Some(Syllable(LeadingIndex(c), combined.value, 0)) else None
    else if IsSyllable(c) && TrailingIndex(c) != 0 && key.Trailing? then
      var combined := CombineTrailing(TrailingIndex(c), key.value);
      if combined.Some? then Some(Syllable(LeadingIndex(c), VowelIndex(c), combined.value)) else None
    else None
  }

  /** The renderer that sees one more key: it replaces the last code point or appends one. */
  function Push(rendered: seq<int>, key: ResolvedKey): seq<int> {
    if rendered != [] && Extend(rendered[|rendered| - 1], key).Some?
    then rendered[..|rendered| - 1] + [Extend(rendered[|rendered| - 1], key).value]
    else rendered + [Jamo(key)]
  }

  function Incremental(tokens: seq<u32>): seq<int>
    requires AllValid(tokens)
  {
    if tokens == [] then [] else Push(Incremental(tokens[..|tokens| - 1]), KeyOf(tokens[|tokens| - 1]).value)
  }

  /** A valid piece renders to one code point. */
  lemma PieceRenders(tokens: seq<u32>, i: nat)
    requires AllValid(tokens) && i < |tokens|
    ensures |PieceAt(tokens, i).rendered| == 1
  {
    assert ValidToken(tokens[i]);
  }

  /** A piece that ends before the last token does not look at what is appended. */
  lemma PieceIsLocal(tokens: seq<u32>, token: u32, i: nat)
    requires AllValid(tokens) && i < |tokens| && i + PieceAt(tokens, i).width < |tokens|
    ensures PieceAt(tokens + [token], i) == PieceAt(tokens, i)
  {
    hide Decode, CombineVowel, CombineTrailing;
    var longer := tokens + [token];
    assert forall j :: 0 <= j < |tokens| ==> longer[j] == tokens[j];
  }

  lemma RenderStep(tokens: seq<u32>, i: nat)
    requires i < |tokens|
    ensures var piece := PieceAt(tokens, i);
            RenderFrom(tokens, i)
            == if i + piece.width == |tokens| then piece.rendered
               else piece.rendered + RenderFrom(tokens, i + piece.width)
  {
    hide PieceAt;
  }

  lemma OneTokenLeft(tokens: seq<u32>, i: nat)
    requires AllValid(tokens) && i + 1 == |tokens|
    ensures RenderFrom(tokens, i) == [Jamo(KeyOf(tokens[i]).value)]
  {
    hide Decode, RenderFrom, CombineVowel, CombineTrailing;
    assert ValidToken(tokens[i]);
    RenderStep(tokens, i);
  }

  /** Either the piece takes the last token in, or the token is rendered after it. */
  lemma GrowsOrFollows(longer: seq<u32>, i: nat)
    requires AllValid(longer) && i < |longer|
    ensures i + PieceAt(longer, i).width == |longer| ==> RenderFrom(longer, i) == PieceAt(longer, i).rendered
    ensures i + PieceAt(longer, i).width + 1 == |longer| ==>
              RenderFrom(longer, i) == PieceAt(longer, i).rendered + [Jamo(KeyOf(longer[|longer| - 1]).value)]
  {
    hide PieceAt, RenderFrom, KeyOf, Jamo, AllValid;
    RenderStep(longer, i);
    if i + PieceAt(longer, i).width + 1 == |longer| {
      OneTokenLeft(longer, |longer| - 1);
    }
  }

  lemma AppendToLone(longer: seq<u32>, i: nat)
    requires AllValid(longer) && i + 2 == |longer|
    ensures RenderFrom(longer, i) == Push([Jamo(KeyOf(longer[i]).value)], KeyOf(longer[i + 1]).value)
  {
    assert ValidToken(longer[i]) && ValidToken(longer[i + 1]);
    hide Decode, CombinedVowel, CombinedTrailing, RenderFrom, KeyOf, Push, Jamo, AllValid, PieceAt;
    var key, next := KeyOf(longer[i]).value, KeyOf(longer[i + 1]).value;
    KeyTags(longer[i]);
    KeyTags(longer[i + 1]);
    PushOnJamo(key, next);
    GrowsOrFollows(longer, i);
    if key.Leading? && next.Vowel? {
      LeadingTakesVowel(longer, i, key.value, next.value);
    } else {
      LonePiece(longer, i);
      assert [Jamo(key)] + [Jamo(next)] == [Jamo(key), Jamo(next)];
    }
  }

  /** A token decodes as the key it stands for, under that key's tag only. */
  lemma KeyTags(token: u32)
    requires ValidToken(token)
    ensures var key := KeyOf(token).value;
            && key.Valid()
            && LeadingOf(token) == (if key.Leading? then Some(key.value) else None)
            && VowelOf(token) == (if key.Vowel? then Some(key.value) else None)
            && TrailingOf(token) == (if key.Trailing? then Some(key.value) else None)
  {
  }

  /** A lone key and the key after it: only a leading consonant and a vowel compose. */
  lemma PushOnJamo(key: ResolvedKey, next: ResolvedKey)
    requires key.Valid() && next.Valid()
    ensures Push([Jamo(key)], next)
            == if key.Leading? && next.Vowel? then [Syllable(key.value, next.value, 0)] else [Jamo(key), Jamo(next)]
  {
    hide Syllable, CombineVowel, CombineTrailing;
    assert IsLeadingJamo(Jamo(key)) <==> key.Leading?;
    assert !IsSyllable(Jamo(key));
    hide IsLeadingJamo, IsSyllable;
    assert key.Leading? ==> Jamo(key) - 0x1100 == key.value as int;
  }

  lemma LeadingTakesVowel(longer: seq<u32>, i: nat, l: byte, v: byte)
    requires i + 2 == |longer| && LeadingOf(longer[i]) == Some(l) && VowelOf(longer[i + 1]) == Some(v)
    ensures PieceAt(longer, i) == Piece([Syllable(l, v, 0)], 2)
  {
    hide Decode, Syllable;
    assert CombinedVowel(longer, i + 1, v) == (v, 1) && CombinedTrailing(longer, i + 2) == (0, 0);
  }

  lemma SyllableIsNoLeading(l: int, v: int, t: int)
    requires 0 <= l < 19 && 0 <= v < 21 && 0 <= t < 28
    ensures !IsLeadingJamo(Syllable(l, v, t))
  {
  }

  lemma SyllableAdds(l: int, v: int, t: int, more: int)
    ensures Syllable(l, v, t) + more == Syllable(l, v, t + more)
  {
  }

  /** What one more key makes of a last syllable without a trailing consonant. */
  lemma PushOnOpen(l: byte, v: byte, key: ResolvedKey)
    requires l < 19 && v < 21 && key.Valid()
    ensures Push([Syllable(l, v, 0)], key)
            == if key.Trailing? then [Syllable(l, v, key.value)]
               else if key.Vowel? && CombineVowel(v, key.value).Some?
                    then [Syllable(l, CombineVowel(v, key.value).value, 0)]
               else [Syllable(l, v, 0), Jamo(key)]
  {
    hide CombineVowel, CombineTrailing;
    SyllableRoundTrip(l, v, 0);
    SyllableIsNoLeading(l, v, 0);
    SyllableAdds(l, v, 0, if key.Trailing? then key.value else 0);
    hide LeadingIndex, VowelIndex, TrailingIndex, IsSyllable, IsLeadingJamo, Syllable, Jamo;
  }

  /** What one more key makes of a last syllable with one. */
  lemma PushOnClosed(l: byte, v: byte, t: byte, key: ResolvedKey)
    requires l < 19 && v < 21 && 1 <= t <= 27 && key.Valid()
    ensures Push([Syllable(l, v, t)], key)
            == if key.Trailing? && CombineTrailing(t, key.value).Some?
               then [Syllable(l, v, CombineTrailing(t, key.value).value)]
               else [Syllable(l, v, t), Jamo(key)]
  {
    hide CombineVowel, CombineTrailing;
    SyllableRoundTrip(l, v, t);
    SyllableIsNoLeading(l, v, t);
    hide LeadingIndex, VowelIndex, TrailingIndex, IsSyllable, IsLeadingJamo, Syllable, Jamo;
  }

  /** A syllable of `width` vowel tokens without a trailing consonant, and the token after it. */
  lemma OpenPiece(longer: seq<u32>, i: nat, l: byte, first: byte, v: byte, width: nat)
    requires AllValid(longer) && i + 1 + width + 1 == |longer|
    requires LeadingOf(longer[i]) == Some(l) && VowelAt(longer, i + 1) == Some(first)
    requires (width == 1 && v == first)
             || (width == 2 && VowelAt(longer, i + 2).Some?
                 && CombineVowel(first, VowelAt(longer, i + 2).value) == Some(v))
    ensures l < 19 && v < 21 && ValidToken(longer[|longer| - 1])
    ensures var key := KeyOf(longer[|longer| - 1]).value;
            PieceAt(longer, i)
            == if key.Trailing? then Piece([Syllable(l, v, key.value)], 2 + width)
               else if width == 1 && key.Vowel? && CombineVowel(v, key.value).Some?
                    then Piece([Syllable(l, CombineVowel(v, key.value).value, 0)], 3)
                    else Piece([Syllable(l, v, 0)], 1 + width)
    ensures width == 2 ==> CombineVowel(v, KeyOf(longer[|longer| - 1]).value.value) == None
  {
    assert ValidToken(longer[i]) && ValidToken(longer[i + 1]) && ValidToken(longer[|longer| - 1]);
    if width == 2 {
      CombinationsAreFinal(first, VowelAt(longer, i + 2).value, KeyOf(longer[|longer| - 1]).value.value);
    }
    hide Decode, CombineVowel, CombineTrailing, Syllable, AllValid, ValidToken;
  }

  lemma AppendToOpen(longer: seq<u32>, i: nat, l: byte, first: byte, v: byte, width: nat)
    requires AllValid(longer) && i + 1 + width + 1 == |longer|
    requires LeadingOf(longer[i]) == Some(l) && VowelAt(longer, i + 1) == Some(first)
    requires (width == 1 && v == first)
             || (width == 2 && VowelAt(longer, i + 2).Some?
                 && CombineVowel(first, VowelAt(longer, i + 2).value) == Some(v))
    requires KeyOf(longer[|longer| - 1]).Some?
    ensures RenderFrom(longer, i) == Push([Syllable(l, v, 0)], KeyOf(longer[|longer| - 1]).value)
  {
    hide Decode, CombineVowel, CombineTrailing, RenderFrom, Syllable, KeyOf, AllValid, PieceAt, Push, Jamo,
      LeadingOf, VowelAt;
    OpenPiece(longer, i, l, first, v, width);
    PushOnOpen(l, v, KeyOf(longer[|longer| - 1]).value);
    GrowsOrFollows(longer, i);
  }

  /** A syllable closed by one or two trailing consonants that start at `at`, and the token after it. */
  lemma ClosedPiece(longer: seq<u32>, i: nat, l: byte, v: byte, at: nat, first: byte, t: byte, width: nat)
    requires AllValid(longer) && i + 2 <= at <= i + 3 && at + width + 1 == |longer|
    requires LeadingOf(longer[i]) == Some(l) && VowelAt(longer, i + 1).Some?
    requires CombinedVowel(longer, i + 1, VowelAt(longer, i + 1).value) == (v, at - i - 1)
    requires TrailingAt(longer, at) == Some(first)
    requires (width == 1 && t == first)
             || (width == 2 && TrailingAt(longer, at + 1).Some?
                 && CombineTrailing(first, TrailingAt(longer, at + 1).value) == Some(t))
    ensures l < 19 && v < 21 && 1 <= t <= 27 && ValidToken(longer[|longer| - 1])
    ensures var key := KeyOf(longer[|longer| - 1]).value;
            PieceAt(longer, i)
            == if width == 1 && key.Trailing? && CombineTrailing(t, key.value).Some?
               then Piece([Syllable(l, v, CombineTrailing(t, key.value).value)], at - i + 2)
               else Piece([Syllable(l, v, t)], at - i + width)
    ensures width == 2 ==> CombineTrailing(t, KeyOf(longer[|longer| - 1]).value.value) == None
  {
    assert ValidToken(longer[i]) && ValidToken(longer[i + 1]);
    assert ValidToken(longer[at]) && ValidToken(longer[|longer| - 1]);
    if width == 2 {
      CombinationsAreFinal(first, TrailingAt(longer, at + 1).value, KeyOf(longer[|longer| - 1]).value.value);
    }
    hide Decode, CombineVowel, CombineTrailing, Syllable, AllValid, ValidToken;
  }

  lemma AppendToClosed(longer: seq<u32>, i: nat, l: byte, v: byte, at: nat, first: byte, t: byte, width: nat)
    requires AllValid(longer) && i + 2 <= at <= i + 3 && at + width + 1 == |longer|
    requires LeadingOf(longer[i]) == Some(l) && VowelAt(longer, i + 1).Some?
    requires CombinedVowel(longer, i + 1, VowelAt(longer, i + 1).value) == (v, at - i - 1)
    requires TrailingAt(longer, at) == Some(first)
    requires (width == 1 && t == first)
             || (width == 2 && TrailingAt(longer, at + 1).Some?
                 && CombineTrailing(first, TrailingAt(longer, at + 1).value) == Some(t))
    requires KeyOf(longer[|longer| - 1]).Some?
    ensures RenderFrom(longer, i) == Push([Syllable(l, v, t)], KeyOf(longer[|longer| - 1]).value)
  {
    hide Decode, CombineVowel, CombineTrailing, RenderFrom, Syllable, KeyOf, AllValid, PieceAt, Push, Jamo,
      LeadingOf, VowelAt, TrailingAt, CombinedVowel;
    ClosedPiece(longer, i, l, v, at, first, t, width);
    PushOnClosed(l, v, t, KeyOf(longer[|longer| - 1]).value);
    GrowsOrFollows(longer, i);
  }

  /** Appending a token to a text that is one piece. */
  lemma AppendToPiece(tokens: seq<u32>, token: u32, i: nat)
    requires AllValid(tokens) && ValidToken(token) && i < |tokens| && i + PieceAt(tokens, i).width == |tokens|
    ensures RenderFrom(tokens + [token], i) == Push(RenderFrom(tokens, i), KeyOf(token).value)
  {
    var longer := tokens + [token];
    assert AllValid(longer) && forall j :: 0 <= j < |tokens| ==> longer[j] == tokens[j];
    assert ValidToken(tokens[i]);
    RenderStep(tokens, i);
    hide RenderFrom, Push, KeyOf, AllValid, ValidToken, LeadingOf, VowelAt, Decode, VowelOf;
    if LeadingOf(tokens[i]).None? || VowelAt(tokens, i + 1).None? {
      LonePiece(tokens, i);
      AppendToLone(longer, i);
    } else {
      AppendToSyllable(tokens, token, i);
    }
  }

  lemma AppendToSyllable(tokens: seq<u32>, token: u32, i: nat)
    requires AllValid(tokens + [token]) && i < |tokens| && i + PieceAt(tokens, i).width == |tokens|
    requires LeadingOf(tokens[i]).Some? && VowelAt(tokens, i + 1).Some? && KeyOf(token).Some?
    ensures RenderFrom(tokens + [token], i) == Push(PieceAt(tokens, i).rendered, KeyOf(token).value)
  {
    var longer := tokens + [token];
    hide LeadingOf, Decode, VowelOf, TrailingOf, CombineVowel, CombineTrailing;
    hide RenderFrom, Push, Syllable, AllValid, KeyOf;
    var l, first := LeadingOf(tokens[i]).value, VowelAt(tokens, i + 1).value;
    var (v, vowelWidth) := CombinedVowel(tokens, i + 1, first);
    var at := i + 1 + vowelWidth;
    var (t, trailingWidth) := CombinedTrailing(tokens, at);
    assert PieceAt(tokens, i) == Piece([Syllable(l, v, t)], 1 + vowelWidth + trailingWidth);
    assert longer[i] == tokens[i] && longer[i + 1] == tokens[i + 1];
    if trailingWidth == 0 {
      AppendToOpen(longer, i, l, first, v, vowelWidth);
    } else {
      assert CombinedVowel(longer, i + 1, first) == (v, vowelWidth);
      AppendToClosed(longer, i, l, v, at, TrailingAt(tokens, at).value, t, trailingWidth);
    }
  }

  lemma LonePiece(tokens: seq<u32>, i: nat)
    requires i < |tokens| && ValidToken(tokens[i])
    requires LeadingOf(tokens[i]).None? || VowelAt(tokens, i + 1).None?
    ensures PieceAt(tokens, i) == Piece([Jamo(KeyOf(tokens[i]).value)], 1)
  {
    hide Decode;
  }

  lemma {:induction false} AppendFrom(tokens: seq<u32>, token: u32, i: nat)
    requires AllValid(tokens) && ValidToken(token) && i < |tokens|
    ensures RenderFrom(tokens, i) != []
    ensures RenderFrom(tokens + [token], i) == Push(RenderFrom(tokens, i), KeyOf(token).value)
    decreases |tokens| - i
  {
    hide Decode, Extend, RenderFrom, PieceAt, Jamo, Push, AllValid, KeyOf;
    var longer, w := tokens + [token], PieceAt(tokens, i).width;
    PieceRenders(tokens, i);
    RenderStep(tokens, i);
    if i + w == |tokens| {
      AppendToPiece(tokens, token, i);
    } else {
      PieceIsLocal(tokens, token, i);
      AppendFrom(tokens, token, i + w);
      RenderStep(longer, i);
      PushAfter(PieceAt(tokens, i).rendered, RenderFrom(tokens, i + w), KeyOf(token).value);
    }
  }

  lemma PushAfter(c: seq<int>, rest: seq<int>, key: ResolvedKey)
    requires rest != []
    ensures Push(c + rest, key) == c + Push(rest, key)
  {
    hide Extend, Jamo;
    assert (c + rest)[|c + rest| - 1] == rest[|rest| - 1];
    assert (c + rest)[..|c + rest| - 1] == c + rest[..|rest| - 1];
  }

  /** One more key changes at most the last code point and adds at most one. */
  lemma AppendingOneKey(tokens: seq<u32>, token: u32)
    requires AllValid(tokens) && ValidToken(token)
    ensures Rendered(tokens + [token]) == Push(Rendered(tokens), KeyOf(token).value)
  {
    if tokens == [] {
      assert tokens + [token] == [token];
      OneTokenLeft([token], 0);
    } else {
      AppendFrom(tokens, token, 0);
    }
  }

  /** The greedy longest match over the whole text is the incremental composition of its keys. */
  lemma {:induction false} RenderIsIncremental(tokens: seq<u32>)
    requires AllValid(tokens)
    ensures Rendered(tokens) == Incremental(tokens)
  {
    if tokens != [] {
      var front, last := tokens[..|tokens| - 1], tokens[|tokens| - 1];
      assert tokens == front + [last];
      assert ValidToken(last);
      RenderIsIncremental(front);
      AppendingOneKey(front, last);
    }
  }

  // ---------------------------------------------------------------------
  // Stability

  predicate IsVowelJamo(c: int) { 0x1161 <= c < 0x1161 + 21 }

  predicate IsTrailingJamo(c: int) { 0x11A7 < c < 0x11A7 + 28 }

  predicate IsPrintable(c: int) { 0x20 <= c <= 0x7E }

  /** The code points a valid text can render to. */
  predicate Renderable(c: int) {
    IsSyllable(c) || IsLeadingJamo(c) || IsVowelJamo(c) || IsTrailingJamo(c) || IsPrintable(c)
  }

  /** The jamo, or the character, that a rendered code point begins with. */
  function HeadKey(c: int): (k: ResolvedKey)
    requires Renderable(c)
    ensures k.Valid()
  {
    if IsSyllable(c) then
      SyllableParts(c);
      Leading(LeadingIndex(c))
    else if IsLeadingJamo(c) then Leading(c - 0x1100)
    else if IsVowelJamo(c) then Vowel(c - 0x1161)
    else if IsTrailingJamo(c) then Trailing(c - 0x11A7)
    else if 0x30 <= c <= 0x39 then Digit(c - 0x30)
    else AsciiKey(c)
  }

  /** No code point composes with what the next one begins with. */
  ghost predicate Stable(rendered: seq<int>) {
    && (forall i :: 0 <= i < |rendered| ==> Renderable(rendered[i]))
    && (forall i :: 0 < i < |rendered| ==> Extend(rendered[i - 1], HeadKey(rendered[i])) == None)
  }

  /** Composing keeps what the code point begins with. */
  lemma ExtendKeepsHead(c: int, key: ResolvedKey)
    requires Renderable(c) && key.Valid() && Extend(c, key).Some?
    ensures Renderable(Extend(c, key).value) && HeadKey(Extend(c, key).value) == HeadKey(c)
  {
    hide CombineVowel, CombineTrailing;
    if IsLeadingJamo(c) {
      SyllableRoundTrip(c - 0x1100, key.value, 0);
    } else {
      SyllableParts(c);
      var l, v, t := LeadingIndex(c), VowelIndex(c), TrailingIndex(c);
      if t == 0 && key.Trailing? {
        SyllableRoundTrip(l, v, key.value);
        assert Extend(c, key).value == Syllable(l, v, key.value);
      } else if t == 0 {
        SyllableRoundTrip(l, CombineVowel(v, key.value).value, 0);
      } else {
        SyllableRoundTrip(l, v, CombineTrailing(t, key.value).value);
      }
    }
  }

  /** A key on its own renders to a code point that composes exactly as the key would. */
  lemma JamoHead(c: int, key: ResolvedKey)
    requires key.Valid()
    ensures Renderable(Jamo(key)) && Extend(c, HeadKey(Jamo(key))) == Extend(c, key)
  {
  }

  lemma PushKeepsStable(rendered: seq<int>, key: ResolvedKey)
    requires Stable(rendered) && key.Valid()
    ensures Stable(Push(rendered, key))
  {
    var n, pushed := |rendered|, Push(rendered, key);
    if rendered != [] && Extend(rendered[n - 1], key).Some? {
      ExtendKeepsHead(rendered[n - 1], key);
      hide Extend, Renderable, HeadKey, Jamo;
      assert forall i :: 0 <= i < n - 1 ==> pushed[i] == rendered[i];
    } else {
      JamoHead(if n == 0 then 0 else rendered[n - 1], key);
      hide Extend, Renderable, HeadKey, Jamo;
      assert forall i :: 0 <= i < n ==> pushed[i] == rendered[i];
    }
  }

  lemma {:induction false} RenderedIsStable(tokens: seq<u32>)
    requires AllValid(tokens)
    ensures Stable(Rendered(tokens))
    decreases |tokens|
  {
    RenderIsIncremental(tokens);
    hide Rendered, Push, Stable, KeyOf;
    if tokens == [] {
      NothingIsStable();
    } else {
      var front := tokens[..|tokens| - 1];
      RenderedIsStable(front);
      RenderIsIncremental(front);
      assert ValidToken(tokens[|tokens| - 1]);
      PushKeepsStable(Incremental(front), KeyOf(tokens[|tokens| - 1]).value);
    }
  }

  lemma NothingIsStable()
    ensures Stable([])
  {
  }

  // ---------------------------------------------------------------------
  // The composition of section 3.12

  /** The primary composite of a pair of code points, if the standard defines one. */
  function PrimaryComposite(a: int, b: int): Option<int> {
    if IsLeadingJamo(a) && IsVowelJamo(b) then Some(0xAC00 + ((a - 0x1100) * 21 + (b - 0x1161)) * 28)
    else if IsSyllable(a) && (a - 0xAC00) % 28 == 0 && IsTrailingJamo(b) then Some(a + (b - 0x11A7))
    else None
  }

  /** Hangul composition, from left to right. */
  function Compose(cs: seq<int>): seq<int>
    decreases |cs|
  {
    if |cs| < 2 then cs
    else
      match PrimaryComposite(cs[0], cs[1])
      case Some(c) => Compose([c] + cs[2..])
      case None => [cs[0]] + Compose(cs[1..])
  }

  lemma {:induction false} StableIsComposed(cs: seq<int>)
    requires Stable(cs)
    ensures Compose(cs) == cs
    decreases |cs|
  {
    if |cs| >= 2 {
      NoPrimaryComposite(cs[0], cs[1]);
      assert Stable(cs[1..]) by {
        forall i | 0 < i < |cs[1..]| ensures Extend(cs[1..][i - 1], HeadKey(cs[1..][i])) == None {
          assert cs[1..][i] == cs[i + 1] && cs[1..][i - 1] == cs[i];
        }
      }
      StableIsComposed(cs[1..]);
    }
  }

  lemma NoPrimaryComposite(a: int, b: int)
    requires Renderable(b) && Extend(a, HeadKey(b)) == None
    ensures PrimaryComposite(a, b) == None
  {
  }

  /** Rendered text is a fixed point of Hangul composition. */
  lemma RenderedIsComposed(tokens: seq<u32>)
    requires AllValid(tokens)
    ensures Compose(Rendered(tokens)) == Rendered(tokens)
  {
    RenderedIsStable(tokens);
    StableIsComposed(Rendered(tokens));
  }

  // ---------------------------------------------------------------------
  // Splitting the rendering back

  function SplitKeys(c: int): (keys: seq<ResolvedKey>)
    requires Renderable(c)
    ensures |keys| >= 1 && forall i :: 0 <= i < |keys| ==> keys[i].Valid()
  {
    if IsSyllable(c) then
      SyllableParts(c);
      var open := [Leading(LeadingIndex(c)), Vowel(VowelIndex(c))];
      if TrailingIndex(c) == 0 then open else open + [Trailing(TrailingIndex(c))]
    else [HeadKey(c)]
  }

  function EncodeKeys(keys: seq<ResolvedKey>): (tokens: seq<u32>)
    ensures |tokens| == |keys|
  {
    seq(|keys|, i requires 0 <= i < |keys| => EncodeKey(keys[i]))
  }

  /** The jamo tokens of a whole rendered text. */
  function Split(rendered: seq<int>): seq<u32>
    requires forall i :: 0 <= i < |rendered| ==> Renderable(rendered[i])
  {
    if rendered == [] then []
    else Split(rendered[..|rendered| - 1]) + EncodeKeys(SplitKeys(rendered[|rendered| - 1]))
  }

  function PushAll(rendered: seq<int>, keys: seq<ResolvedKey>): seq<int> {
    if keys == [] then rendered else Push(PushAll(rendered, keys[..|keys| - 1]), keys[|keys| - 1])
  }

  lemma KeysAreValidTokens(keys: seq<ResolvedKey>)
    requires forall i :: 0 <= i < |keys| ==> keys[i].Valid()
    ensures AllValid(EncodeKeys(keys))
    ensures forall i :: 0 <= i < |keys| ==> KeyOf(EncodeKeys(keys)[i]) == Some(keys[i])
  {
    hide KeyOf, EncodeKey;
    forall i | 0 <= i < |keys| ensures KeyOf(EncodeKeys(keys)[i]) == Some(keys[i]) {
      KeyRoundTrip(keys[i]);
    }
  }

  lemma IncrementalStep(tokens: seq<u32>, token: u32)
    requires AllValid(tokens) && ValidToken(token)
    ensures AllValid(tokens + [token])
    ensures Incremental(tokens + [token]) == Push(Incremental(tokens), KeyOf(token).value)
  {
    hide KeyOf, Push;
    assert (tokens + [token])[..|tokens|] == tokens;
  }

  lemma PushAllStep(rendered: seq<int>, keys: seq<ResolvedKey>)
    requires keys != []
    ensures PushAll(rendered, keys) == Push(PushAll(rendered, keys[..|keys| - 1]), keys[|keys| - 1])
  {
    hide Push;
  }

  lemma {:induction false} IncrementalAppend(tokens: seq<u32>, keys: seq<ResolvedKey>)
    requires AllValid(tokens) && forall i :: 0 <= i < |keys| ==> keys[i].Valid()
    ensures AllValid(tokens + EncodeKeys(keys))
    ensures Incremental(tokens + EncodeKeys(keys)) == PushAll(Incremental(tokens), keys)
    decreases |keys|
  {
    if keys == [] {
      assert tokens + EncodeKeys(keys) == tokens;
    } else {
      var front, last := keys[..|keys| - 1], keys[|keys| - 1];
      assert tokens + EncodeKeys(keys) == (tokens + EncodeKeys(front)) + [EncodeKey(last)];
      KeyRoundTrip(last);
      hide KeyOf, EncodeKey, Push, AllValid, Incremental, PushAll, EncodeKeys;
      IncrementalAppend(tokens, front);
      IncrementalStep(tokens + EncodeKeys(front), EncodeKey(last));
      PushAllStep(Incremental(tokens), keys);
    }
  }

  lemma SyllableComposes(l: byte, v: byte, t: byte)
    requires l < 19 && v < 21 && 1 <= t <= 27
    ensures Extend(0x1100 + l as int, Vowel(v)) == Some(Syllable(l, v, 0))
    ensures Extend(Syllable(l, v, 0), Trailing(t)) == Some(Syllable(l, v, t))
  {
    hide CombineVowel, CombineTrailing;
    SyllableRoundTrip(l, v, 0);
    SyllableIsNoLeading(l, v, 0);
    SyllableAdds(l, v, 0, t);
    assert IsLeadingJamo(0x1100 + l as int);
    hide LeadingIndex, VowelIndex, TrailingIndex, IsSyllable, IsLeadingJamo, Syllable;
  }

  lemma SplitSyllable(c: int)
    requires IsSyllable(c)
    ensures 0 <= LeadingIndex(c) < 19 && 0 <= VowelIndex(c) < 21 && 0 <= TrailingIndex(c) < 28
    ensures var open := [Leading(LeadingIndex(c)), Vowel(VowelIndex(c))];
            SplitKeys(c) == if TrailingIndex(c) == 0 then open else open + [Trailing(TrailingIndex(c))]
  {
    SyllableParts(c);
  }

  lemma SyllableStarts(rendered: seq<int>, c: int, l: byte)
    requires IsSyllable(c) && l as int == LeadingIndex(c)
    requires rendered != [] ==> Extend(rendered[|rendered| - 1], HeadKey(c)) == None
    ensures Push(rendered, Leading(l)) == rendered + [0x1100 + l as int]
  {
    hide Extend;
    assert HeadKey(c) == Leading(l);
  }

  lemma PushSplitSyllable(rendered: seq<int>, c: int)
    requires IsSyllable(c)
    requires rendered != [] ==> Extend(rendered[|rendered| - 1], HeadKey(c)) == None
    ensures PushAll(rendered, SplitKeys(c)) == rendered + [c]
  {
    hide Push, PushAll, Extend, SplitKeys, IsSyllable, LeadingIndex, VowelIndex, TrailingIndex, HeadKey, Syllable;
    SplitSyllable(c);
    SyllableParts(c);
    var l: byte, v: byte, t: byte := LeadingIndex(c), VowelIndex(c), TrailingIndex(c);
    SyllableStarts(rendered, c, l);
    SyllableComposes(l, v, if t == 0 then 1 else t);
    PushReplaces(rendered, 0x1100 + l as int, Vowel(v));
    var keys := SplitKeys(c);
    PushAllUnfolds(rendered, keys);
    if t == 0 {
      assert keys[0] == Leading(l) && keys[1] == Vowel(v) && |keys| == 2;
    } else {
      assert keys[0] == Leading(l) && keys[1] == Vowel(v) && keys[2] == Trailing(t) && |keys| == 3;
      PushReplaces(rendered, Syllable(l, v, 0), Trailing(t));
    }
  }

  /** Pushing the keys of a code point after something it does not compose with gives that code point. */
  lemma PushSplit(rendered: seq<int>, c: int)
    requires Renderable(c)
    requires rendered != [] ==> Extend(rendered[|rendered| - 1], HeadKey(c)) == None
    ensures PushAll(rendered, SplitKeys(c)) == rendered + [c]
  {
    if IsSyllable(c) {
      PushSplitSyllable(rendered, c);
    } else {
      assert SplitKeys(c) == [HeadKey(c)] && Jamo(HeadKey(c)) == c;
      PushAllUnfolds(rendered, [HeadKey(c)]);
      hide PushAll, Extend, SplitKeys, HeadKey, Jamo;
    }
  }

  lemma PushReplaces(rendered: seq<int>, c: int, key: ResolvedKey)
    requires Extend(c, key).Some?
    ensures Push(rendered + [c], key) == rendered + [Extend(c, key).value]
  {
    hide Extend;
    assert (rendered + [c])[..|rendered|] == rendered;
  }

  lemma PushAllUnfolds(rendered: seq<int>, keys: seq<ResolvedKey>)
    requires 1 <= |keys| <= 3
    ensures |keys| == 1 ==> PushAll(rendered, keys) == Push(rendered, keys[0])
    ensures |keys| == 2 ==> PushAll(rendered, keys) == Push(Push(rendered, keys[0]), keys[1])
    ensures |keys| == 3 ==> PushAll(rendered, keys) == Push(Push(Push(rendered, keys[0]), keys[1]), keys[2])
  {
    hide Push;
    assert PushAll(rendered, keys[..0]) == rendered;
    assert PushAll(rendered, keys[..1]) == Push(rendered, keys[0]);
    if |keys| >= 2 {
      assert keys[..2][..1] == keys[..1];
      assert PushAll(rendered, keys[..2]) == Push(PushAll(rendered, keys[..1]), keys[1]);
    }
    assert keys[..|keys|] == keys;
  }

  lemma {:induction false} SplitRenders(rendered: seq<int>)
    requires Stable(rendered)
    ensures AllValid(Split(rendered)) && Incremental(Split(rendered)) == rendered
    decreases |rendered|
  {
    hide *;
    if rendered == [] {
      NothingSplits();
    } else {
      var n := |rendered|;
      var front, last := rendered[..n - 1], rendered[n - 1];
      StableFront(rendered);
      SplitUnfolds(rendered);
      SplitRenders(front);
      SplitStep(front, last);
      assert rendered == front + [last];
    }
  }

  lemma NothingSplits()
    ensures Split([]) == [] && AllValid([]) && Incremental([]) == []
  {
  }

  lemma SplitStep(front: seq<int>, last: int)
    requires (forall i :: 0 <= i < |front| ==> Renderable(front[i])) && Renderable(last)
    requires front != [] ==> Extend(front[|front| - 1], HeadKey(last)) == None
    requires AllValid(Split(front)) && Incremental(Split(front)) == front
    ensures var tokens := Split(front) + EncodeKeys(SplitKeys(last));
            AllValid(tokens) && Incremental(tokens) == front + [last]
  {
    hide *;
    IncrementalAppend(Split(front), SplitKeys(last));
    PushSplit(front, last);
  }

  lemma StableFront(rendered: seq<int>)
    requires Stable(rendered) && rendered != []
    ensures var n := |rendered| - 1;
            && Stable(rendered[..n]) && Renderable(rendered[n])
            && (forall i :: 0 <= i < n ==> Renderable(rendered[..n][i]))
            && (n > 0 ==> Extend(rendered[..n][n - 1], HeadKey(rendered[n])) == None)
  {
    hide Extend, Renderable, HeadKey;
  }

  lemma SplitUnfolds(rendered: seq<int>)
    requires rendered != [] && forall i :: 0 <= i < |rendered| ==> Renderable(rendered[i])
    ensures var n := |rendered| - 1;
            Split(rendered) == Split(rendered[..n]) + EncodeKeys(SplitKeys(rendered[n]))
  {
    hide Renderable, SplitKeys, EncodeKeys;
  }

  /** Splitting every rendered code point into jamo tokens and rendering those gives the same text. */
  lemma SplitRoundTrip(tokens: seq<u32>)
    requires AllValid(tokens)
    ensures Stable(Rendered(tokens))
    ensures AllValid(Split(Rendered(tokens)))
    ensures Rendered(Split(Rendered(tokens))) == Rendered(tokens)
  {
    RenderedIsStable(tokens);
    SplitRenders(Rendered(tokens));
    RenderIsIncremental(Split(Rendered(tokens)));
  }

  /** A token that stands for no key renders to nothing and hides its neighbours from each other. */
  lemma UnknownTokensBreakComposition(tokens: seq<u32>)
    requires |tokens| == 3 && tokens[0] == 0x2000 && tokens[1] == 0 && tokens[2] == 0x3000
    ensures !AllValid(tokens)
    ensures Rendered(tokens) == [0x1100, 0x1161] && Compose(Rendered(tokens)) == [0xAC00]
  {
    assert LeadingOf(tokens[0]) == Some(0) && VowelOf(tokens[2]) == Some(0) && LeadingOf(tokens[2]) == None;
    assert KeyOf(tokens[1]) == None;
    hide Decode, CombineVowel, CombineTrailing, Compose, RenderFrom, KeyOf;
    RenderStep(tokens, 2);
    RenderStep(tokens, 1);
    RenderStep(tokens, 0);
    assert PieceAt(tokens, 0) == Piece([0x1100], 1) && PieceAt(tokens, 1) == Piece([], 1);
    assert PieceAt(tokens, 2) == Piece([0x1161], 1);
    hide PieceAt;
    assert [0x1100] + ([] + [0x1161]) == [0x1100, 0x1161];
    ComposePair();
  }

  lemma ComposePair()
    ensures Compose([0x1100, 0x1161]) == [0xAC00]
  {
    assert [0xAC00] + [0x1100, 0x1161][2..] == [0xAC00];
  }
}
