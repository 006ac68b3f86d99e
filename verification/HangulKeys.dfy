/** Which key each identifier names, and what typing the named keys renders. */
module HangulKeys {
  import opened Common
  import opened Hangul
  import opened HangulTheorems
  import opened Session

  // ---------------------------------------------------------------------
  // Identifiers

  lemma VowelNames()
    ensures |VOWEL_KEYS| == 21 && Distinct(VOWEL_KEYS)
  {
  }

  lemma LeadingNames()
    ensures |LEADING_KEYS| == 19 && Distinct(LEADING_KEYS)
  {
  }

  lemma TrailingNames()
    ensures |TRAILING_KEYS| == 27 && Distinct(TRAILING_KEYS)
  {
  }

  lemma NamesAreShort(i: nat)
    ensures i < |LEADING_KEYS| ==> |LEADING_KEYS[i]| <= 20
    ensures i < |VOWEL_KEYS| ==> |VOWEL_KEYS[i]| <= 20
    ensures i < |TRAILING_KEYS| ==> |TRAILING_KEYS[i]| <= 20
  {
    TailsAreShort(i);
    hide TRAILING_KEYS;
  }

  lemma TailsAreShort(i: nat)
    ensures i < |TRAILING_KEYS| ==> |TRAILING_KEYS[i]| <= 20
  {
  }

  function HexOf(n: nat): (c: char)
    requires n < 16
  {
    if n < 10 then (48 + n) as char else (87 + n) as char
  }

  /** The one identifier of a key. */
  function IdOf(key: ResolvedKey): string
    requires key.Valid()
  {
    match key
    case Digit(d) => "digit-" + [(48 + d as int) as char]
    case AsciiKey(a) => "ascii-" + [HexOf(a / 16), HexOf(a % 16)]
    case Leading(l) => "jamo-" + LEADING_KEYS[l]
    case Vowel(v) => "vowel-" + VOWEL_KEYS[v]
    case Trailing(t) => "tail-" + TRAILING_KEYS[t - 1]
  }

  /** The keys that a policy offers. */
  predicate Offers(policy: InputPolicy, key: ResolvedKey) {
    match policy
    case Numeric(_) => key.Digit?
    case HangulPolicy(_) => key.Leading? || key.Vowel? || key.Trailing?
    case AsciiPolicy(_) => key.AsciiKey?
  }

  lemma {:induction false} PositionOf(names: seq<string>, i: nat)
    requires i < |names| && Distinct(names)
    ensures Position(names, names[i]) == Some(i)
  {
    if i > 0 {
      assert names[i] == names[1..][i - 1] && names[0] != names[i];
      PositionOf(names[1..], i - 1);
    }
  }

  lemma Stripped(prefix: string, name: string)
    ensures StripPrefix(prefix + name, prefix) == Some(name)
  {
    assert (prefix + name)[|prefix|..] == name;
  }

  lemma OtherPrefix(prefix: string, name: string, other: string)
    requires prefix != "" && other != "" && prefix[0] != other[0]
    ensures StripPrefix(prefix + name, other) == None
  {
    assert (prefix + name)[0] == prefix[0];
  }

  lemma HangulIdResolves(key: ResolvedKey)
    requires key.Valid() && (key.Leading? || key.Vowel? || key.Trailing?)
    ensures ResolveHangul(IdOf(key)) == Some(key) && |IdOf(key)| <= 64
  {
    hide LEADING_KEYS, VOWEL_KEYS, TRAILING_KEYS, StripPrefix, Position, Distinct;
    LeadingNames();
    VowelNames();
    TrailingNames();
    match key {
      case Leading(l) =>
        NamesAreShort(l);
        Stripped("jamo-", LEADING_KEYS[l]);
        PositionOf(LEADING_KEYS, l);
      case Vowel(v) =>
        NamesAreShort(v);
        OtherPrefix("vowel-", VOWEL_KEYS[v], "jamo-");
        Stripped("vowel-", VOWEL_KEYS[v]);
        PositionOf(VOWEL_KEYS, v);
      case Trailing(t) =>
        NamesAreShort(t - 1);
        OtherPrefix("tail-", TRAILING_KEYS[t - 1], "jamo-");
        OtherPrefix("tail-", TRAILING_KEYS[t - 1], "vowel-");
        Stripped("tail-", TRAILING_KEYS[t - 1]);
        PositionOf(TRAILING_KEYS, t - 1);
    }
  }

  lemma IdResolves(policy: InputPolicy, key: ResolvedKey)
    requires key.Valid() && Offers(policy, key)
    ensures Resolve(policy, IdOf(key)) == Success(key)
  {
    hide StripPrefix, ResolveHangul;
    match key {
      case Digit(d) => Stripped("digit-", [(48 + d as int) as char]);
      case AsciiKey(a) => Stripped("ascii-", [HexOf(a / 16), HexOf(a % 16)]);
      case _ => HangulIdResolves(key);
    }
  }

  /** An identifier resolves to a key exactly if the policy offers the key and the identifier is the key's own. */
  lemma ResolvesExactly(policy: InputPolicy, keyId: string, key: ResolvedKey)
    ensures Resolve(policy, keyId) == Success(key) <==> key.Valid() && Offers(policy, key) && keyId == IdOf(key)
    ensures Resolve(policy, keyId).Failure? ==> Resolve(policy, keyId).error == InvalidKey
  {
    ResolvedKeysAreValid(policy, keyId);
    ResolvedIsOffered(policy, keyId);
    hide Resolve, IdOf;
    if Resolve(policy, keyId) == Success(key) {
      IdResolves(policy, key);
      ResolveIsInjective(policy, keyId, IdOf(key));
    } else if key.Valid() && Offers(policy, key) {
      IdResolves(policy, key);
    }
  }

  lemma ResolvedIsOffered(policy: InputPolicy, keyId: string)
    ensures match Resolve(policy, keyId) {
              case Success(key) => Offers(policy, key)
              case Failure(error) => error == InvalidKey
            }
  {
    hide StripPrefix, Position;
  }

  // ---------------------------------------------------------------------
  // Typing

  predicate AllKeys(keys: seq<ResolvedKey>) {
    forall i :: 0 <= i < |keys| ==> keys[i].Valid()
  }

  function Tokens(keys: seq<ResolvedKey>): (tokens: seq<u32>)
    requires AllKeys(keys)
    ensures AllValid(tokens)
  {
    KeysAreValidTokens(keys);
    EncodeKeys(keys)
  }

  /** What typing keys one after the other shows. */
  function Shown(keys: seq<ResolvedKey>): seq<int>
    requires AllKeys(keys)
  {
    Rendered(Tokens(keys))
  }

  /** One more key. */
  lemma OneMoreKey(keys: seq<ResolvedKey>, key: ResolvedKey)
    requires AllKeys(keys) && key.Valid()
    ensures Shown(keys + [key]) == Push(Shown(keys), key)
  {
    KeyRoundTrip(key);
    hide KeyOf, EncodeKey, Push, Rendered, AllValid;
    TokensAppend(keys, key);
    hide EncodeKeys;
    AppendingOneKey(Tokens(keys), EncodeKey(key));
  }

  lemma TokensAppend(keys: seq<ResolvedKey>, key: ResolvedKey)
    requires AllKeys(keys) && key.Valid()
    ensures Tokens(keys + [key]) == Tokens(keys) + [EncodeKey(key)]
  {
    hide EncodeKey, AllValid;
  }

  /** Texts that look alike still look alike after the same keys. */
  lemma {:induction false} StillAlike(a: seq<ResolvedKey>, b: seq<ResolvedKey>, more: seq<ResolvedKey>)
    requires AllKeys(a) && AllKeys(b) && AllKeys(more) && Shown(a) == Shown(b)
    ensures AllKeys(a + more) && AllKeys(b + more) && Shown(a + more) == Shown(b + more)
    decreases |more|
  {
    hide Shown, Push;
    if more == [] {
      assert a + more == a && b + more == b;
    } else {
      var n := |more| - 1;
      StillAlike(a, b, more[..n]);
      OneMoreKey(a + more[..n], more[n]);
      OneMoreKey(b + more[..n], more[n]);
      assert a + more == (a + more[..n]) + [more[n]] && b + more == (b + more[..n]) + [more[n]];
    }
  }

  // ---------------------------------------------------------------------
  // Keys on their own

  /** A digit, a printable character or a leading consonant is always shown as itself. */
  lemma KeyShowsItself(before: seq<ResolvedKey>, key: ResolvedKey)
    requires AllKeys(before) && key.Valid() && (key.Digit? || key.AsciiKey? || key.Leading?)
    ensures Shown(before + [key])
            == Shown(before) + [match key {
                                  case Digit(d) => 0x30 + d as int
                                  case AsciiKey(a) => a as int
                                  case Leading(l) => 0x1100 + l as int
                                  case _ => 0
                                }]
  {
    hide Shown;
    OneMoreKey(before, key);
  }

  /** Numeric and printable input is shown character for character. */
  lemma {:induction false} PlainTextIsTyped(keys: seq<ResolvedKey>)
    requires AllKeys(keys) && forall i :: 0 <= i < |keys| ==> keys[i].Digit? || keys[i].AsciiKey?
    ensures |Shown(keys)| == |keys|
    ensures forall i :: 0 <= i < |keys| ==>
                          Shown(keys)[i] == if keys[i].Digit? then 0x30 + keys[i].value as int else keys[i].value as int
  {
    if keys == [] {
      assert Tokens(keys) == [];
    } else {
      var n := |keys| - 1;
      PlainTextIsTyped(keys[..n]);
      KeyShowsItself(keys[..n], keys[n]);
      assert keys == keys[..n] + [keys[n]];
      hide Shown;
      forall i | 0 <= i < n ensures Shown(keys)[i] == Shown(keys[..n])[i] && keys[..n][i] == keys[i] {
      }
    }
  }

  /** What `keys` shows ends in `c`. */
  predicate EndsIn(keys: seq<ResolvedKey>, c: int)
    requires AllKeys(keys)
  {
    Shown(keys) != [] && Shown(keys)[|Shown(keys)| - 1] == c
  }

  function Front<T>(s: seq<T>): seq<T>
    requires s != []
  {
    s[..|s| - 1]
  }

  lemma LastOf(keys: seq<ResolvedKey>, c: int)
    requires AllKeys(keys) && EndsIn(keys, c)
    ensures Shown(keys) != [] && Shown(keys) == Front(Shown(keys)) + [c]
  {
    hide Shown;
  }

  /** A vowel may join a leading consonant or an open syllable, a trailing consonant any syllable. */
  predicate CanJoin(c: int, key: ResolvedKey) {
    || (0x1100 <= c < 0x1113 && key.Vowel?)
    || (0xAC00 <= c <= 0xD7A3 && (c - 0xAC00) % 28 == 0)
    || (0xAC00 <= c <= 0xD7A3 && key.Trailing?)
  }

  /** A vowel or a trailing consonant after something it cannot join is a jamo of its own. */
  lemma LoneJamo(before: seq<ResolvedKey>, key: ResolvedKey)
    requires AllKeys(before) && key.Valid() && (key.Vowel? || key.Trailing?)
    requires Shown(before) != [] ==> !CanJoin(Shown(before)[|Shown(before)| - 1], key)
    ensures Shown(before + [key])
            == Shown(before) + [if key.Vowel? then 0x1161 + key.value as int else 0x11A7 + key.value as int]
  {
    hide Shown;
    OneMoreKey(before, key);
  }

  /** A vowel turns a leading consonant into an open syllable; a trailing consonant closes it. */
  lemma SyllableOfKeys(before: seq<ResolvedKey>, l: nat, v: nat, t: nat)
    requires AllKeys(before) && l < 19 && v < 21 && 1 <= t <= 27
    ensures AllKeys(before + [Leading(l), Vowel(v)]) && AllKeys(before + [Leading(l), Vowel(v), Trailing(t)])
    ensures Shown(before + [Leading(l), Vowel(v)]) == Shown(before) + [0xAC00 + 588 * l + 28 * v]
    ensures Shown(before + [Leading(l), Vowel(v), Trailing(t)]) == Shown(before) + [0xAC00 + 588 * l + 28 * v + t]
  {
    var one, two := before + [Leading(l)], before + [Leading(l), Vowel(v)];
    hide *;
    assert two == one + [Vowel(v)] && before + [Leading(l), Vowel(v), Trailing(t)] == two + [Trailing(t)];
    KeyShowsItself(before, Leading(l));
    VowelOpens(one, Shown(before), l, v);
    TailCloses(two, Shown(before), 0xAC00 + 588 * l + 28 * v, t);
  }

  /** A vowel after a leading consonant makes an open syllable. */
  lemma VowelOpens(keys: seq<ResolvedKey>, front: seq<int>, l: nat, v: nat)
    requires AllKeys(keys) && l < 19 && v < 21 && Shown(keys) == front + [0x1100 + l]
    ensures AllKeys(keys + [Vowel(v)]) && Shown(keys + [Vowel(v)]) == front + [0xAC00 + 588 * l + 28 * v]
  {
    hide Shown, Push, Extend;
    OneMoreKey(keys, Vowel(v));
    SyllableComposes(l, v, 1);
    PushReplaces(front, 0x1100 + l, Vowel(v));
  }

  /** A trailing consonant after an open syllable closes it. */
  lemma TailCloses(keys: seq<ResolvedKey>, front: seq<int>, c: int, t: nat)
    requires AllKeys(keys) && 1 <= t <= 27 && Shown(keys) == front + [c]
    requires 0xAC00 <= c <= 0xD7A3 && (c - 0xAC00) % 28 == 0
    ensures AllKeys(keys + [Trailing(t)]) && Shown(keys + [Trailing(t)]) == front + [c + t]
  {
    assert Extend(c, Trailing(t)) == Some(c + t);
    hide Shown, Push, Extend;
    OneMoreKey(keys, Trailing(t));
    PushReplaces(front, c, Trailing(t));
  }

  // ---------------------------------------------------------------------
  // Compound vowels and trailing consonants, by name

  /** Which two vowels make which third. */
  const COMPOUND_VOWELS: seq<(string, string, string)> := [
    ("a", "i", "ae"), ("ya", "i", "yae"), ("o", "a", "wa"), ("o", "ae", "wae"), ("o", "i", "oe"),
    ("u", "eo", "wo"), ("u", "e", "we"), ("u", "i", "wi"), ("eu", "i", "ui")
  ]

  /** Which two trailing consonants make a third; it is named after both. */
  const COMPOUND_TAILS: seq<(string, string)> := [
    ("giyeok", "siot"), ("nieun", "jieut"), ("nieun", "hieuh"), ("rieul", "giyeok"), ("rieul", "mieum"),
    ("rieul", "bieub"), ("rieul", "siot"), ("rieul", "tieut"), ("rieul", "pieup"), ("rieul", "hieuh"),
    ("bieub", "siot")
  ]

  predicate ListedVowels(i: nat, j: nat, k: nat)
    requires i < 21 && j < 21 && k < 21
  {
    (VOWEL_KEYS[i], VOWEL_KEYS[j], VOWEL_KEYS[k]) in COMPOUND_VOWELS
  }

  predicate ListedTails(i: nat, j: nat, k: nat)
    requires 1 <= i <= 27 && 1 <= j <= 27 && 1 <= k <= 27
  {
    (TRAILING_KEYS[i - 1], TRAILING_KEYS[j - 1]) in COMPOUND_TAILS
    && TRAILING_KEYS[k - 1] == TRAILING_KEYS[i - 1] + "-" + TRAILING_KEYS[j - 1]
  }

  lemma VowelIndices()
    ensures VOWEL_KEYS[0] == "a" && VOWEL_KEYS[1] == "ae" && VOWEL_KEYS[2] == "ya" && VOWEL_KEYS[3] == "yae"
    ensures VOWEL_KEYS[4] == "eo" && VOWEL_KEYS[5] == "e" && VOWEL_KEYS[8] == "o" && VOWEL_KEYS[9] == "wa"
    ensures VOWEL_KEYS[10] == "wae" && VOWEL_KEYS[11] == "oe" && VOWEL_KEYS[13] == "u" && VOWEL_KEYS[14] == "wo"
    ensures VOWEL_KEYS[15] == "we" && VOWEL_KEYS[16] == "wi" && VOWEL_KEYS[18] == "eu" && VOWEL_KEYS[19] == "ui"
    ensures VOWEL_KEYS[20] == "i"
  {
  }

  /** The renderer's table is the list of names. */
  lemma VowelTable(i: nat, j: nat, k: nat)
    requires i < 21 && j < 21 && k < 21
    ensures ListedVowels(i, j, k) <==> CombineVowel(i, j) == Some(k)
  {
    VowelNames();
    VowelIndices();
    hide VOWEL_KEYS;
  }

  lemma TailIndices()
    ensures TRAILING_KEYS[0] == "giyeok" && TRAILING_KEYS[3] == "nieun" && TRAILING_KEYS[7] == "rieul"
    ensures TRAILING_KEYS[15] == "mieum" && TRAILING_KEYS[16] == "bieub" && TRAILING_KEYS[18] == "siot"
    ensures TRAILING_KEYS[21] == "jieut" && TRAILING_KEYS[24] == "tieut" && TRAILING_KEYS[25] == "pieup"
    ensures TRAILING_KEYS[26] == "hieuh"
    ensures TRAILING_KEYS[2] == "giyeok" + "-" + "siot" && TRAILING_KEYS[4] == "nieun" + "-" + "jieut"
    ensures TRAILING_KEYS[5] == "nieun" + "-" + "hieuh" && TRAILING_KEYS[8] == "rieul" + "-" + "giyeok"
    ensures TRAILING_KEYS[9] == "rieul" + "-" + "mieum" && TRAILING_KEYS[10] == "rieul" + "-" + "bieub"
    ensures TRAILING_KEYS[11] == "rieul" + "-" + "siot" && TRAILING_KEYS[12] == "rieul" + "-" + "tieut"
    ensures TRAILING_KEYS[13] == "rieul" + "-" + "pieup" && TRAILING_KEYS[14] == "rieul" + "-" + "hieuh"
    ensures TRAILING_KEYS[17] == "bieub" + "-" + "siot"
  {
  }

  lemma TailTable(i: nat, j: nat, k: nat)
    requires 1 <= i <= 27 && 1 <= j <= 27 && 1 <= k <= 27
    ensures ListedTails(i, j, k) <==> CombineTrailing(i, j) == Some(k)
  {
    TrailingNames();
    TailIndices();
    hide TRAILING_KEYS;
  }

  /** After a leading consonant, the two halves of a listed vowel show what the compound vowel shows. */
  lemma HalvesMakeVowel(before: seq<ResolvedKey>, l: nat, i: nat, j: nat, k: nat, more: seq<ResolvedKey>)
    requires AllKeys(before) && AllKeys(more) && l < 19 && EndsIn(before, 0x1100 + l)
    requires i < 21 && j < 21 && k < 21 && ListedVowels(i, j, k)
    ensures AllKeys(before + [Vowel(i), Vowel(j)]) && AllKeys(before + [Vowel(k)])
    ensures AllKeys(before + [Vowel(i), Vowel(j)] + more) && AllKeys(before + [Vowel(k)] + more)
    ensures Shown(before + [Vowel(i), Vowel(j)]) == Front(Shown(before)) + [0xAC00 + 588 * l + 28 * k]
    ensures Shown(before + [Vowel(i), Vowel(j)] + more) == Shown(before + [Vowel(k)] + more)
  {
    hide *;
    LastOf(before, 0x1100 + l);
    VowelTable(i, j, k);
    VowelsJoin(before, Front(Shown(before)), l, i, j, k);
    VowelOpens(before, Front(Shown(before)), l, k);
    StillAlike(before + [Vowel(i), Vowel(j)], before + [Vowel(k)], more);
  }

  lemma VowelsJoin(before: seq<ResolvedKey>, front: seq<int>, l: nat, i: nat, j: nat, k: nat)
    requires AllKeys(before) && l < 19 && Shown(before) == front + [0x1100 + l]
    requires i < 21 && j < 21 && k < 21 && CombineVowel(i, j) == Some(k)
    ensures AllKeys(before + [Vowel(i), Vowel(j)])
    ensures Shown(before + [Vowel(i), Vowel(j)]) == front + [0xAC00 + 588 * l + 28 * k]
  {
    hide *;
    VowelIsValid(i);
    VowelIsValid(j);
    var one := before + [Vowel(i)];
    assert before + [Vowel(i), Vowel(j)] == one + [Vowel(j)];
    VowelOpens(before, front, l, i);
    OneMoreKey(one, Vowel(j));
    ComposedVowel(l, i, j, k);
    PushReplaces(front, 0xAC00 + 588 * l + 28 * i, Vowel(j));
    KeysAppend(one, Vowel(j));
  }

  lemma ComposedVowel(l: nat, i: nat, j: nat, k: nat)
    requires l < 19 && i < 21 && j < 21 && k < 21
    ensures CombineVowel(i, j) == Some(k) ==>
              Extend(0xAC00 + 588 * l + 28 * i, Vowel(j)) == Some(0xAC00 + 588 * l + 28 * k)
    ensures CombineVowel(i, j) == None ==> Extend(0xAC00 + 588 * l + 28 * i, Vowel(j)) == None
  {
    hide *;
    SyllableAt(l, i, 0);
    SyllableAt(l, k, 0);
    ExtendOpen(l, i, j);
  }

  lemma SyllableAt(l: int, v: int, t: int)
    ensures Syllable(l, v, t) == 0xAC00 + 588 * l + 28 * v + t
  {
  }

  lemma ExtendOpen(l: nat, i: nat, j: nat)
    requires l < 19 && i < 21 && j < 21
    ensures Extend(Syllable(l, i, 0), Vowel(j))
            == match CombineVowel(i, j) {
                 case Some(k) => Some(Syllable(l, k, 0))
                 case None => None
               }
  {
    SyllableRoundTrip(l, i, 0);
    var c := Syllable(l, i, 0);
    assert IsSyllable(c) && !IsLeadingJamo(c) by {
      SyllableAt(l, i, 0);
    }
    hide CombineVowel, CombineTrailing, Syllable, LeadingIndex, VowelIndex, TrailingIndex, IsSyllable, IsLeadingJamo;
  }

  /** After a leading consonant, two vowels that are not listed stay two: the second is shown as a jamo of its own. */
  lemma OtherVowelsStand(before: seq<ResolvedKey>, l: nat, i: nat, j: nat)
    requires AllKeys(before) && l < 19 && EndsIn(before, 0x1100 + l) && i < 21 && j < 21
    requires forall k: nat :: k < 21 ==> !ListedVowels(i, j, k)
    ensures AllKeys(before + [Vowel(i), Vowel(j)])
    ensures Shown(before + [Vowel(i), Vowel(j)])
            == Front(Shown(before)) + [0xAC00 + 588 * l + 28 * i, 0x1161 + j]
  {
    hide *;
    LastOf(before, 0x1100 + l);
    var front, one := Front(Shown(before)), before + [Vowel(i)];
    VowelIsValid(i);
    VowelIsValid(j);
    if CombineVowel(i, j).Some? {
      VowelTable(i, j, CombineVowel(i, j).value);
    }
    ComposedVowel(l, i, j, 0);
    assert before + [Vowel(i), Vowel(j)] == one + [Vowel(j)];
    VowelOpens(before, front, l, i);
    OneMoreKey(one, Vowel(j));
    KeysAppend(one, Vowel(j));
    PushStands(front, 0xAC00 + 588 * l + 28 * i, Vowel(j));
  }

  /** A key that does not compose with the last code point is shown next to it. */
  lemma PushStands(front: seq<int>, c: int, key: ResolvedKey)
    requires Extend(c, key) == None
    ensures Push(front + [c], key) == front + [c, Jamo(key)]
    ensures key.Vowel? ==> Jamo(key) == 0x1161 + key.value
    ensures key.Trailing? ==> Jamo(key) == 0x11A7 + key.value
  {
    hide Extend;
    assert (front + [c]) + [Jamo(key)] == front + [c, Jamo(key)];
  }

  /** After an open syllable, the two halves of a listed trailing consonant show what the compound shows. */
  lemma HalvesMakeTail(before: seq<ResolvedKey>, c: int, i: nat, j: nat, k: nat, more: seq<ResolvedKey>)
    requires AllKeys(before) && AllKeys(more) && EndsIn(before, c) && 0xAC00 <= c <= 0xD7A3 && (c - 0xAC00) % 28 == 0
    requires 1 <= i <= 27 && 1 <= j <= 27 && 1 <= k <= 27 && ListedTails(i, j, k)
    ensures AllKeys(before + [Trailing(i), Trailing(j)]) && AllKeys(before + [Trailing(k)])
    ensures AllKeys(before + [Trailing(i), Trailing(j)] + more) && AllKeys(before + [Trailing(k)] + more)
    ensures Shown(before + [Trailing(i), Trailing(j)]) == Front(Shown(before)) + [c + k]
    ensures Shown(before + [Trailing(i), Trailing(j)] + more) == Shown(before + [Trailing(k)] + more)
  {
    hide *;
    LastOf(before, c);
    TailTable(i, j, k);
    TailsJoin(before, Front(Shown(before)), c, i, j, k);
    TailCloses(before, Front(Shown(before)), c, k);
    StillAlike(before + [Trailing(i), Trailing(j)], before + [Trailing(k)], more);
  }

  lemma TailsJoin(before: seq<ResolvedKey>, front: seq<int>, c: int, i: nat, j: nat, k: nat)
    requires AllKeys(before) && Shown(before) == front + [c] && 0xAC00 <= c <= 0xD7A3 && (c - 0xAC00) % 28 == 0
    requires 1 <= i <= 27 && 1 <= j <= 27 && 1 <= k <= 27 && CombineTrailing(i, j) == Some(k)
    ensures AllKeys(before + [Trailing(i), Trailing(j)])
    ensures Shown(before + [Trailing(i), Trailing(j)]) == front + [c + k]
  {
    hide *;
    TailIsValid(i);
    TailIsValid(j);
    var one := before + [Trailing(i)];
    assert before + [Trailing(i), Trailing(j)] == one + [Trailing(j)];
    TailCloses(before, front, c, i);
    OneMoreKey(one, Trailing(j));
    ComposedTail(c, i, j, k);
    PushReplaces(front, c + i, Trailing(j));
    KeysAppend(one, Trailing(j));
  }

  lemma VowelIsValid(v: nat)
    requires v < 21
    ensures Vowel(v).Valid()
  {
  }

  lemma TailIsValid(t: nat)
    requires 1 <= t <= 27
    ensures Trailing(t).Valid()
  {
  }

  lemma KeysAppend(keys: seq<ResolvedKey>, key: ResolvedKey)
    requires AllKeys(keys) && key.Valid()
    ensures AllKeys(keys + [key])
  {
  }

  lemma ComposedTail(c: int, i: nat, j: nat, k: nat)
    requires 0xAC00 <= c <= 0xD7A3 && (c - 0xAC00) % 28 == 0 && 1 <= i <= 27 && 1 <= j <= 27 && 1 <= k <= 27
    ensures CombineTrailing(i, j) == Some(k) ==> Extend(c + i, Trailing(j)) == Some(c + k)
    ensures CombineTrailing(i, j) == None ==> Extend(c + i, Trailing(j)) == None
  {
    hide *;
    OpenParts(c);
    var l, v := LeadingIndex(c), VowelIndex(c);
    SyllableAt(l, v, 0);
    SyllableAt(l, v, i);
    SyllableAt(l, v, k);
    ExtendClosed(l, v, i, j);
  }

  lemma OpenParts(c: int)
    requires 0xAC00 <= c <= 0xD7A3 && (c - 0xAC00) % 28 == 0
    ensures 0 <= LeadingIndex(c) < 19 && 0 <= VowelIndex(c) < 21
    ensures Syllable(LeadingIndex(c), VowelIndex(c), 0) == c
  {
    SyllableParts(c);
    hide Syllable, LeadingIndex, VowelIndex;
  }

  lemma ExtendClosed(l: nat, v: nat, i: nat, j: nat)
    requires l < 19 && v < 21 && 1 <= i <= 27 && 1 <= j <= 27
    ensures Extend(Syllable(l, v, i), Trailing(j))
            == match CombineTrailing(i, j) {
                 case Some(k) => Some(Syllable(l, v, k))
                 case None => None
               }
  {
    SyllableRoundTrip(l, v, i);
    hide CombineVowel, CombineTrailing, Syllable, LeadingIndex, VowelIndex, TrailingIndex, IsSyllable;
  }

  /** After an open syllable, two trailing consonants that are not listed stay two. */
  lemma OtherTailsStand(before: seq<ResolvedKey>, c: int, i: nat, j: nat)
    requires AllKeys(before) && EndsIn(before, c) && 0xAC00 <= c <= 0xD7A3 && (c - 0xAC00) % 28 == 0
    requires 1 <= i <= 27 && 1 <= j <= 27 && forall k: nat :: 1 <= k <= 27 ==> !ListedTails(i, j, k)
    ensures AllKeys(before + [Trailing(i), Trailing(j)])
    ensures Shown(before + [Trailing(i), Trailing(j)]) == Front(Shown(before)) + [c + i, 0x11A7 + j]
  {
    hide *;
    LastOf(before, c);
    var front, one := Front(Shown(before)), before + [Trailing(i)];
    TailIsValid(i);
    TailIsValid(j);
    if CombineTrailing(i, j).Some? {
      TailTable(i, j, CombineTrailing(i, j).value);
    }
    ComposedTail(c, i, j, 1);
    assert before + [Trailing(i), Trailing(j)] == one + [Trailing(j)];
    TailCloses(before, front, c, i);
    OneMoreKey(one, Trailing(j));
    KeysAppend(one, Trailing(j));
    PushStands(front, c + i, Trailing(j));
  }
}
