/** The secure input session: key policy, zero-tailed token buffer, and the session state machine. */
module Session {
  import opened Common
  import opened Hangul
  import opened HangulTheorems
  import Utf8

  const MAX_KEY_ID_BYTES: nat := 64
  const MAX_INPUT_TOKENS: nat := 4_096

  // ---------------------------------------------------------------------
  // Key policy

  const LEADING_KEYS: seq<string> := [
    "giyeok", "ssang-giyeok", "nieun", "digeut", "ssang-digeut", "rieul", "mieum", "bieub", "ssang-bieub", "siot",
    "ssang-siot", "ieung", "jieut", "ssang-jieut", "chieut", "kieuk", "tieut", "pieup", "hieuh"
  ]

  const VOWEL_KEYS: seq<string> := [
    "a", "ae", "ya", "yae", "eo", "e", "yeo", "ye", "o", "wa", "wae", "oe", "yo", "u", "wo", "we", "wi", "yu", "eu",
    "ui", "i"
  ]

  const TRAILING_KEYS: seq<string> := [
    "giyeok", "ssang-giyeok", "giyeok-siot", "nieun", "nieun-jieut", "nieun-hieuh", "digeut", "rieul", "rieul-giyeok",
    "rieul-mieum", "rieul-bieub", "rieul-siot", "rieul-tieut", "rieul-pieup", "rieul-hieuh", "mieum", "bieub",
    "bieub-siot", "siot", "ssang-siot", "ieung", "jieut", "chieut", "kieuk", "tieut", "pieup", "hieuh"
  ]

  datatype InputPolicy = Numeric(maxTokens: nat) | HangulPolicy(maxTokens: nat) | AsciiPolicy(maxTokens: nat)

  datatype InputError = InvalidKey | InputLimitReached

  function Clamp(n: nat, low: nat, high: nat): (r: nat)
    requires low <= high
    ensures (n < low ==> r == low) && (low <= n <= high ==> r == n) && (high < n ==> r == high)
  {
    if n < low then low else if n > high then high else n
  }

  function NumericPolicy(maxTokens: nat): InputPolicy { Numeric(Clamp(maxTokens, 1, MAX_INPUT_TOKENS)) }

  function HangulInput(maxTokens: nat): InputPolicy { HangulPolicy(Clamp(maxTokens, 1, MAX_INPUT_TOKENS)) }

  function AsciiInput(maxTokens: nat): InputPolicy { AsciiPolicy(Clamp(maxTokens, 1, MAX_INPUT_TOKENS)) }

  function StripPrefix(s: string, prefix: string): (r: Option<string>)
    ensures r.Some? ==> s == prefix + r.value
    ensures r.None? ==> !(|prefix| <= |s| && s[..|prefix|] == prefix)
  {
    if |prefix| <= |s| && s[..|prefix|] == prefix then Some(s[|prefix|..]) else None
  }

  /** The index of the first occurrence of `name`. */
  function Position(names: seq<string>, name: string): (r: Option<nat>)
    ensures r.Some? ==> r.value < |names| && names[r.value] == name
    ensures r.None? <==> name !in names
  {
    if names == [] then None
    else if names[0] == name then Some(0)
    else
      match Position(names[1..], name)
      case None => None
      case Some(i) => Some(i + 1)
  }

  function PositionUnder(key: string, prefix: string, names: seq<string>): (r: Option<nat>)
    ensures r.Some? ==> r.value < |names| && key == prefix + names[r.value]
  {
    match StripPrefix(key, prefix)
    case None => None
    case Some(name) => Position(names, name)
  }

  function ResolveHangul(key: string): Option<ResolvedKey> {
    var leading := PositionUnder(key, "jamo-", LEADING_KEYS);
    if leading.Some? then Some(Leading(leading.value))
    else
      var vowel := PositionUnder(key, "vowel-", VOWEL_KEYS);
      if vowel.Some? then Some(Vowel(vowel.value))
      else
        var trailing := PositionUnder(key, "tail-", TRAILING_KEYS);
        if trailing.Some? then Some(Trailing(trailing.value + 1)) else None
  }

  function HexValue(c: char): (r: Option<nat>)
    ensures r.Some? ==> r.value < 16
  {
    if '0' <= c <= '9' then Some(c as int - '0' as int)
    else if 'a' <= c <= 'f' then Some(c as int - 'a' as int + 10)
    else None
  }

  function Resolve(policy: InputPolicy, key: string): Result<ResolvedKey, InputError> {
    if |key| > MAX_KEY_ID_BYTES then Failure(InvalidKey)
    else
      match policy
      case Numeric(_) =>
        (match StripPrefix(key, "digit-")
         case None => Failure(InvalidKey)
         case Some(digit) =>
           if |digit| == 1 && '0' <= digit[0] <= '9' then Success(Digit(digit[0] as int - '0' as int))
           else Failure(InvalidKey))
      case HangulPolicy(_) =>
        (match ResolveHangul(key)
         case None => Failure(InvalidKey)
         case Some(k) => Success(k))
      case AsciiPolicy(_) =>
        (match StripPrefix(key, "ascii-")
         case None => Failure(InvalidKey)
         case Some(hex) =>
           if |hex| == 2 && HexValue(hex[0]).Some? && HexValue(hex[1]).Some?
              && 0x20 <= 16 * HexValue(hex[0]).value + HexValue(hex[1]).value <= 0x7E
           then Success(AsciiKey(16 * HexValue(hex[0]).value + HexValue(hex[1]).value))
           else Failure(InvalidKey))
  }

  /** Every key a policy resolves is in range. */
  lemma ResolvedKeysAreValid(policy: InputPolicy, key: string)
    ensures Resolve(policy, key).Success? ==> Resolve(policy, key).value.Valid()
  {
  }

  /** No two identifiers of one policy name the same key. */
  lemma ResolveIsInjective(policy: InputPolicy, a: string, b: string)
    requires Resolve(policy, a).Success? && Resolve(policy, a) == Resolve(policy, b)
    ensures a == b
  {
    hide HexValue, ResolveHangul;
    match policy {
      case Numeric(_) =>
        assert StripPrefix(a, "digit-").value == [a[6]] && StripPrefix(b, "digit-").value == [b[6]];
      case HangulPolicy(_) =>
        HangulIsInjective(a, b);
      case AsciiPolicy(_) =>
        AsciiIsInjective(StripPrefix(a, "ascii-").value, StripPrefix(b, "ascii-").value);
    }
  }

  lemma HangulIsInjective(a: string, b: string)
    requires ResolveHangul(a).Some? && ResolveHangul(a) == ResolveHangul(b)
    ensures a == b
  {
    hide PositionUnder;
  }

  lemma AsciiIsInjective(s: string, t: string)
    requires |s| == 2 && HexValue(s[0]).Some? && HexValue(s[1]).Some?
    requires |t| == 2 && HexValue(t[0]).Some? && HexValue(t[1]).Some?
    requires 16 * HexValue(s[0]).value + HexValue(s[1]).value == 16 * HexValue(t[0]).value + HexValue(t[1]).value
    ensures s == t
  {
    assert s[0] == t[0] && s[1] == t[1];
  }

  // ---------------------------------------------------------------------
  // The token buffer

  class SecretTokenBuffer {
    const tokens: array<u32>
    var len: nat

    /** Nothing is left behind the used part. */
    ghost predicate Valid()
      reads this, tokens
    {
      len <= tokens.Length && forall i :: len <= i < tokens.Length ==> tokens[i] == 0
    }

    ghost function View(): seq<u32>
      reads this, tokens
      requires Valid()
    {
      tokens[..len]
    }

    constructor (capacity: nat)
      ensures Valid() && fresh(tokens) && tokens.Length == capacity && View() == []
    {
      tokens := new u32[capacity](_ => 0);
      len := 0;
    }

    method Push(token: u32)
      requires Valid() && len < tokens.Length
      modifies this, tokens
      ensures Valid() && View() == old(View()) + [token]
    {
      tokens[len] := token;
      len := len + 1;
    }

    method Pop()
      requires Valid()
      modifies this, tokens
      ensures Valid() && View() == if old(View()) == [] then [] else old(View())[..|old(View())| - 1]
    {
      if len == 0 {
        return;
      }
      len := len - 1;
      tokens[len] := 0;
    }

    method Clear()
      requires Valid()
      modifies this, tokens
      ensures Valid() && View() == [] && forall i :: 0 <= i < tokens.Length ==> tokens[i] == 0
    {
      for i := 0 to len
        invariant len == old(len)
        invariant forall j :: 0 <= j < i ==> tokens[j] == 0
        invariant forall j :: len <= j < tokens.Length ==> tokens[j] == 0
      {
        tokens[i] := 0;
      }
      len := 0;
    }

    /** What dropping the buffer does to its storage. */
    method Wipe()
      modifies tokens
      ensures forall i :: 0 <= i < tokens.Length ==> tokens[i] == 0
    {
      for i := 0 to tokens.Length
        invariant forall j :: 0 <= j < i ==> tokens[j] == 0
      {
        tokens[i] := 0;
      }
    }
  }

  class SecretInput {
    const policy: InputPolicy
    const buffer: SecretTokenBuffer
    ghost var keys: seq<ResolvedKey>

    ghost const Repr: set<object> := {this, buffer, buffer.tokens}

    ghost predicate Valid()
      reads this, buffer, buffer.tokens
    {
      && buffer.Valid() && buffer.tokens.Length == policy.maxTokens
      && buffer.View() == EncodeKeys(keys)
      && forall i :: 0 <= i < |keys| ==> keys[i].Valid()
    }

    constructor (policy: InputPolicy)
      ensures Valid() && fresh(Repr) && this.policy == policy && keys == []
    {
      this.policy := policy;
      buffer := new SecretTokenBuffer(policy.maxTokens);
      keys := [];
    }

    method Push(keyId: string) returns (r: Option<InputError>)
      requires Valid()
      modifies Repr
      ensures Valid()
      ensures if |old(keys)| >= policy.maxTokens then r == Some(InputLimitReached) && keys == old(keys)
              else match Resolve(policy, keyId) {
                     case Failure(error) => r == Some(error) && keys == old(keys)
                     case Success(key) => r == None && keys == old(keys) + [key]
                   }
    {
      if buffer.len >= policy.maxTokens {
        return Some(InputLimitReached);
      }
      var resolved := Resolve(policy, keyId);
      if resolved.Failure? {
        return Some(resolved.error);
      }
      ResolvedKeysAreValid(policy, keyId);
      hide Resolve;
      buffer.Push(EncodeKey(resolved.value));
      keys := keys + [resolved.value];
      return None;
    }

    method Backspace()
      requires Valid()
      modifies Repr
      ensures Valid() && keys == DropLast(old(keys))
    {
      buffer.Pop();
      keys := DropLast(keys);
    }

    method Clear()
      requires Valid()
      modifies Repr
      ensures Valid() && keys == []
    {
      buffer.Clear();
      keys := [];
    }

    method IsEmpty() returns (empty: bool)
      requires Valid()
      ensures empty <==> keys == []
    {
      empty := buffer.len == 0;
    }

    method RenderedLength() returns (length: nat)
      requires Valid()
      ensures length == |Rendered(EncodeKeys(keys))|
    {
      var rendered := Render(buffer.tokens[..buffer.len]);
      length := |rendered|;
    }

    /** Consumes the input: the tokens are wiped once they are encoded. */
    method IntoSecretBuffer() returns (secret: Utf8.SecretBuffer)
      requires Valid()
      modifies buffer.tokens
      ensures fresh(secret) && secret.bytes == Utf8.EncodeLossy(Rendered(old(EncodeKeys(keys))))
      ensures forall i :: 0 <= i < buffer.tokens.Length ==> buffer.tokens[i] == 0
    {
      var rendered := Render(buffer.tokens[..buffer.len]);
      KeysAreValidTokens(keys);
      RenderedIsScalar(EncodeKeys(keys));
      var codepoints := new u32[|rendered|](
        i requires 0 <= i < |rendered| && 0 <= rendered[i] < 0x11_0000 => rendered[i]);
      assert codepoints[..] == rendered;
      secret := Utf8.EncodeRenderedToSecretBuffer(codepoints);
      buffer.Wipe();
    }
  }

  function DropLast<T>(s: seq<T>): seq<T> {
    if s == [] then [] else s[..|s| - 1]
  }

  /** Every rendered code point is a Unicode scalar value. */
  lemma RenderedIsScalar(tokens: seq<u32>)
    requires AllValid(tokens)
    ensures forall i :: 0 <= i < |Rendered(tokens)| ==>
                          Utf8.IsScalar(Rendered(tokens)[i]) && Renderable(Rendered(tokens)[i])
  {
    RenderedIsStable(tokens);
  }

  // ---------------------------------------------------------------------
  // The session

  datatype DisplayState = Empty | Masked | Submitted | Cancelled

  datatype SessionError = KeyRejected | LimitReached | NothingEntered | Inactive

  /** What a host can do, with the clock readings of the call: `now` at its start, `done` when the activity is noted. */
  datatype Op =
    | PressKey(now: int, keyId: string, done: int)
    | Backspace(now: int, done: int)
    | Clear(now: int, done: int)
    | Refresh(now: int)
    | Submit(now: int)
    | Cancel

  datatype Answer =
    | Done
    | Error(error: SessionError)
    | Shown(length: nat, display: DisplayState)
    | Submission(bytes: seq<byte>)

  /** A session as a plain list of keys. */
  datatype State = Open(keys: seq<ResolvedKey>, lastActivity: int) | Closed(display: DisplayState)

  function Text(keys: seq<ResolvedKey>): seq<int> {
    Rendered(EncodeKeys(keys))
  }

  function DisplayOf(s: State): DisplayState {
    match s
    case Open(keys, _) => if keys == [] then Empty else Masked
    case Closed(display) => display
  }

  function Expire(timeout: nat, s: State, now: int): State {
    if s.Open? && (if now < s.lastActivity then 0 else now - s.lastActivity) >= timeout then Closed(Cancelled) else s
  }

  function Step(policy: InputPolicy, timeout: nat, s: State, op: Op): (State, Answer) {
    match op
    case Cancel => (Closed(Cancelled), Done)
    case Refresh(now) =>
      var e := Expire(timeout, s, now);
      (e, Shown(if e.Open? then |Text(e.keys)| else 0, DisplayOf(e)))
    case PressKey(now, keyId, done) =>
      var e := Expire(timeout, s, now);
      if e.Closed? then (e, Error(Inactive))
      else if |e.keys| >= policy.maxTokens then (e, Error(LimitReached))
      else (match Resolve(policy, keyId)
            case Failure(_) => (e, Error(KeyRejected))
            case Success(key) => (Open(e.keys + [key], done), Done))
    case Backspace(now, done) =>
      var e := Expire(timeout, s, now);
      if e.Closed? then (e, Error(Inactive)) else (Open(DropLast(e.keys), done), Done)
    case Clear(now, done) =>
      var e := Expire(timeout, s, now);
      if e.Closed? then (e, Error(Inactive)) else (Open([], done), Done)
    case Submit(now) =>
      var e := Expire(timeout, s, now);
      if e.Closed? then (e, Error(Inactive))
      else if e.keys == [] then (e, Error(NothingEntered))
      else (Closed(Submitted), Submission(Utf8.EncodeLossy(Text(e.keys))))
  }

  class SecureSession {
    var input: SecretInput?
    var state: DisplayState
    const policy: InputPolicy
    const timeout: nat
    var lastActivity: int

    ghost function InputRepr(): set<object>
      reads this
    {
      if input == null then {} else input.Repr
    }

    ghost predicate Valid()
      reads this, InputRepr()
    {
      && this !in InputRepr()
      && (input == null ==> state == Submitted || state == Cancelled)
      && (input != null ==> input.Valid() && input.policy == policy
                            && state == (if input.keys == [] then Empty else Masked))
    }

    /** The plain list that the session stands for. */
    ghost function View(): State
      reads this, InputRepr()
    {
      if input == null then Closed(state) else Open(input.keys, lastActivity)
    }

    constructor (policy: InputPolicy, timeout: nat, now: int)
      ensures Valid() && fresh(InputRepr()) && View() == Open([], now)
      ensures this.policy == policy && this.timeout == timeout
    {
      this.policy := policy;
      this.timeout := timeout;
      input := new SecretInput(policy);
      state := Empty;
      lastActivity := now;
    }

    method CancelNow()
      requires Valid()
      modifies this, InputRepr()
      ensures Valid() && View() == Closed(Cancelled) && input == null
      ensures old(input) != null ==>
                forall i :: 0 <= i < old(input).buffer.tokens.Length ==> old(input).buffer.tokens[i] == 0
    {
      if input != null {
        input.buffer.Wipe();
      }
      input := null;
      state := Cancelled;
    }

    method ExpireIfNeeded(now: int) returns (expired: bool)
      requires Valid()
      modifies this, InputRepr()
      ensures Valid() && View() == Expire(timeout, old(View()), now)
      ensures input == null || (input == old(input) && lastActivity == old(lastActivity))
      ensures expired <==> old(View()).Open? && View().Closed?
    {
      var elapsed := if now < lastActivity then 0 else now - lastActivity;
      if input != null && elapsed >= timeout {
        CancelNow();
        return true;
      }
      return false;
    }

    method PressKeyAt(now: int, keyId: string, done: int) returns (r: Answer)
      requires Valid()
      modifies this, InputRepr()
      ensures Valid() && (View(), r) == Step(policy, timeout, old(View()), PressKey(now, keyId, done))
      ensures r == Done ==> old(input) != null && input == old(input) && lastActivity == done && state == Masked
                            && exists key :: Resolve(policy, keyId) == Success(key)
                                             && input.keys == old(input.keys) + [key]
      ensures r != Done ==> (input == old(input) && (input != null ==> input.keys == old(input.keys)))
                            || (input == null && state == Cancelled)
    {
      var _ := ExpireIfNeeded(now);
      if input == null {
        return Error(Inactive);
      }
      hide Resolve;
      var error := input.Push(keyId);
      match error {
        case Some(InputLimitReached) => return Error(LimitReached);
        case Some(InvalidKey) => return Error(KeyRejected);
        case None =>
      }
      state := Masked;
      lastActivity := done;
      return Done;
    }

    method BackspaceAt(now: int, done: int) returns (r: Answer)
      requires Valid()
      modifies this, InputRepr()
      ensures Valid() && (View(), r) == Step(policy, timeout, old(View()), Backspace(now, done))
      ensures old(input) != null && timeout > 0 && now < old(lastActivity) + timeout ==>
                && r == Done && input == old(input) && lastActivity == done
                && input.keys == (if old(input.keys) == [] then [] else old(input.keys)[..|old(input.keys)| - 1])
                && state == (if |old(input.keys)| <= 1 then Empty else Masked)
    {
      var _ := ExpireIfNeeded(now);
      if input == null {
        return Error(Inactive);
      }
      input.Backspace();
      var empty := input.IsEmpty();
      state := if empty then Empty else Masked;
      lastActivity := done;
      return Done;
    }

    method ClearAt(now: int, done: int) returns (r: Answer)
      requires Valid()
      modifies this, InputRepr()
      ensures Valid() && (View(), r) == Step(policy, timeout, old(View()), Clear(now, done))
      ensures old(input) != null && timeout > 0 && now < old(lastActivity) + timeout ==>
                r == Done && input == old(input) && lastActivity == done && input.keys == [] && state == Empty
    {
      var _ := ExpireIfNeeded(now);
      if input == null {
        return Error(Inactive);
      }
      input.Clear();
      state := Empty;
      lastActivity := done;
      return Done;
    }

    method RefreshAt(now: int) returns (r: Answer)
      requires Valid()
      modifies this, InputRepr()
      ensures Valid() && (View(), r) == Step(policy, timeout, old(View()), Refresh(now))
    {
      var _ := ExpireIfNeeded(now);
      var length := 0;
      if input != null {
        length := input.RenderedLength();
      }
      return Shown(length, state);
    }

    method SubmitAt(now: int) returns (r: Answer)
      requires Valid()
      modifies this, InputRepr()
      ensures Valid() && (View(), r) == Step(policy, timeout, old(View()), Submit(now))
      ensures r.Submission? ==>
                old(input) != null
                && forall i :: 0 <= i < old(input).buffer.tokens.Length ==> old(input).buffer.tokens[i] == 0
    {
      var _ := ExpireIfNeeded(now);
      if input == null {
        return Error(Inactive);
      }
      var empty := input.IsEmpty();
      if empty {
        return Error(NothingEntered);
      }
      var taken := input;
      input := null;
      state := Submitted;
      var secret := taken.IntoSecretBuffer();
      return Submission(secret.bytes);
    }
  }

  // ---------------------------------------------------------------------
  // Whole runs

  function StateAt(policy: InputPolicy, timeout: nat, start: int, ops: seq<Op>, n: nat): State
    requires n <= |ops|
  {
    if n == 0 then Open([], start) else Step(policy, timeout, StateAt(policy, timeout, start, ops, n - 1), ops[n - 1]).0
  }

  function AnswerAt(policy: InputPolicy, timeout: nat, start: int, ops: seq<Op>, n: nat): Answer
    requires n < |ops|
  {
    Step(policy, timeout, StateAt(policy, timeout, start, ops, n), ops[n]).1
  }

  /** Between operations: bounded, made of valid keys, and shown as empty exactly when nothing is rendered. */
  ghost predicate Consistent(policy: InputPolicy, s: State) {
    match s
    case Closed(display) => display == Submitted || display == Cancelled
    case Open(keys, _) =>
      && |keys| <= policy.maxTokens
      && (forall i :: 0 <= i < |keys| ==> keys[i].Valid())
      && (DisplayOf(s) == Empty <==> Text(keys) == [])
      && |Text(keys)| <= |keys|
  }

  lemma ValidKeysShow(keys: seq<ResolvedKey>)
    requires forall i :: 0 <= i < |keys| ==> keys[i].Valid()
    ensures Text(keys) == [] <==> keys == []
    ensures |Text(keys)| <= |keys|
  {
    KeysAreValidTokens(keys);
    var tokens := EncodeKeys(keys);
    RenderIsIncremental(tokens);
    IncrementalLength(tokens);
  }

  lemma {:induction false} IncrementalLength(tokens: seq<u32>)
    requires AllValid(tokens)
    ensures |Incremental(tokens)| <= |tokens| && (tokens != [] ==> Incremental(tokens) != [])
    decreases |tokens|
  {
    hide Extend, KeyOf;
    if tokens != [] {
      IncrementalLength(tokens[..|tokens| - 1]);
    }
  }

  lemma StepIsConsistent(policy: InputPolicy, timeout: nat, s: State, op: Op)
    requires Consistent(policy, s)
    ensures Consistent(policy, Step(policy, timeout, s, op).0)
  {
    var next := Step(policy, timeout, s, op).0;
    if op.PressKey? {
      ResolvedKeysAreValid(policy, op.keyId);
    }
    hide Resolve, Text;
    if next.Open? {
      assert forall i :: 0 <= i < |next.keys| ==> next.keys[i].Valid();
      ValidKeysShow(next.keys);
    }
  }

  lemma {:induction false} RunIsConsistent(policy: InputPolicy, timeout: nat, start: int, ops: seq<Op>, n: nat)
    requires n <= |ops|
    ensures Consistent(policy, StateAt(policy, timeout, start, ops, n))
  {
    if n == 0 {
      ValidKeysShow([]);
    } else {
      RunIsConsistent(policy, timeout, start, ops, n - 1);
      StepIsConsistent(policy, timeout, StateAt(policy, timeout, start, ops, n - 1), ops[n - 1]);
    }
  }

  /** The policies that the constructors make. */
  ghost predicate Constructed(policy: InputPolicy) {
    exists n: nat :: policy == NumericPolicy(n) || policy == HangulInput(n) || policy == AsciiInput(n)
  }

  /** A session over a constructed policy never holds more than the contract's limit of keys, whatever was asked for. */
  lemma ConstructedSessionsAreBounded(policy: InputPolicy, timeout: nat, start: int, ops: seq<Op>, n: nat)
    requires Constructed(policy) && n <= |ops|
    ensures 1 <= policy.maxTokens <= MAX_INPUT_TOKENS
    ensures var s := StateAt(policy, timeout, start, ops, n);
            s.Open? ==> |s.keys| <= MAX_INPUT_TOKENS && |Text(s.keys)| <= MAX_INPUT_TOKENS
  {
    RunIsConsistent(policy, timeout, start, ops, n);
    hide StateAt, Text;
  }

  /** A closed session never opens again. */
  lemma {:induction false} ClosedStaysClosed(policy: InputPolicy, timeout: nat, start: int, ops: seq<Op>,
                                             m: nat, n: nat)
    requires m <= n <= |ops| && StateAt(policy, timeout, start, ops, m).Closed?
    ensures StateAt(policy, timeout, start, ops, n).Closed?
    decreases n
  {
    hide Resolve, Text;
    if m < n {
      ClosedStaysClosed(policy, timeout, start, ops, m, n - 1);
    }
  }

  /**
   A session submits at most once, and what it submits is the UTF-8 encoding,
   readable by a strict decoder, of the rendering of its keys at that moment.
   */
  lemma SubmitsOnce(policy: InputPolicy, timeout: nat, start: int, ops: seq<Op>, j: nat)
    requires j < |ops| && AnswerAt(policy, timeout, start, ops, j).Submission?
    ensures var s, bytes := StateAt(policy, timeout, start, ops, j), AnswerAt(policy, timeout, start, ops, j).bytes;
            && ops[j].Submit? && s.Open? && s.keys != []
            && Utf8.Decode(bytes) == Some(Text(s.keys)) && |bytes| <= 4 * |s.keys|
    ensures forall k :: 0 <= k < |ops| && k != j ==> !AnswerAt(policy, timeout, start, ops, k).Submission?
  {
    SubmissionIsText(policy, timeout, start, ops, j);
    forall k | 0 <= k < |ops| && k != j ensures !AnswerAt(policy, timeout, start, ops, k).Submission? {
      if j < k {
        NoSecondSubmission(policy, timeout, start, ops, j, k);
      } else if AnswerAt(policy, timeout, start, ops, k).Submission? {
        NoSecondSubmission(policy, timeout, start, ops, k, j);
      }
    }
  }

  lemma NoSecondSubmission(policy: InputPolicy, timeout: nat, start: int, ops: seq<Op>, j: nat, k: nat)
    requires j < k < |ops| && AnswerAt(policy, timeout, start, ops, j).Submission?
    ensures !AnswerAt(policy, timeout, start, ops, k).Submission?
  {
    SubmittingCloses(policy, timeout, start, ops, j);
    ClosedStaysClosed(policy, timeout, start, ops, j + 1, k);
    SubmittingCloses(policy, timeout, start, ops, k);
    hide StateAt, AnswerAt;
  }

  lemma SubmittingCloses(policy: InputPolicy, timeout: nat, start: int, ops: seq<Op>, k: nat)
    requires k < |ops|
    ensures AnswerAt(policy, timeout, start, ops, k).Submission? ==>
              StateAt(policy, timeout, start, ops, k).Open? && StateAt(policy, timeout, start, ops, k + 1).Closed?
  {
    hide Resolve, Text;
  }

  lemma SubmitAnswer(policy: InputPolicy, timeout: nat, s: State, op: Op)
    requires Step(policy, timeout, s, op).1.Submission?
    ensures op.Submit? && s.Open? && s.keys != []
    ensures Step(policy, timeout, s, op).1.bytes == Utf8.EncodeLossy(Text(s.keys))
  {
    hide Resolve, Text, Utf8.EncodeLossy;
  }

  lemma ValidTextDecodes(keys: seq<ResolvedKey>)
    requires forall i :: 0 <= i < |keys| ==> keys[i].Valid()
    ensures var bytes := Utf8.EncodeLossy(Text(keys));
            Utf8.Decode(bytes) == Some(Text(keys)) && |bytes| <= 4 * |keys|
  {
    ValidKeysShow(keys);
    KeysAreValidTokens(keys);
    RenderedIsScalar(EncodeKeys(keys));
    hide Rendered, EncodeKeys, AllValid, Renderable, Utf8.IsScalar;
    var cs := Text(keys);
    hide Text;
    Utf8.DecodeIsExact(Utf8.EncodeLossy(cs), cs);
  }

  lemma SubmissionIsText(policy: InputPolicy, timeout: nat, start: int, ops: seq<Op>, j: nat)
    requires j < |ops| && AnswerAt(policy, timeout, start, ops, j).Submission?
    ensures var s, bytes := StateAt(policy, timeout, start, ops, j), AnswerAt(policy, timeout, start, ops, j).bytes;
            && ops[j].Submit? && s.Open? && s.keys != []
            && Utf8.Decode(bytes) == Some(Text(s.keys)) && |bytes| <= 4 * |s.keys|
  {
    hide StateAt, Step, Text, Utf8.EncodeLossy, Utf8.Decode;
    var s := StateAt(policy, timeout, start, ops, j);
    SubmitAnswer(policy, timeout, s, ops[j]);
    RunIsConsistent(policy, timeout, start, ops, j);
    ValidTextDecodes(s.keys);
  }
}
