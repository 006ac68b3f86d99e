/**
 Financial admission: a request is admitted only with device-integrity evidence
 that is bound to its host context, is current, and was not used before.
 */
module ReplayCache {
  import opened Common
  import Utf8

  type u64 = x: int | 0 <= x < 0x1_0000_0000_0000_0000

  type Text = t: seq<int> | forall i :: 0 <= i < |t| ==> Utf8.IsScalar(t[i])

  const MAX_FINANCIAL_REPLAY_ENTRIES: nat := 4096
  const MAX_FINANCIAL_EVIDENCE_LIFETIME_MS: u64 := 300_000
  const MAX_FINANCIAL_FUTURE_SKEW_MS: u64 := 30_000
  const MAX_FINANCIAL_SUBJECT_BYTES: nat := 256
  const MAX_FINANCIAL_NONCE_BYTES: nat := 512
  const MAX_FINANCIAL_DEPLOYMENT_BYTES: nat := 128

  datatype Operation = Registration | Login

  datatype Context = Context(subject: Text, operation: Operation, nonce: Text, deploymentId: Text)

  datatype Provider = AndroidPlayIntegrity | IosAppAttest | IosDeviceCheck | Custom

  datatype Evidence = Evidence(subject: Text, operation: Operation, nonce: Text, deploymentId: Text,
                               provider: Provider, issuedAt: u64, expiresAt: u64)

  /** The host's integrity callback; a panic counts as `NoDecision`. */
  datatype Integrity = Verified(evidence: Evidence) | Rejected | NoDecision

  datatype ReplayDecision = Consumed | Replayed | Unavailable

  /** What becomes of a request before its body is read. */
  datatype Admission = Admitted | InvalidRequest | DeploymentUnavailable

  // ---------------------------------------------------------------------
  // Bindings

  predicate IsControl(c: int) { 0 <= c <= 0x1F || 0x7F <= c <= 0x9F }

  predicate IsWhitespace(c: int) {
    9 <= c <= 13 || c in {0x20, 0x85, 0xA0, 0x1680, 0x2028, 0x2029, 0x202F, 0x205F, 0x3000} || 0x2000 <= c <= 0x200A
  }

  predicate ValidFinancialBinding(value: Text, minimumBytes: nat, maximumBytes: nat) {
    && minimumBytes <= |Utf8.Encode(value)| <= maximumBytes
    && forall i :: 0 <= i < |value| ==> !IsControl(value[i]) && !IsWhitespace(value[i])
  }

  function FinancialOperationForPath(path: string): Option<Operation> {
    if path == "/v1/opaque/registration/start" || path == "/v1/opaque/registration/finish" then Some(Registration)
    else if path == "/v1/opaque/login/start" || path == "/v1/opaque/login/finish" then Some(Login)
    else None
  }

  predicate ValidBindings(context: Context) {
    && ValidFinancialBinding(context.subject, 1, MAX_FINANCIAL_SUBJECT_BYTES)
    && ValidFinancialBinding(context.nonce, 16, MAX_FINANCIAL_NONCE_BYTES)
    && ValidFinancialBinding(context.deploymentId, 1, MAX_FINANCIAL_DEPLOYMENT_BYTES)
  }

  predicate IsValidFinancialContext(path: string, context: Context) {
    FinancialOperationForPath(path) == Some(context.operation) && ValidBindings(context)
  }

  function SaturatingAdd(a: u64, b: u64): u64 {
    if a + b < 0x1_0000_0000_0000_0000 then a + b else 0xFFFF_FFFF_FFFF_FFFF
  }

  function SaturatingSub(a: u64, b: u64): u64 {
    if a >= b then a - b else 0
  }

  predicate IsValidFinancialEvidence(path: string, context: Context, evidence: Evidence, now: u64) {
    && IsValidFinancialContext(path, context)
    && evidence.subject == context.subject && evidence.operation == context.operation
    && evidence.nonce == context.nonce && evidence.deploymentId == context.deploymentId
    && evidence.issuedAt <= SaturatingAdd(now, MAX_FINANCIAL_FUTURE_SKEW_MS)
    && evidence.expiresAt > now && evidence.expiresAt > evidence.issuedAt
    && SaturatingSub(evidence.expiresAt, evidence.issuedAt) <= MAX_FINANCIAL_EVIDENCE_LIFETIME_MS
  }

  function OperationName(operation: Operation): Text {
    match operation
    case Registration => [114, 101, 103, 105, 115, 116, 114, 97, 116, 105, 111, 110]
    case Login => [108, 111, 103, 105, 110]
  }

  /** Deployment, subject, operation and nonce, joined by NUL. */
  function KeyOf(context: Context): Text {
    context.deploymentId + [0] + context.subject + [0] + OperationName(context.operation) + [0] + context.nonce
  }

  lemma EarlyNul(a: seq<int>, b: seq<int>, c: seq<int>, d: seq<int>)
    requires a + [0] + b == c + [0] + d && |a| < |c|
    ensures 0 in c
  {
    assert (a + [0] + b)[|a|] == 0;
    assert (c + [0] + d)[|a|] == c[|a|];
  }

  lemma NotShorter(a: seq<int>, b: seq<int>, c: seq<int>, d: seq<int>)
    requires 0 !in c && a + [0] + b == c + [0] + d
    ensures |a| >= |c|
  {
    if |a| < |c| {
      EarlyNul(a, b, c, d);
    }
  }

  lemma SplitAtNul(a: seq<int>, b: seq<int>, c: seq<int>, d: seq<int>)
    requires 0 !in a && 0 !in c && a + [0] + b == c + [0] + d
    ensures a == c && b == d
  {
    NotShorter(a, b, c, d);
    NotShorter(c, d, a, b);
    var s, t := a + [0] + b, c + [0] + d;
    assert a == s[..|a|] && c == t[..|c|];
    assert b == s[|a| + 1..] && d == t[|c| + 1..];
  }

  lemma JoinIsInjective(a: seq<int>, b: seq<int>, c: seq<int>, d: seq<int>,
                        a': seq<int>, b': seq<int>, c': seq<int>, d': seq<int>)
    requires 0 !in a && 0 !in b && 0 !in c && 0 !in a' && 0 !in b' && 0 !in c'
    requires a + [0] + b + [0] + c + [0] + d == a' + [0] + b' + [0] + c' + [0] + d'
    ensures a == a' && b == b' && c == c' && d == d'
  {
    var last, last' := c + [0] + d, c' + [0] + d';
    var rest, rest' := b + [0] + last, b' + [0] + last';
    assert a + [0] + b + [0] + c + [0] + d == a + [0] + rest;
    assert a' + [0] + b' + [0] + c' + [0] + d' == a' + [0] + rest';
    SplitAtNul(a, rest, a', rest');
    SplitAtNul(b, last, b', last');
    SplitAtNul(c, d, c', d');
  }

  lemma NoNulInBindings(context: Context)
    requires ValidBindings(context)
    ensures 0 !in context.deploymentId && 0 !in context.subject && 0 !in OperationName(context.operation)
  {
    hide Utf8.Encode;
  }

  /** Two valid contexts share a replay key only if they are the same binding. */
  lemma KeyIsInjective(a: Context, b: Context)
    requires ValidBindings(a) && ValidBindings(b) && KeyOf(a) == KeyOf(b)
    ensures a == b
  {
    NoNulInBindings(a);
    NoNulInBindings(b);
    hide ValidBindings, OperationName;
    JoinIsInjective(a.deploymentId, a.subject, OperationName(a.operation), a.nonce,
                    b.deploymentId, b.subject, OperationName(b.operation), b.nonce);
    OperationNamesDiffer(a.operation, b.operation);
  }

  lemma OperationNamesDiffer(a: Operation, b: Operation)
    requires OperationName(a) == OperationName(b)
    ensures a == b
  {
    assert |OperationName(a)| == |OperationName(b)|;
  }

  // ---------------------------------------------------------------------
  // The cache

  type Cache = map<Text, u64>

  function Retained(cache: Cache, now: u64): (r: Cache)
    ensures forall k :: k in r <==> k in cache && cache[k] > now
    ensures forall k :: k in r ==> r[k] == cache[k]
  {
    map k | k in cache && cache[k] > now :: cache[k]
  }

  function Consume(cache: Cache, context: Context, expiresAt: u64, now: u64): (Cache, ReplayDecision) {
    var current := Retained(cache, now);
    if KeyOf(context) in current then (current, Replayed)
    else if |current| >= MAX_FINANCIAL_REPLAY_ENTRIES then (current, Unavailable)
    else (current[KeyOf(context) := expiresAt], Consumed)
  }

  /** A request as the adapter sees it once the host callbacks and the clock have been read. */
  datatype Request = Request(path: string, context: Option<Context>, integrity: Integrity, now: Option<u64>)

  /** The evidence is checked and the cache is consulted. */
  predicate Consults(r: Request) {
    && r.context.Some? && r.integrity.Verified? && r.now.Some?
    && IsValidFinancialEvidence(r.path, r.context.value, r.integrity.evidence, r.now.value)
  }

  function Admit(cache: Cache, r: Request): (Cache, Admission) {
    if r.context.None? || !IsValidFinancialContext(r.path, r.context.value) then (cache, DeploymentUnavailable)
    else
      match r.integrity
      case Rejected => (cache, InvalidRequest)
      case NoDecision => (cache, DeploymentUnavailable)
      case Verified(evidence) =>
        if r.now.None? then (cache, DeploymentUnavailable)
        else if !IsValidFinancialEvidence(r.path, r.context.value, evidence, r.now.value) then (cache, InvalidRequest)
        else
          var (after, decision) := Consume(cache, r.context.value, evidence.expiresAt, r.now.value);
          (after, match decision
                  case Consumed => Admitted
                  case Replayed => InvalidRequest
                  case Unavailable => DeploymentUnavailable)
  }

  class FinancialAdmission {
    var consumed: map<Text, u64>

    constructor ()
      ensures consumed == map[]
    {
      consumed := map[];
    }

    method ConsumeEvidence(context: Context, expiresAt: u64, now: u64) returns (decision: ReplayDecision)
      modifies this
      ensures (consumed, decision) == Consume(old(consumed), context, expiresAt, now)
    {
      consumed := Retained(consumed, now);
      var key := KeyOf(context);
      if key in consumed {
        return Replayed;
      }
      if |consumed| >= MAX_FINANCIAL_REPLAY_ENTRIES {
        return Unavailable;
      }
      consumed := consumed[key := expiresAt];
      return Consumed;
    }

    method HandleRequest(r: Request) returns (admission: Admission)
      modifies this
      ensures (consumed, admission) == Admit(old(consumed), r)
    {
      if r.context.None? {
        return DeploymentUnavailable;
      }
      var context := r.context.value;
      if !IsValidFinancialContext(r.path, context) {
        return DeploymentUnavailable;
      }
      match r.integrity {
        case Rejected => return InvalidRequest;
        case NoDecision => return DeploymentUnavailable;
        case Verified(evidence) =>
          if r.now.None? {
            return DeploymentUnavailable;
          }
          if !IsValidFinancialEvidence(r.path, context, evidence, r.now.value) {
            return InvalidRequest;
          }
          var decision := ConsumeEvidence(context, evidence.expiresAt, r.now.value);
          match decision
          case Consumed => return Admitted;
          case Replayed => return InvalidRequest;
          case Unavailable => return DeploymentUnavailable;
      }
    }
  }

  // ---------------------------------------------------------------------
  // Runs

  /** The cache after the first `k` requests. */
  function CacheAt(rs: seq<Request>, k: nat): Cache
    requires k <= |rs|
  {
    if k == 0 then map[] else Admit(CacheAt(rs, k - 1), rs[k - 1]).0
  }

  predicate IsAdmitted(rs: seq<Request>, k: nat) {
    k < |rs| && Admit(CacheAt(rs, k), rs[k]).1 == Admitted
  }

  /** Request `k` consults the cache at or after `time`, so that what expires by `time` is dropped. */
  predicate DropsBy(rs: seq<Request>, k: nat, time: u64) {
    k < |rs| && Consults(rs[k]) && rs[k].now.value >= time
  }

  /** The clock of the requests that consult the cache never goes back. */
  predicate ClockNeverGoesBack(rs: seq<Request>) {
    forall i, j :: 0 <= i < j < |rs| && Consults(rs[i]) && Consults(rs[j]) ==> rs[i].now.value <= rs[j].now.value
  }

  lemma AdmittedConsults(rs: seq<Request>, k: nat)
    requires IsAdmitted(rs, k)
    ensures rs[k].context.Some? && rs[k].integrity.Verified? && rs[k].now.Some?
    ensures Consults(rs[k]) && ValidBindings(rs[k].context.value)
    ensures CacheAt(rs, k + 1)
            == Retained(CacheAt(rs, k), rs[k].now.value)
                 [KeyOf(rs[k].context.value) := rs[k].integrity.evidence.expiresAt]
    ensures KeyOf(rs[k].context.value) !in Retained(CacheAt(rs, k), rs[k].now.value)
  {
    hide KeyOf, ValidBindings;
  }

  /** The entry of `key` is in the cache and survives the request. */
  predicate Survives(cache: Cache, r: Request, key: Text) {
    key in cache && !(Consults(r) && cache[key] <= r.now.value)
  }

  predicate Inserts(cache: Cache, r: Request, key: Text) {
    Consults(r) && KeyOf(r.context.value) == key && Admit(cache, r).1 == Admitted
  }

  lemma EntryAfter(cache: Cache, r: Request, key: Text)
    ensures Survives(cache, r, key) ==> key in Admit(cache, r).0 && Admit(cache, r).0[key] == cache[key]
    ensures !Survives(cache, r, key) && !Inserts(cache, r, key) ==> key !in Admit(cache, r).0
  {
    hide KeyOf, IsValidFinancialEvidence, IsValidFinancialContext;
    if Consults(r) {
      EvidenceNeedsContext(r);
    }
  }

  lemma EvidenceNeedsContext(r: Request)
    requires Consults(r)
    ensures IsValidFinancialContext(r.path, r.context.value)
  {
  }

  lemma AdmitIsBounded(cache: Cache, r: Request)
    requires |cache| <= MAX_FINANCIAL_REPLAY_ENTRIES
    ensures |Admit(cache, r).0| <= MAX_FINANCIAL_REPLAY_ENTRIES
  {
    if r.now.Some? {
      RetainedIsSmaller(cache, r.now.value);
    }
    hide KeyOf, IsValidFinancialEvidence, IsValidFinancialContext, Retained;
  }

  lemma {:induction false} CacheIsBounded(rs: seq<Request>, k: nat)
    requires k <= |rs|
    ensures |CacheAt(rs, k)| <= MAX_FINANCIAL_REPLAY_ENTRIES
  {
    if k > 0 {
      hide Admit;
      CacheIsBounded(rs, k - 1);
      AdmitIsBounded(CacheAt(rs, k - 1), rs[k - 1]);
    }
  }

  lemma RetainedIsSmaller(cache: Cache, now: u64)
    ensures |Retained(cache, now)| <= |cache|
  {
    var kept := Retained(cache, now);
    assert kept.Keys <= cache.Keys;
    SubsetSize(kept.Keys, cache.Keys);
    assert |kept| == |kept.Keys| && |cache| == |cache.Keys|;
  }

  /** An admitted binding stays in the cache until a request consults it at or after the expiry. */
  lemma {:induction false} EntryStays(rs: seq<Request>, i: nat, j: nat)
    requires i < j <= |rs| && IsAdmitted(rs, i)
    requires forall k :: i < k < j ==> !DropsBy(rs, k, rs[i].integrity.evidence.expiresAt)
    ensures KeyOf(rs[i].context.value) in CacheAt(rs, j)
    ensures CacheAt(rs, j)[KeyOf(rs[i].context.value)] == rs[i].integrity.evidence.expiresAt
    decreases j
  {
    AdmittedConsults(rs, i);
    if j > i + 1 {
      EntryStays(rs, i, j - 1);
      EntryAfter(CacheAt(rs, j - 1), rs[j - 1], KeyOf(rs[i].context.value));
      assert !DropsBy(rs, j - 1, rs[i].integrity.evidence.expiresAt);
      hide KeyOf, Admit, Consults;
    }
  }

  /**
   A binding is admitted a second time only after the first evidence expired:
   some request, the second itself at the latest, consulted the cache at or
   after that expiry.
   */
  lemma ReadmissionNeedsExpiry(rs: seq<Request>, i: nat, j: nat)
    requires i < j && IsAdmitted(rs, i) && IsAdmitted(rs, j) && rs[i].context == rs[j].context
    ensures exists k: nat :: i < k <= j && DropsBy(rs, k, rs[i].integrity.evidence.expiresAt)
  {
    AdmittedConsults(rs, i);
    AdmittedConsults(rs, j);
    var expiry := rs[i].integrity.evidence.expiresAt;
    if forall k :: i < k < j ==> !DropsBy(rs, k, expiry) {
      EntryStays(rs, i, j);
      assert DropsBy(rs, j, expiry);
    }
  }

  /** With a clock that never goes back, no evidence is admitted twice, and no binding before the first expiry. */
  lemma EvidenceIsAdmittedOnce(rs: seq<Request>, i: nat, j: nat)
    requires ClockNeverGoesBack(rs) && i < j && IsAdmitted(rs, i) && IsAdmitted(rs, j)
    ensures rs[i].context == rs[j].context ==> rs[j].now.value >= rs[i].integrity.evidence.expiresAt
    ensures rs[i].integrity.evidence != rs[j].integrity.evidence
  {
    AdmittedConsults(rs, i);
    AdmittedConsults(rs, j);
    SameEvidenceSameContext(rs[i], rs[j]);
    if rs[i].context == rs[j].context {
      ReadmissionNeedsExpiry(rs, i, j);
      var k: nat :| i < k <= j && DropsBy(rs, k, rs[i].integrity.evidence.expiresAt);
      assert rs[k].now.value <= rs[j].now.value;
    }
    CurrentWhenConsulted(rs[j]);
    hide Consults, IsAdmitted;
  }

  lemma SameEvidenceSameContext(a: Request, b: Request)
    requires Consults(a) && Consults(b) && a.integrity.Verified? && b.integrity.Verified?
    ensures a.integrity.evidence == b.integrity.evidence ==> a.context == b.context
  {
    hide ValidBindings;
  }

  lemma CurrentWhenConsulted(r: Request)
    requires Consults(r)
    ensures r.integrity.evidence.expiresAt > r.now.value
  {
  }

  /** No request from `i + 1` to before `j` is admitted with the binding of request `i`. */
  predicate NoneBetween(rs: seq<Request>, i: nat, j: nat)
    requires i < |rs| && j <= |rs|
  {
    forall k :: i < k < j ==> !(IsAdmitted(rs, k) && rs[k].context == rs[i].context)
  }

  lemma NotInserted(rs: seq<Request>, i: nat, m: nat)
    requires i < m < |rs| && IsAdmitted(rs, i) && NoneBetween(rs, i, m + 1)
    ensures !Inserts(CacheAt(rs, m), rs[m], KeyOf(rs[i].context.value))
  {
    hide CacheAt, KeyOf, Admit, ValidBindings;
    AdmittedConsults(rs, i);
    if Inserts(CacheAt(rs, m), rs[m], KeyOf(rs[i].context.value)) {
      assert IsAdmitted(rs, m);
      AdmittedConsults(rs, m);
      hide Consults, IsAdmitted;
      KeyIsInjective(rs[m].context.value, rs[i].context.value);
    }
  }

  lemma {:induction false} EntryGone(rs: seq<Request>, i: nat, k: nat, j: nat)
    requires i < k < j <= |rs| && IsAdmitted(rs, i) && NoneBetween(rs, i, j)
    requires DropsBy(rs, k, rs[i].integrity.evidence.expiresAt)
    requires forall m :: i < m < k ==> !DropsBy(rs, m, rs[i].integrity.evidence.expiresAt)
    ensures KeyOf(rs[i].context.value) !in CacheAt(rs, j)
    decreases j
  {
    hide KeyOf, Admit, Consults, Inserts, IsAdmitted;
    AdmittedConsults(rs, i);
    var key := KeyOf(rs[i].context.value);
    if k == j - 1 {
      EntryStays(rs, i, k);
    } else {
      EntryGone(rs, i, k, j - 1);
    }
    EntryAfter(CacheAt(rs, j - 1), rs[j - 1], key);
    NotInserted(rs, i, j - 1);
  }

  lemma {:induction false} FirstDrop(rs: seq<Request>, i: nat, j: nat, time: u64) returns (k: nat)
    requires exists m: nat :: i < m < j && DropsBy(rs, m, time)
    ensures i < k < j && DropsBy(rs, k, time) && forall m :: i < m < k ==> !DropsBy(rs, m, time)
    decreases j
  {
    hide DropsBy;
    if exists m: nat :: i < m < j - 1 && DropsBy(rs, m, time) {
      k := FirstDrop(rs, i, j - 1, time);
    } else {
      k := j - 1;
    }
  }

  /**
   When the cache refuses a binding as replayed: exactly when no request since
   its last admission, nor this one, consulted the cache at or after the
   expiry then recorded.
   */
  lemma ReplayedExactly(rs: seq<Request>, i: nat, j: nat)
    requires i < j < |rs| && IsAdmitted(rs, i) && NoneBetween(rs, i, j)
    requires Consults(rs[j]) && rs[j].context == rs[i].context
    ensures var expiry := rs[i].integrity.evidence.expiresAt; var evidence := rs[j].integrity.evidence;
            Consume(CacheAt(rs, j), rs[j].context.value, evidence.expiresAt, rs[j].now.value).1 == Replayed
            <==> forall k: nat :: i < k <= j ==> !DropsBy(rs, k, expiry)
  {
    hide KeyOf, IsAdmitted, CacheAt, IsValidFinancialEvidence;
    AdmittedConsults(rs, i);
    var expiry := rs[i].integrity.evidence.expiresAt;
    assert DropsBy(rs, j, expiry) <==> rs[j].now.value >= expiry;
    if exists m: nat :: i < m < j && DropsBy(rs, m, expiry) {
      var k := FirstDrop(rs, i, j, expiry);
      EntryGone(rs, i, k, j);
    } else {
      EntryStays(rs, i, j);
    }
  }

  // ---------------------------------------------------------------------
  // A clock that goes back

  lemma {:induction false} AsciiLength(t: Text)
    requires forall i :: 0 <= i < |t| ==> t[i] < 0x80
    ensures |Utf8.Encode(t)| == |t|
  {
    if t != [] {
      AsciiLength(t[1..]);
    }
  }

  function Repeated(c: int, n: nat): (t: Text)
    requires 0x21 <= c < 0x7F
    ensures |t| == n && forall i :: 0 <= i < n ==> t[i] == c
  {
    seq(n, _ => c)
  }

  function LoginWith(nonce: int): (context: Context)
    requires 0x21 <= nonce < 0x7F
    ensures ValidBindings(context)
  {
    AsciiLength(Repeated(nonce, 1));
    AsciiLength(Repeated(nonce, 16));
    Context(Repeated(nonce, 1), Login, Repeated(nonce, 16), Repeated(nonce, 1))
  }

  /** A login with evidence issued at 0 and expiring at `expiresAt`, at the time `now`. */
  function LoginAt(nonce: int, expiresAt: u64, now: u64): (r: Request)
    requires 0x21 <= nonce < 0x7F && now < expiresAt <= 300_000
    ensures Consults(r)
  {
    var context := LoginWith(nonce);
    var evidence := Evidence(context.subject, Login, context.nonce, context.deploymentId, Custom, 0, expiresAt);
    Request("/v1/opaque/login/finish", Some(context), Verified(evidence), Some(now))
  }

  lemma AdmittedInto(cache: Cache, r: Request)
    requires Consults(r)
    ensures var kept := Retained(cache, r.now.value); var key := KeyOf(r.context.value);
            key !in kept && |kept| < MAX_FINANCIAL_REPLAY_ENTRIES
            ==> Admit(cache, r) == (kept[key := r.integrity.evidence.expiresAt], Admitted)
  {
    EvidenceNeedsContext(r);
    hide KeyOf, IsValidFinancialContext, ValidBindings;
  }

  lemma RetainedOne(key: Text, expiresAt: u64, now: u64)
    ensures Retained(map[], now) == map[]
    ensures Retained(map[key := expiresAt], now) == if expiresAt > now then map[key := expiresAt] else map[]
  {
  }

  lemma CachesOfThree(a: Request, b: Request, c: Request)
    ensures CacheAt([a, b, c], 0) == map[] && CacheAt([a, b, c], 1) == Admit(map[], a).0
    ensures CacheAt([a, b, c], 2) == Admit(Admit(map[], a).0, b).0
  {
    hide Admit;
    var rs := [a, b, c];
    assert CacheAt(rs, 1) == Admit(CacheAt(rs, 0), rs[0]).0;
    assert CacheAt(rs, 2) == Admit(CacheAt(rs, 1), rs[1]).0;
  }

  /** The same request is admitted twice if another one is served at a time past its evidence's expiry. */
  lemma ReplayAfterALaterTime(a: Request, b: Request)
    requires Consults(a) && Consults(b) && KeyOf(a.context.value) != KeyOf(b.context.value)
    requires b.now.value >= a.integrity.evidence.expiresAt
    ensures IsAdmitted([a, b, a], 0) && IsAdmitted([a, b, a], 2)
  {
    var keyA, keyB := KeyOf(a.context.value), KeyOf(b.context.value);
    var untilA, untilB := a.integrity.evidence.expiresAt, b.integrity.evidence.expiresAt;
    hide KeyOf, Consults, Admit, Retained;
    CachesOfThree(a, b, a);
    RetainedOne(keyA, untilA, a.now.value);
    RetainedOne(keyA, untilA, b.now.value);
    RetainedOne(keyB, untilB, a.now.value);
    AdmittedInto(map[], a);
    RetainedOne(keyB, untilB, b.now.value);
    AdmittedInto(map[keyA := untilA], b);
    AdmittedInto(map[keyB := untilB], a);
    hide CacheAt;
    assert [a, b, a][0] == a && [a, b, a][2] == a;
  }

  /** Such requests exist: the clock jumps past the expiry and back. */
  lemma ClockGoingBackAdmitsTwice()
    ensures var a, b := LoginAt(0x41, 2000, 1000), LoginAt(0x42, 9000, 3000);
            IsAdmitted([a, b, a], 0) && IsAdmitted([a, b, a], 2)
  {
    var a, b := LoginAt(0x41, 2000, 1000), LoginAt(0x42, 9000, 3000);
    DifferentKeys();
    hide KeyOf, LoginWith, IsAdmitted;
    ReplayAfterALaterTime(a, b);
  }

  lemma DifferentKeys()
    ensures KeyOf(LoginWith(0x41)) != KeyOf(LoginWith(0x42))
  {
    assert LoginWith(0x41).subject[0] == 0x41 && LoginWith(0x42).subject[0] == 0x42;
    if KeyOf(LoginWith(0x41)) == KeyOf(LoginWith(0x42)) {
      hide KeyOf;
      KeyIsInjective(LoginWith(0x41), LoginWith(0x42));
    }
  }

  // ---------------------------------------------------------------------
  // What every request is answered

  /** The route serves the operation: registration or login, start or finish. */
  predicate ServedAt(path: string, operation: Operation) {
    match operation
    case Registration => path == "/v1/opaque/registration/start" || path == "/v1/opaque/registration/finish"
    case Login => path == "/v1/opaque/login/start" || path == "/v1/opaque/login/finish"
  }

  /** A binding text: the length in UTF-8, and no control or white space character. */
  predicate Plain(t: Text, least: nat, most: nat) {
    least <= |Utf8.Encode(t)| <= most && forall c :: c in t ==> !IsControl(c) && !IsWhitespace(c)
  }

  predicate ContextInOrder(r: Request) {
    && r.context.Some? && ServedAt(r.path, r.context.value.operation)
    && Plain(r.context.value.subject, 1, 256) && Plain(r.context.value.nonce, 16, 512)
    && Plain(r.context.value.deploymentId, 1, 128)
  }

  /** The evidence names the context, was issued at most 30 s ahead, is not over, and lives 5 minutes at most. */
  predicate Current(context: Context, e: Evidence, now: int) {
    && e.subject == context.subject && e.operation == context.operation
    && e.nonce == context.nonce && e.deploymentId == context.deploymentId
    && e.issuedAt <= now + 30_000 && now < e.expiresAt
    && e.issuedAt < e.expiresAt <= e.issuedAt + 300_000
  }

  lemma ContextExactly(r: Request)
    ensures ContextInOrder(r) <==> r.context.Some? && IsValidFinancialContext(r.path, r.context.value)
  {
    hide Utf8.Encode, IsControl, IsWhitespace;
    if r.context.Some? {
      PlainExactly(r.context.value.subject, 1, 256);
      PlainExactly(r.context.value.nonce, 16, 512);
      PlainExactly(r.context.value.deploymentId, 1, 128);
      hide ValidFinancialBinding, Plain;
    }
  }

  lemma PlainExactly(t: Text, least: nat, most: nat)
    ensures Plain(t, least, most) <==> ValidFinancialBinding(t, least, most)
  {
    hide Utf8.Encode, IsControl, IsWhitespace;
  }

  lemma CurrentExactly(path: string, context: Context, e: Evidence, now: u64)
    requires IsValidFinancialContext(path, context)
    ensures IsValidFinancialEvidence(path, context, e, now) <==> Current(context, e, now)
  {
    hide IsValidFinancialContext;
  }

  /** The request reaches the cache: its context is in order and its evidence current. */
  lemma ConsultsExactly(r: Request)
    ensures Consults(r) <==> ContextInOrder(r) && r.integrity.Verified? && r.now.Some?
                             && Current(r.context.value, r.integrity.evidence, r.now.value)
  {
    hide ContextInOrder, IsValidFinancialEvidence, IsValidFinancialContext, Current;
    ContextExactly(r);
    if r.context.Some? && r.integrity.Verified? && r.now.Some? {
      if IsValidFinancialContext(r.path, r.context.value) {
        CurrentExactly(r.path, r.context.value, r.integrity.evidence, r.now.value);
      } else if Consults(r) {
        EvidenceNeedsContext(r);
      }
    }
  }

  /** Request `i` was admitted, its evidence is not over at `now`, and nobody consulted the cache past its expiry. */
  ghost predicate StillBound(rs: seq<Request>, i: nat, j: nat, now: int) {
    && i < j <= |rs| && IsAdmitted(rs, i) && rs[i].integrity.Verified? && now < rs[i].integrity.evidence.expiresAt
    && forall k :: i < k < j ==> !DropsBy(rs, k, rs[i].integrity.evidence.expiresAt)
  }

  /** Every entry of the cache comes from a request that is still bound. */
  lemma {:induction false} EntryOrigin(rs: seq<Request>, j: nat, key: Text) returns (i: nat)
    requires j <= |rs| && key in CacheAt(rs, j)
    ensures i < j && IsAdmitted(rs, i) && rs[i].integrity.Verified? && rs[i].context.Some?
    ensures KeyOf(rs[i].context.value) == key && CacheAt(rs, j)[key] == rs[i].integrity.evidence.expiresAt
    ensures forall k :: i < k < j ==> !DropsBy(rs, k, rs[i].integrity.evidence.expiresAt)
    decreases j
  {
    hide KeyOf, Admit, Consults;
    if j == 0 {
      assert false;
    } else {
      var cache, r := CacheAt(rs, j - 1), rs[j - 1];
      EntryAfter(cache, r, key);
      if Inserts(cache, r, key) {
        i := j - 1;
        AdmittedConsults(rs, i);
      } else {
        i := EntryOrigin(rs, j - 1, key);
      }
    }
  }

  /** The keys of the bindings still in use when request `j` comes at `now`. */
  ghost function KeysInUse(rs: seq<Request>, j: nat, now: int): set<Text>
    requires j <= |rs|
  {
    set i: nat | i < j && rs[i].context.Some? && StillBound(rs, i, j, now) :: KeyOf(rs[i].context.value)
  }

  lemma KeysInUseAreRetained(rs: seq<Request>, j: nat, now: u64)
    requires j <= |rs|
    ensures Retained(CacheAt(rs, j), now).Keys == KeysInUse(rs, j, now)
  {
    hide KeyOf, IsAdmitted, CacheAt, DropsBy;
    var kept := Retained(CacheAt(rs, j), now);
    forall key | key in kept.Keys ensures key in KeysInUse(rs, j, now) {
      var i := EntryOrigin(rs, j, key);
      assert StillBound(rs, i, j, now);
    }
    forall key | key in KeysInUse(rs, j, now) ensures key in kept.Keys {
      var i: nat :| i < j && rs[i].context.Some? && StillBound(rs, i, j, now) && KeyOf(rs[i].context.value) == key;
      EntryStays(rs, i, j);
    }
  }

  /**
   Every request is answered from the history alone: refused for its first
   defect, as used if its binding is still in use, as unavailable if 4096 are,
   and admitted otherwise.
   */
  lemma AdmittedExactly(rs: seq<Request>, j: nat)
    requires j < |rs|
    ensures var r, admission := rs[j], Admit(CacheAt(rs, j), rs[j]).1;
            admission == if !ContextInOrder(r) then DeploymentUnavailable
                         else if r.integrity.Rejected? then InvalidRequest
                         else if r.integrity.NoDecision? || r.now.None? then DeploymentUnavailable
                         else if !Current(r.context.value, r.integrity.evidence, r.now.value) then InvalidRequest
                         else if KeyOf(r.context.value) in KeysInUse(rs, j, r.now.value) then InvalidRequest
                         else if |KeysInUse(rs, j, r.now.value)| >= 4096 then DeploymentUnavailable
                         else Admitted
  {
    hide *;
    AdmittedFrom(CacheAt(rs, j), rs[j]);
    if rs[j].now.Some? {
      KeysInUseAreRetained(rs, j, rs[j].now.value);
    }
  }

  /** The answer to one request on a cache. */
  lemma AdmittedFrom(cache: Cache, r: Request)
    ensures var admission := Admit(cache, r).1;
            admission == if !ContextInOrder(r) then DeploymentUnavailable
                         else if r.integrity.Rejected? then InvalidRequest
                         else if r.integrity.NoDecision? || r.now.None? then DeploymentUnavailable
                         else if !Current(r.context.value, r.integrity.evidence, r.now.value) then InvalidRequest
                         else if KeyOf(r.context.value) in Retained(cache, r.now.value).Keys then InvalidRequest
                         else if |Retained(cache, r.now.value).Keys| >= 4096 then DeploymentUnavailable
                         else Admitted
  {
    hide KeyOf, Current, ContextInOrder, IsValidFinancialContext, IsValidFinancialEvidence, Retained;
    ContextExactly(r);
    if ContextInOrder(r) && r.integrity.Verified? && r.now.Some? {
      CurrentExactly(r.path, r.context.value, r.integrity.evidence, r.now.value);
      var kept := Retained(cache, r.now.value);
      assert |kept| == |kept.Keys|;
    }
  }

  /** Two requests have the same key in use only if they name the same binding. */
  lemma SameKeySameBinding(a: Request, b: Request)
    requires ContextInOrder(a) && ContextInOrder(b) && KeyOf(a.context.value) == KeyOf(b.context.value)
    ensures a.context == b.context
  {
    ContextExactly(a);
    ContextExactly(b);
    hide KeyOf, ValidBindings;
    KeyIsInjective(a.context.value, b.context.value);
  }
}
