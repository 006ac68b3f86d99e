# Verification of the secure keypad authentication core

A Dafny model of the repository's stateful core, with proofs about whole runs
of it. Each module follows one component:

- **Rate limiting.** `RateLimit` is the fixed-window limiter over an in-memory
  map; `RateLimitRuns` proves what every run of checks promises under a clock that
  does not go back, `RateLimitHistory` that every answer follows from the checks and
  answers before it, `RateLimitClock` what holds under any clock. `Redis` models
  the commands the Lua scripts use on a map of expiring keys and expiring
  sorted sets, `RedisIndex` the sorted-set index that must stay in step with
  the keys it lists, and `RateLimitRedis` the limiter script, proved to answer
  every run as the in-memory limiter does.
- **One-time stores.** `OneTime` is the shared specification of a store whose
  records are handed out at most once. `OneTimeMemory` holds the two in-memory
  stores, `OneTimeRedis` the insert and consume scripts (login and ceremony
  flavours), `RedisStores` the adapters with their handle attempts and key
  names, `CeremonyRuns` the end-to-end statement for WebAuthn ceremonies,
  `LoginService` the two-message OPAQUE login on top of the in-memory login
  store, and `LoginRuns` the same login on the Redis scripts.
- **Codecs.** `Codec`: the packaged login state, the durable records and the
  authenticated frames; `CodecLayout`: their bytes, and what a frame is bound to. `Base64Url`: the web client's unpadded base64url with
  its 32-bit accumulator. `Utf8`: RFC 3629.
- **Hangul input.** `Hangul` is the token encoding and the greedy renderer,
  `HangulTheorems` its composition laws, `Session` the token buffer, the input
  and the session state machine, `SessionLaws` the session seen from outside,
  and `HangulKeys` the key identifiers and what typing them shows.
- **Web client.** `Passkey` is the passkey controller as a step machine with a
  call stack (host code may re-enter the controller) and a queue of promise
  reactions; `PasskeyRuns` proves what every run keeps. `Extensions` is the
  bounded copy of extension values with its shared node budget.
- **Smaller pieces.** `Shuffle` (keypad presentation), `ReplayCache` (financial
  admission), `Overlap` (C ABI aliasing checks and slot writes), `EventQueue`
  (bounded event queue of the Flutter plugin).

Where the source changes state, the model does too: classes with fields,
`modifies` clauses and loops, each proved against a specification function;
theorems about runs are lemmas about those functions. A run of interleaved
clients is the sequence of whole calls in the order they were served.

## Assumptions

- Time does not move inside one Redis script; a key is readable exactly while
  `now < expiry`; a sorted set that loses its last member is deleted together
  with its TTL; nobody else writes the keys of the namespace.
- Authenticated encryption is a parameter. Round trips assume that opening
  undoes sealing (`Aead.Invertible`); exactness of the frame also assumes that
  only sealed boxes open (`Aead.Authentic`), and `CodecLayout.OpensOnlyWhereSealed`
  that a box opens under no associated data but its own (`CodecLayout.Binding`, of
  the two that the lemma compares).
- Hashes, random handles and nonces are parameters; where two keys must not
  collide, the lemma says so.
- Clocks are parameters. "The clock does not go back" is stated of the order in
  which calls are served. The in-memory `check` and the stores read the clock
  before they take the lock, and the axum adapter reads it before `consume`
  locks, so two threads may be served against clock order; the lemmas named
  below show what then goes wrong.

## What the proofs found

- A ceremony TTL above zero but below one millisecond passes
  `validate_backend_ttl` (crates/secure-webauthn-example/src/storage.rs:64-72)
  as 0 ms, and the script's `SET ... PX 0` then fails: nothing is stored
  (`OneTimeRedis.ZeroTtlStoresNothing`). The run theorems cover runs with such
  inserts, which count as operations that store nothing.
- The in-memory limiter's branch that restarts an expired entry
  (crates/secure-auth-server/src/rate_limit.rs:164-212) cannot be reached,
  because expired entries were removed just before.
- The passkey controller can ignore `cancel` while an operation is running:
  when an earlier operation publishes its result late, the display no longer
  says pending (`PasskeyRuns.CancelCanBeIgnored`; the exact condition is
  `PasskeyRuns.CancelReachesActive`).
- The passkey controller publishes the aborted state twice if `cancel` is
  called again from an abort listener of the same signal, and in no other case
  (`PasskeyRuns.TwoTerminalStates`, `PasskeyRuns.TerminalStates`).
- With a clock that goes back, the limiter allows what it would have limited
  (`RateLimitClock.PruningShowsWhenTheClockGoesBack`): an exhausted window is
  forgotten as soon as any check of any key reads a time past its end, and the
  exact condition under any clock is `RateLimitClock.LimitedExactly`. The replay
  cache admits the same evidence twice (`ReplayCache.ClockGoingBackAdmitsTwice`;
  the exact condition is `ReplayCache.ReplayedExactly`).

The composition theorems for Hangul are about tokens that stand for keys, which
is all the session ever holds; `HangulTheorems.UnknownTokensBreakComposition`
shows why that condition is there.

In the passkey model host code may act whenever the source could be running it:
inside a callback at any time, and between reactions everywhere except between
the two reactions that a settled work queues back to back
(`PasskeyRuns.RaceRunsRightAfterClear`). Abort listeners exist only once the
work callback has been given the signal. Where the model still has more
interleavings than a host can produce, they only add runs to the for-all
theorems; the two runs named above do not use them.

## Model

| member | source | states |
|---|---|---|
| RateLimit.InMemoryRateLimiter.CheckAt | crates/secure-auth-server/src/rate_limit.rs:164-212 | answer and new entries are those of the limiter specification; an invalid key changes nothing |
| RateLimitRuns.RateBound | crates/secure-auth-server/src/rate_limit.rs:164-212 | in every run with a clock that does not go back, and any mix of keys, no half-open span of one window holds more than 2·max−1 allowed attempts of a key |
| RateLimitRuns.RateBoundIsTight | crates/secure-auth-server/src/rate_limit.rs:164-212 | that bound is reached, on a run whose clock does not go back, by every policy with a window longer than one tick |
| RateLimitRuns.PruningIsInvisible | crates/secure-auth-server/src/rate_limit.rs:172-212 | dropping expired entries changes no answer compared with a limiter that remembers every key, as long as the clock does not go back |
| RateLimitClock.LimitedExactly | crates/secure-auth-server/src/rate_limit.rs:164-212 | under any clock: if check i opens a window that is not reopened before check j of the same key, j is limited exactly when the allowed checks of the key in [i, j) number the maximum and no check after i up to j, of any key, was made at or after the end of the window; and it is then told to wait for what is left of it |
| RateLimitClock.RememberedExactly | crates/secure-auth-server/src/rate_limit.rs:164-212 | the same for a limiter that never forgets, where only the reading of check j itself matters |
| RateLimitClock.PruningShowsWhenTheClockGoesBack | crates/secure-auth-server/src/rate_limit.rs:172-212 | a run with a clock that goes back in which the two answers differ |
| RateLimitRuns.LimitedKeepsItsPromise | crates/secure-auth-server/src/rate_limit.rs:179-212 | after Limited(r) the key is limited for exactly the remaining time strictly before r has passed, and at its first check from then on it opens a new window or meets a full limiter |
| RateLimitRuns.StaysLimited | crates/secure-auth-server/src/rate_limit.rs:179-212 | the same for any exhausted window, at every later check of the key |
| RateLimitHistory.AnswersExactly | crates/secure-auth-server/src/rate_limit.rs:164-212 | with a clock that does not go back every answer follows from the history: while a window of the key is open, limited for what is left of it exactly when its allowed checks number the maximum, else allowed with the rest remaining; otherwise a new window, unless as many keys have one open as the limiter holds |
| RateLimitRuns.HashingIsInvisible | crates/secure-auth-server/src/rate_limit_redis.rs:278-287 | a limiter that sees only hashes answers as one that sees the keys, if no two keys in use collide |
| Redis.CounterRoundTrip | crates/secure-auth-server/src/rate_limit_redis.rs:30-55 | the text Redis keeps for a counter is read back as the same integer by the script's checks |
| RedisIndex.TickKeepsStep | crates/secure-auth-server/src/rate_limit_redis.rs:12-85 | waiting keeps the index in step: the members ahead of the clock are exactly the live keys, each score is its key's expiry, and the index outlives every score |
| RedisIndex.PruneKeepsStep | crates/secure-auth-server/src/rate_limit_redis.rs:12-85 | pruning by score leaves exactly the live members and changes no other key |
| RedisIndex.RemoveDeadKeepsStep | crates/secure-auth-server/src/rate_limit_redis.rs:12-85 | removing a member that is not live changes nothing readable through the index |
| RedisIndex.DropKeepsStep | crates/secure-auth-server/src/opaque_state_redis.rs:41-79 | deleting a key and its member takes out exactly that member |
| RedisIndex.RecordKeepsStep | crates/secure-auth-server/src/opaque_state_redis.rs:17-40 | writing a key, adding its member and extending the index TTL adds exactly that member and keeps the index in step |
| RateLimitRedis.RedisRateLimiter.RunScript | crates/secure-auth-server/src/rate_limit_redis.rs:12-85 | the commands, in order, leave the keyspace and reply of the script specification |
| RateLimitRedis.RedisRateLimiter.Check | crates/secure-auth-server/src/rate_limit_redis.rs:225-256 | an invalid key is refused untouched; on a coherent keyspace the answer and the new windows are those of the in-memory check, and the keyspace stays coherent |
| RateLimitRedis.ScriptRefines | crates/secure-auth-server/src/rate_limit_redis.rs:12-85 | one script on a coherent keyspace answers as the in-memory check, keeps coherence, touches only its own two keys and takes no repair branch |
| RateLimitRedis.TickKeepsCoherent | crates/secure-auth-server/src/rate_limit_redis.rs:12-85 | waiting closes exactly the windows the in-memory limiter would prune |
| RateLimitRedis.ReachableKeyspaceIsCoherent | crates/secure-auth-server/src/rate_limit_redis.rs:12-85 | at every moment of every run the index is in step with well-formed counters |
| RateLimitRedis.DistributedLimiterRefinesInMemory | crates/secure-auth-server/src/rate_limit_redis.rs:12-85 | from an empty keyspace the distributed limiter gives, on every run, the answers of the in-memory limiter |
| RateLimitRedis.DistributedLimiterRefinesInMemoryOnKeys | crates/secure-auth-server/src/rate_limit_redis.rs:225-287 | the same for the public keys behind the hashes, if those do not collide |
| OneTime.TakeIsFaithful | crates/secure-auth-server/src/lib.rs:296-385 | a successful take returns, unchanged and before its expiry, the record an earlier insert of the same kind stored under that handle |
| OneTime.TakenAtMostOnce | crates/secure-auth-server/src/lib.rs:328-385 | no inserted record is handed out twice in any run |
| OneTime.StaysBounded | crates/secure-auth-server/src/lib.rs:296-326 | the store never holds more than its capacity |
| OneTime.TakeExactly | crates/secure-auth-server/src/lib.rs:328-385 | with a clock that does not go back a take gets the value of the one outstanding insert of its handle, a mismatch if the kinds differ, and nothing if none is outstanding |
| OneTime.InsertExactly | crates/secure-auth-server/src/lib.rs:296-326 | an insert is refused as full exactly when as many records are outstanding as the store holds; else it is stored under the first of its handles not in use, and collides if all are |
| OneTimeMemory.InMemoryOneTimeLoginStore.InsertStored | crates/secure-auth-server/src/lib.rs:296-326 | purge, size and capacity checks, and up to four handles: state and answer are those of the one-time specification |
| OneTimeMemory.InMemoryOneTimeLoginStore.TakeBound | crates/secure-auth-server/src/lib.rs:358-385 | takes a bound record only; an unbound one stays |
| OneTimeMemory.InMemoryOneTimeLoginStore.TakeUnbound | crates/secure-auth-server/src/lib.rs:328-356 | takes an unbound record only; a bound one stays |
| OneTimeMemory.InMemoryCeremonyStateStore.Insert | crates/secure-webauthn-example/src/storage.rs:476-506 | validation, TTL bounds and handle generation with the store state of the one-time specification |
| OneTimeMemory.InMemoryCeremonyStateStore.Take | crates/secure-webauthn-example/src/storage.rs:508-532 | hands out a record only under its own kind and before its expiry; exactly the record asked for, if of that kind, is gone afterwards |
| OneTimeRedis.Scripts.Insert | crates/secure-webauthn-example/src/storage_redis.rs:22-44 | the insert script's commands leave the keyspace and status of its specification |
| OneTimeRedis.Scripts.Consume | crates/secure-webauthn-example/src/storage_redis.rs:45-86 | the consume script's commands, in both flavours, leave the keyspace and status of its specification |
| OneTimeRedis.InsertRefines | crates/secure-webauthn-example/src/storage_redis.rs:22-44 | one insert with a TTL of at least 1 ms does what the one-time specification says and touches only its own two keys |
| OneTimeRedis.ConsumeRefines | crates/secure-auth-server/src/opaque_state_redis.rs:41-79 | one consume, in either form, does what the one-time specification says and takes no repair branch |
| OneTimeRedis.ScriptsRefineOneTime | crates/secure-webauthn-example/src/storage_redis.rs:22-86 | in every interleaving of clients, inserts with a TTL of 0 ms included, the scripts reply as the one-time specification does when such an insert stores nothing |
| OneTimeRedis.RecordsAreOneTime | crates/secure-webauthn-example/src/storage_redis.rs:22-86 | a record handed out was inserted under the same key, is unchanged and unexpired, and is handed out once |
| OneTimeRedis.TakeScriptExactly | crates/secure-webauthn-example/src/storage_redis.rs:45-86 | in every interleaving a consume hands out the record of the one outstanding insert of its key, and nothing if none is outstanding |
| OneTimeRedis.LiveKeysAreBounded | crates/secure-auth-server/src/opaque_state_redis.rs:17-79 | live keys are exactly the index members ahead of the clock, and never more than the capacity |
| OneTimeRedis.ZeroTtlStoresNothing | crates/secure-webauthn-example/src/storage.rs:64-72 | a TTL of 0 ms stores nothing on any keyspace, and is aborted if there is room and refused as full otherwise |
| RedisStores.CeremonyKeyInjective | crates/secure-webauthn-example/src/storage_redis.rs:232-243 | a ceremony key determines both kind and handle |
| RedisStores.SpacesAreWellNamed | crates/secure-auth-server/src/opaque_state_redis.rs:226-233 | no record key is the index key, and members determine their keys |
| RedisStores.KeyNames | crates/secure-webauthn-example/src/storage_redis.rs:232-243 | the key names of both stores, written out |
| RedisStores.Attempts.Insert | crates/secure-auth-server/src/opaque_state_redis.rs:236-263 | at most eight attempts; stores under the first vacant key or leaves the records as they were |
| RedisStores.RedisOneTimeLoginStateStore.InsertBound | crates/secure-auth-server/src/opaque_state_redis.rs:236-263 | success adds exactly one sealed record under a vacant key; each refusal has its exact condition and changes no record |
| RedisStores.RedisOneTimeLoginStateStore.TakeBound | crates/secure-auth-server/src/opaque_state_redis.rs:265-284 | removes the record, if any, and returns it opened and decoded |
| RedisStores.RedisWebAuthnStore.Insert | crates/secure-webauthn-example/src/storage_redis.rs:254-291 | for admissible TTLs and states, succeeds exactly when there is room and a vacant handle, adding one record that expires after its own TTL |
| RedisStores.RedisWebAuthnStore.Take | crates/secure-webauthn-example/src/storage_redis.rs:292-317 | removes the record under that kind and handle and returns it opened and decoded |
| RedisStores.StoredLoginOpens | crates/secure-auth-server/src/opaque_state_redis.rs:236-284 | what an insert seals, a take opens and decodes to the same state |
| RedisStores.StoredCeremonyOpens | crates/secure-webauthn-example/src/storage_redis.rs:254-317 | the same for ceremony records |
| CeremonyRuns.FinishesMatchBegins | crates/secure-webauthn-example/src/storage_redis.rs:22-86 | every record handed out decodes to the state an earlier begin of the same kind stored under the same handle, before its expiry, and no two finishes share a begin |
| CeremonyRuns.FinishesExactly | crates/secure-webauthn-example/src/storage_redis.rs:292-317 | a finish gets the state of the one begin of its kind and handle that was stored, is unexpired and was not finished, and nothing if there is none |
| CeremonyRuns.StoreOpsAreValid | crates/secure-webauthn-example/src/storage_redis.rs:254-291 | what the adapter sends to the scripts respects their bounds |
| LoginService.ServerAuthService.AcceptedKeys | crates/secure-auth-server/src/service.rs:157-188 | the accepted keys are the active one and the previous ones in order; refused exactly for an invalid, repeated or excessive key |
| LoginService.ServerAuthService.BeginLogin | crates/secure-auth-server/src/service.rs:252-291 | the new store and the exact answer: a refused request leaves the store alone with its own error, an accepted one inserts the bound state and answers under the active key id |
| LoginService.ServerAuthService.FinishLogin | crates/secure-auth-server/src/service.rs:293-309 | a refused envelope changes nothing; otherwise the handle is taken once and the outcome is that of its record; a live unbound record stays and is refused as of the wrong kind |
| LoginService.FinishCompletesBegin | crates/secure-auth-server/src/service.rs:252-309 | a successful finish comes from an earlier begin's protocol state and its own two identifiers, within its TTL |
| LoginService.FinishesAreInjective | crates/secure-auth-server/src/service.rs:252-309 | two successful finishes never complete the same begin |
| LoginService.FinishAnsweredExactly | crates/secure-auth-server/src/service.rs:293-309 | with a clock that does not go back: a malformed finalization is refused for its first defect; a well-formed one of a pending login gets what the protocol makes of that begin's own state and identifiers, secret or error; any other has no login state |
| LoginService.BeginAnsweredExactly | crates/secure-auth-server/src/service.rs:252-291 | a begin that is in order is refused as full exactly when as many logins are pending as the store holds; else it gets the protocol's response under the active key and the first of its handles that is not pending |
| LoginService.BeginRefusedExactly | crates/secure-auth-server/src/service.rs:252-291 | a begin that is not in order stores nothing and is refused for its first defect |
| LoginRuns.FinishCompletesBegin | crates/secure-auth-server/src/service.rs:252-309 | on the Redis scripts, whatever servers share them: a successful finish comes from the state an earlier begin of the same handle hash stored, with its own identifiers and within its TTL |
| LoginRuns.FinishesAreInjective | crates/secure-auth-server/src/opaque_state_redis.rs:41-79 | there too, two successful finishes never complete the same begin |
| LoginRuns.FinishAnsweredExactly | crates/secure-auth-server/src/service.rs:293-309 | the same on the Redis scripts for every well-formed finalization: a pending login gets what the protocol makes of it, anything else has no login state |
| LoginRuns.RefusedFinishRunsNoScript | crates/secure-auth/src/lib.rs:395-414 | a finalization refused for version, suite, kind or inactive key changes nothing in Redis |
| LoginRuns.StoreOpsAreValid | crates/secure-auth-server/src/opaque_state_redis.rs:236-263 | what begin and finish send to the scripts respects their bounds |
| LoginService.RefusedFinishKeepsState | crates/secure-auth/src/lib.rs:395-414 | a finalization refused for version, suite, kind or inactive key leaves every pending login in place |
| Codec.PackageServerLoginState | crates/secure-auth/src/lib.rs:576-589 | the packaged bytes, header included |
| Codec.UnpackageAcceptsExactlyPackages | crates/secure-auth/src/lib.rs:642-664 | unpackaging accepts exactly the packages of non-empty states of at most one message |
| Codec.EncodeBoundState | crates/secure-auth-server/src/opaque_state_codec.rs:128-157 | encodes every state that fits and refuses the others |
| Codec.DecodeAcceptsExactlyRecords | crates/secure-auth-server/src/opaque_state_codec.rs:159-212 | decoding accepts exactly the encoder's images of valid states, and returns that state |
| Codec.ConstructibleStatesAreEncodable | crates/secure-auth-server/src/opaque_state_codec.rs:128-157 | no state a caller can construct fails the encoder's bounds |
| Codec.EncodeCeremonyRecord | crates/secure-webauthn-example/src/storage.rs:244-259 | encodes every valid ceremony state |
| Codec.CeremonyDecodeAcceptsExactlyRecords | crates/secure-webauthn-example/src/storage.rs:261-286 | the ceremony decoder accepts exactly the encoder's images |
| Codec.Seal | crates/secure-auth-server/src/opaque_state_codec.rs:80-103 | the frame of header, nonce and sealed box, within its bounds |
| Codec.OpenUndoesSeal | crates/secure-auth-server/src/opaque_state_codec.rs:80-126 | opening a frame gives back the record |
| Codec.OpenAcceptsOnlyFrames | crates/secure-auth-server/src/opaque_state_codec.rs:105-126 | whatever opens is the frame of what it opens to |
| CodecLayout.AssociatedDataIsExact | crates/secure-auth-server/src/opaque_state_codec.rs:65-71 | login and ceremony frames share their associated data only within one kind of store and one namespace |
| CodecLayout.OpensOnlyWhereSealed | crates/secure-auth-server/src/opaque_state_codec.rs:80-126 | a sealed frame opens, to its record, under the kind of store and namespace it was sealed for, and is refused under any other |
| CodecLayout.FrameBytes | crates/secure-auth-server/src/opaque_state_codec.rs:80-103 | magic, version in little-endian order, nonce and box, octet by octet, for both frames |
| CodecLayout.PackageBytes | crates/secure-auth/src/lib.rs:576-589 | the octets of the packaged state |
| CodecLayout.UnpackageRefusals | crates/secure-auth/src/lib.rs:642-664 | what a package with a wrong version, suite or length is refused as |
| CodecLayout.LoginRecordBytes | crates/secure-auth-server/src/opaque_state_codec.rs:128-157 | the octets of the login record, lengths in little-endian order |
| CodecLayout.CeremonyRecordBytes | crates/secure-webauthn-example/src/storage.rs:244-259 | the octets of the ceremony record, the kind's tag included and the length in big-endian order |
| Codec.LoginStateSurvivesStorage | crates/secure-auth-server/src/opaque_state_codec.rs:80-212 | package, encode, seal, open, decode, unpackage is the identity for every constructible login state and never fails a bound |
| Codec.CeremonyStateSurvivesStorage | crates/secure-webauthn-example/src/storage.rs:143-286 | the same for ceremony states |
| Hangul.TokensDecode | crates/secure-core/src/hangul.rs:91-99 | a token decodes as exactly the key it encodes |
| Hangul.CombinationsAreFinal | crates/secure-core/src/hangul.rs:200-234 | no combined vowel or trailing consonant is the first half of another combination |
| Hangul.Render | crates/secure-core/src/hangul.rs:101-156 | the loop renders the greedy pieces of the token list |
| HangulTheorems.SyllableRoundTrip | crates/secure-core/src/hangul.rs:126-129 | each syllable lies in U+AC00..U+D7A3 and recovers its three indices |
| HangulTheorems.SyllableParts | crates/secure-core/src/hangul.rs:126-129 | each code point of that block is the syllable of its indices |
| HangulTheorems.AppendingOneKey | crates/secure-core/src/hangul.rs:101-156 | one more key replaces at most the last code point and adds at most one |
| HangulTheorems.RenderIsIncremental | crates/secure-core/src/hangul.rs:101-156 | the batch renderer equals the renderer that sees one key at a time |
| HangulTheorems.RenderedIsComposed | crates/secure-core/src/hangul.rs:101-156 | output is a fixed point of Hangul composition (Unicode Standard, section 3.12) |
| HangulTheorems.RenderedIsStable | crates/secure-core/src/hangul.rs:101-156 | every code point is one the renderer can make, and none composes with the key that starts the next |
| HangulTheorems.SplitRoundTrip | crates/secure-core/src/hangul.rs:101-156 | splitting every rendered code point into jamo tokens and rendering again gives the same output |
| HangulKeys.KeyShowsItself | crates/secure-core/src/hangul.rs:101-156 | a digit, a printable character and a leading consonant are shown as themselves after anything |
| HangulKeys.PlainTextIsTyped | crates/secure-core/src/hangul.rs:101-156 | numeric and printable input is shown character for character |
| HangulKeys.LoneJamo | crates/secure-core/src/hangul.rs:101-156 | a vowel or trailing consonant after something it cannot join is a jamo of its own |
| HangulKeys.SyllableOfKeys | crates/secure-core/src/hangul.rs:126-129 | leading consonant, vowel and trailing consonant show U+AC00 + 588 l + 28 v + t |
| HangulKeys.HalvesMakeVowel | crates/secure-core/src/hangul.rs:200-217 | for each of the nine compound vowels, by name: after a leading consonant its two halves show what the compound shows, whatever is typed next |
| HangulKeys.OtherVowelsStand | crates/secure-core/src/hangul.rs:200-217 | for every other pair of vowels the second is shown as a jamo of its own |
| HangulKeys.HalvesMakeTail | crates/secure-core/src/hangul.rs:219-234 | for each of the eleven compound trailing consonants, by name: after an open syllable its two halves show what the compound shows, whatever is typed next |
| HangulKeys.OtherTailsStand | crates/secure-core/src/hangul.rs:219-234 | for every other pair of trailing consonants the second is shown as a jamo of its own |
| HangulTheorems.UnknownTokensBreakComposition | crates/secure-core/src/hangul.rs:101-156 | a token list with a token of no key whose output does compose |
| Utf8.DecodeIsExact | crates/secure-core/src/hangul.rs:158-168 | a strict decoder (RFC 3629, section 3) accepts exactly the encodings, and returns what was encoded |
| Utf8.EncodeUtf8 | crates/secure-core/src/hangul.rs:158-168 | appends the UTF-8 of the code points to the buffer, clears them, and never exceeds a capacity of four bytes each |
| Utf8.EncodeRenderedToSecretBuffer | crates/secure-core/src/input.rs:243-248 | the buffer holds exactly the encoding; the capacity assertion never fires |
| Session.ResolvedKeysAreValid | crates/secure-core/src/input.rs:125-164 | every resolved key is in range for its class |
| Session.ResolveIsInjective | crates/secure-core/src/input.rs:125-164 | no two identifiers of one policy name the same key |
| HangulKeys.ResolvesExactly | crates/secure-core/src/input.rs:125-164 | an identifier resolves to a key exactly if the policy offers the key and the identifier is the key's own |
| Session.SecretTokenBuffer.Push | crates/secure-core/src/secret_buffer.rs:90-95 | appends to the view; slots past the length stay zero |
| Session.SecretTokenBuffer.Pop | crates/secure-core/src/secret_buffer.rs:96-103 | drops the last token and zeroes its slot |
| Session.SecretTokenBuffer.Clear | crates/secure-core/src/secret_buffer.rs:116-121 | empties the view and zeroes every slot |
| Session.SecretInput.Push | crates/secure-core/src/input.rs:209-216 | limit first, then resolution; the token of the resolved key is appended or nothing changes |
| Session.SecretInput.IntoSecretBuffer | crates/secure-core/src/input.rs:237-248 | the bytes are the UTF-8 of the rendered tokens |
| Session.SecureSession.PressKeyAt | crates/secure-core/src/lib.rs:112-127 | the state and answer of the key-list specification; accepted, the resolved key is appended and the activity noted |
| Session.SecureSession.BackspaceAt | crates/secure-core/src/lib.rs:129-145 | the state and answer of the key-list specification; within the timeout all keys but the last stay |
| Session.SecureSession.ClearAt | crates/secure-core/src/lib.rs:147-155 | the state and answer of the key-list specification; within the timeout no key stays |
| Session.SecureSession.RefreshAt | crates/secure-core/src/lib.rs:168-193 | the masked length and display of the key-list specification |
| Session.SecureSession.SubmitAt | crates/secure-core/src/lib.rs:195-207 | the state and answer of the key-list specification; the input is gone afterwards |
| Session.SecureSession.CancelNow | crates/secure-core/src/lib.rs:209-213 | the input is gone and the display says cancelled |
| Session.RunIsConsistent | crates/secure-core/src/lib.rs:80-213 | in every run: at most the policy's number of keys, all valid, shown empty exactly when nothing is rendered; closed means submitted or cancelled |
| Session.ConstructedSessionsAreBounded | crates/secure-core/src/input.rs:90-118 | a session over a policy made by a constructor never holds or renders more than 4096 items, whatever limit was asked for |
| Session.ClosedStaysClosed | crates/secure-core/src/lib.rs:80-213 | a closed session never opens again |
| Session.SubmitsOnce | crates/secure-core/src/lib.rs:195-207 | at most one submission per session, and its bytes decode to the rendering of the keys at that moment |
| SessionLaws.StateFollowsHistory | crates/secure-core/src/lib.rs:80-213 | a session is open exactly until a submission, a cancellation or a call past the timeout since the last accepted one; it holds the keys that the accepted calls leave, and once closed shows what closed it |
| SessionLaws.AnswersFollowHistory | crates/secure-core/src/lib.rs:105-207 | every answer, each error and the submitted bytes included, from the calls and answers before it |
| SessionLaws.BackspaceUndoesPress | crates/secure-core/src/lib.rs:112-145 | an accepted press followed by a backspace in time restores the keys |
| SessionLaws.AcceptedKeepsOpen | crates/secure-core/src/lib.rs:105-166 | a call accepted at `done` keeps the session open for a call before `done + timeout`, and cancelled for one from then on |
| Base64Url.AlphabetIsCharOf | packages/web/src/index.ts:13-14 | the alphabet constant, position by position |
| Base64Url.EncodeBase64Url | packages/web/src/index.ts:270-291 | refuses oversized input, otherwise returns the encoding |
| Base64Url.WrapKeepsLowBits | packages/web/src/index.ts:322-330 | although the 32-bit accumulator wraps, the byte taken from it is that of the last two digits |
| Base64Url.DecodeBase64Url | packages/web/src/index.ts:294-344 | accepts and returns what the specification does; the output array is filled exactly and two of its guards never fire |
| Base64Url.DecodeInvertsEncode | packages/web/src/index.ts:270-344 | a string is accepted as b exactly when it is the encoding of b and b is within the bound (RFC 4648, sections 3.5 and 5) |
| Base64Url.DigitsAreBits | packages/web/src/index.ts:270-291 | the digits of each group are the base-64 digits of its 24 bits, most significant first, zeros at the end |
| Extensions.CopyBoundedExtensionValue | packages/web/src/index.ts:413-459 | succeeds exactly when every node is allowed at its depth and the whole tree fits the remaining budget; the copy is the value, charged once per node |
| Extensions.CopyRecord | packages/web/src/index.ts:461-471 | passes an absent value through, refuses anything but a record, and otherwise copies within 256 nodes |
| Extensions.AllowedIsShallow | packages/web/src/index.ts:413-459 | what is accepted is at most four levels deep |
| Extensions.AllowedExactly | packages/web/src/index.ts:413-459 | accepted is exactly what is at most four levels deep and, at every node wherever it stands, JSON data within the size limits with no key that reaches the prototype |
| Extensions.NodesAddUp | packages/web/src/index.ts:413-420 | nodes count once each: one for a leaf or empty collection, and as many more as each item or field brings |
| Passkey.PasskeyController.Run | packages/web/src/index.ts:865-886 | refused while an operation is active; otherwise the new operation, of the kind asked for, is active and pending is published before its work is queued |
| Passkey.PasskeyController.Cancel | packages/web/src/index.ts:916-925 | ignored unless pending is displayed and an operation is active; otherwise marks, aborts (with listeners only if the work was given the signal), publishes and rejects in that order around host code |
| Passkey.PasskeyController.ReturnFromHost | packages/web/src/index.ts:865-925 | how each interrupted piece of the controller resumes |
| Passkey.PasskeyController.RunReaction | packages/web/src/index.ts:885-914 | how each promise reaction runs |
| Passkey.PasskeyController.WorkSettled | packages/web/src/index.ts:885-897 | a settled work promise queues the clearing reaction before the race's |
| PasskeyRuns.RunInvariant | packages/web/src/index.ts:840-925 | the invariant of every interleaving of run, cancel, settlements, reactions and re-entrant host code |
| PasskeyRuns.RaceRunsRightAfterClear | packages/web/src/index.ts:885-897 | in every run the race's reaction comes right after the clearing one, with no host code in between |
| PasskeyRuns.OneInFlight | packages/web/src/index.ts:865-893 | at most one operation's work is unsettled, it is the active one, and run refuses another |
| PasskeyRuns.PublishedStates | packages/web/src/index.ts:840-925 | the exact states an operation has published, cancelled or not |
| PasskeyRuns.TerminalStates | packages/web/src/index.ts:840-925 | at most one terminal state per operation, and two exactly when it was cancelled again from an abort listener |
| PasskeyRuns.TwoTerminalStates | packages/web/src/index.ts:916-925 | a run that publishes two terminal states for one operation |
| PasskeyRuns.NothingAfterCancel | packages/web/src/index.ts:916-925 | once cancel has returned, whatever happens, the operation publishes nothing more and can only be rejected as aborted |
| PasskeyRuns.QuietMeansFinished | packages/web/src/index.ts:840-925 | with no host code running and no reaction queued, every operation has finished or its uncancelled work is running; a cancelled one was rejected as aborted |
| PasskeyRuns.OutcomeFollowsWork | packages/web/src/index.ts:894-914 | an uncancelled operation resolves, rejects and publishes as its work did: a client error keeps its code, a platform abort becomes aborted, anything else a credential API failure |
| PasskeyRuns.AbortedOnlyByWork | packages/web/src/index.ts:822-828 | an uncancelled operation is shown as aborted only if its work was rejected with an abort or a client error of that code |
| PasskeyRuns.CancelReachesActive | packages/web/src/index.ts:916-925 | cancel reaches the active operation exactly when that operation was the last to publish |
| PasskeyRuns.CancelCanBeIgnored | packages/web/src/index.ts:916-925 | a run in which cancel is ignored while an uncancelled operation's work is running |
| Shuffle.ShuffleInPlace | native/ios/SecureKeypadPresentation.swift:18-21 | the in-place loop computes the shuffle of its choices |
| Shuffle.PresentationRows | native/ios/SecureKeypadPresentation.swift:9-30 | the rows keep their number and lengths and hold the shuffled inputs; unchanged when not randomized or with fewer than two inputs |
| Shuffle.PresentationKeepsKeys | native/ios/SecureKeypadPresentation.swift:9-30 | input slots hold inputs, every other key stays in place, and no key is lost or doubled |
| Shuffle.EveryOrderOnce | native/ios/SecureKeypadPresentation.swift:18-21 | each order of distinct inputs arises from exactly one sequence of swap choices |
| Shuffle.ReachesOrder | native/ios/SecureKeypadPresentation.swift:18-21 | every order, repeated items included, arises from some sequence of choices |
| Shuffle.EveryKeypadOnce | native/ios/SecureKeypadPresentation.swift:9-30 | a randomized keypad of distinct inputs shows each order of them for exactly one sequence of choices |
| ReplayCache.FinancialAdmission.ConsumeEvidence | crates/secure-auth-axum/src/lib.rs:61-87 | drops expired entries, then refuses a known binding, refuses at capacity, or records the binding |
| ReplayCache.FinancialAdmission.HandleRequest | crates/secure-auth-axum/src/lib.rs:226-260 | context, integrity, clock, evidence and cache are consulted in that order |
| ReplayCache.KeyIsInjective | crates/secure-auth-axum/src/lib.rs:71-78 | two valid contexts share a replay key only if they are equal |
| ReplayCache.CacheIsBounded | crates/secure-auth-axum/src/lib.rs:82-84 | the cache never exceeds 4096 entries |
| ReplayCache.ReadmissionNeedsExpiry | crates/secure-auth-axum/src/lib.rs:61-87 | a binding is admitted again only after some request consulted the cache at or past the first evidence's expiry |
| ReplayCache.EvidenceIsAdmittedOnce | crates/secure-auth-http/src/lib.rs:275-299 | with a clock that does not go back no evidence is admitted twice, and no binding before the first expiry |
| ReplayCache.ReplayedExactly | crates/secure-auth-axum/src/lib.rs:61-87 | a binding is refused as replayed exactly when no request since its admission consulted the cache at or past its expiry |
| ReplayCache.ConsultsExactly | crates/secure-auth-http/src/lib.rs:264-299 | the cache is consulted exactly for a context in order whose evidence names it, was issued at most 30 s ahead, is not over and lives at most 5 minutes |
| ReplayCache.AdmittedExactly | crates/secure-auth-axum/src/lib.rs:226-260 | every request is answered from the history: refused for its first defect, as used if its binding is still in use, as unavailable if 4096 are, and admitted otherwise |
| ReplayCache.ReplayAfterALaterTime | crates/secure-auth-axum/src/lib.rs:61-87 | the same request is admitted twice around any other one served past its expiry |
| ReplayCache.ClockGoingBackAdmitsTwice | crates/secure-auth-axum/src/lib.rs:61-87 | concrete requests that do so |
| Overlap.OverlapIsExact | crates/secure-ffi/src/lib.rs:51-71 | no overlap is reported exactly for empty ranges and for ranges that share no address and end before the last one |
| Overlap.AliasTestsAreComplete | crates/secure-ffi/src/lib.rs:113-143 | the pairwise checks leave out no pair of regions but the two identifiers |
| Overlap.ResetsKeepInputs | crates/secure-ffi/src/lib.rs:984-1018 | after both slot resets the input object, the response and the identifiers parsed are those of the memory before the call |
| Overlap.ClientFinish | crates/secure-ffi/src/lib.rs:963-1035 | refuses without a write, or calls the core with the caller's own bytes and writes nothing but the two slots |
| Overlap.SlotsAfterFinish | crates/secure-ffi/src/lib.rs:996-1035 | afterwards the input slot is null, the output slot is null or holds the handle, and every other byte is unchanged |
| Overlap.CoreSeesCallersBytes | crates/secure-ffi/src/lib.rs:963-1035 | when the core is called, and that it gets object, response, client and server identifier, each byte for byte as passed |
| Overlap.StorePointer | crates/secure-ffi/src/lib.rs:996-1002 | writes the eight bytes of the slot and no other |
| Overlap.StoredAndRead | crates/secure-ffi/src/lib.rs:996-1002 | a stored pointer is read back |
| EventQueue.Plugin.Emit | native/ios/flutter/SecureKeypadFlutterPlugin.swift:137-154 | delivers, or queues with coalescing and eviction, as specified |
| EventQueue.Plugin.OnListen | native/ios/flutter/SecureKeypadFlutterPlugin.swift:124-130 | delivers everything waiting, in order |
| EventQueue.PendingWhileDetached | native/ios/flutter/SecureKeypadFlutterPlugin.swift:137-154 | at most 32 events, no two state events adjacent, the last one emitted is last, and the waiting results are the latest results emitted, at least 31 if there were as many |
| EventQueue.PendingKeepsOrder | native/ios/flutter/SecureKeypadFlutterPlugin.swift:137-154 | events are left out, never reordered or made up |
| EventQueue.WaitingExactly | native/ios/flutter/SecureKeypadFlutterPlugin.swift:137-154 | a state event directly followed by another is replaced by it; of the rest everything waits while there is room for 32, then always 32 do, and the states among them are the latest |
| EventQueue.ListenersInTurn | native/ios/flutter/SecureKeypadFlutterPlugin.swift:120-154 | an attached listener gets every event at once; after it left, the next one gets what waits first |
| EventQueue.ResultsAreAccountedFor | native/ios/flutter/SecureKeypadFlutterPlugin.swift:124-154 | over any run with listeners coming and going, every result is delivered or waiting but for one per emission that met 32 waiting results, those left are in the order emitted, and if none was lost they are complete |

## Left out

- OPAQUE, AES-GCM, SHA-256 and WebAuthn verification: foreign cryptography, taken as parameters with the laws named above.
- PostgreSQL adapters: their correctness rests on the SQL engine, and the transaction clock is fixed before the advisory lock is granted.
- Credential updates over Redis WATCH and MULTI: they depend on how the client library reports an aborted transaction, which is not visible here.
- Corrupted Redis keyspaces: the repair branches are in the script specifications and are proved unreachable without outside writes; what they repair is not stated.
- Node and Actix copies of the replay cache, and the mirrored native files of the other packages: the same logic as the modelled ones, except that the Node adapter reads the clock twice.
- Connection, pool, configuration and namespace validation errors, and lock poisoning: one branch each.
- HTTP routing, status tables, content-length checks, theme and layout validation, UI views, posture checks, JNI and Expo plumbing.
- Registration of OPAQUE users (`begin_registration`, `finish_registration`): no pending state is kept.
- Session.Resolve: bounds key identifiers by characters, where the source counts UTF-8 bytes; only ASCII identifiers resolve, so the answers agree.
- RedisStores.Attempts.Insert: the attempts of one call read one clock and are not interleaved with other clients; the run theorems take each attempt as a script run of its own, with any client in between.
- RedisStores.RedisOneTimeLoginStateStore.InsertBound: the same, for the attempts of one call.
- RedisStores.RedisWebAuthnStore.Insert: the same, for the attempts of one call.
- Session.ConstructedSessionsAreBounded: a policy built field by field, which the public enum allows, is bounded by the limit it names and by nothing else.
- Overlap.ClientFinish: the core's outcome is a parameter, and freeing the input object and the panic guard are not modelled.
- Passkey.PasskeyController.WorkSettled: a work promise may settle between any two reactions; the extra queue positions of adopting the promise that the work returned are not counted, which only adds interleavings.
- EventQueue.Plugin.OnListen: a sink that emits while it is being drained is not modelled.
- Extensions.CopyBoundedExtensionValue: values are finite trees; cyclic objects, sparse arrays and getters are not modelled, and the message that goes with the error code is not either.
- Shuffle.PresentationRows: the random source is the sequence of its draws; that the draws are uniform is not stated.
- Zeroization of freed memory: only the buffers that stay reachable are shown to be cleared.
