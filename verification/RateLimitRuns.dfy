/** Whole-run theorems about the fixed-window limiter under a nondecreasing clock. */
module RateLimitRuns {
  import opened Common
  import opened RateLimit

  /** One check of `key` made when the clock reads `at`. */
  datatype Event<+K> = Event(key: K, at: int)

  ghost predicate Ordered<K>(events: seq<Event<K>>) {
    forall i, j :: 0 <= i < j < |events| ==> events[i].at <= events[j].at
  }

  function Run<K(!new)>(p: Policy, maxKeys: nat, entries: Entries<K>, events: seq<Event<K>>): (answers: seq<Answer>)
    requires p.Valid() && Counted(p, entries)
    ensures |answers| == |events|
    decreases |events|
  {
    if events == [] then []
    else
      var o := Check(p, maxKeys, entries, events[0].at, events[0].key);
      [o.answer] + Run(p, maxKeys, o.entries, events[1..])
  }

  lemma RunUnfolds<K(!new)>(p: Policy, maxKeys: nat, entries: Entries<K>, events: seq<Event<K>>)
    requires p.Valid() && Counted(p, entries) && events != []
    ensures var o := Check(p, maxKeys, entries, events[0].at, events[0].key);
            && Run(p, maxKeys, entries, events)[0] == o.answer
            && Run(p, maxKeys, entries, events)[1..] == Run(p, maxKeys, o.entries, events[1..])
  {
  }

  predicate IsAllowed(answer: Answer) {
    answer.Success? && answer.value.Allowed?
  }

  /** An allowed check of `key` inside the half-open span. */
  predicate CountsFor<K(==)>(e: Event<K>, answer: Answer, key: K, from: int, until: int) {
    e.key == key && from <= e.at < until && IsAllowed(answer)
  }

  /** How many checks of `key` with `from <= at < until` were allowed. */
  function AllowedIn<K(==)>(events: seq<Event<K>>, answers: seq<Answer>, key: K, from: int, until: int): nat
    requires |events| == |answers|
  {
    if events == [] then 0
    else
      (if CountsFor(events[0], answers[0], key, from, until) then 1 else 0)
      + AllowedIn(events[1..], answers[1..], key, from, until)
  }

  // ---------------------------------------------------------------------
  // The rate bound

  /** The same count taken while the run goes on. */
  function AllowedSoFar<K(!new,==)>(p: Policy, maxKeys: nat, entries: Entries<K>, events: seq<Event<K>>,
                                  key: K, from: int, until: int): nat
    requires p.Valid() && Counted(p, entries)
    decreases |events|
  {
    if events == [] then 0
    else
      var o := Check(p, maxKeys, entries, events[0].at, events[0].key);
      (if CountsFor(events[0], o.answer, key, from, until) then 1 else 0)
      + AllowedSoFar(p, maxKeys, o.entries, events[1..], key, from, until)
  }

  lemma {:induction false} AllowedSoFarCounts<K(!new)>(p: Policy, maxKeys: nat, entries: Entries<K>,
                                                     events: seq<Event<K>>, key: K, from: int, until: int)
    requires p.Valid() && Counted(p, entries)
    ensures AllowedSoFar(p, maxKeys, entries, events, key, from, until)
            == AllowedIn(events, Run(p, maxKeys, entries, events), key, from, until)
    decreases |events|
  {
    if events != [] {
      RunUnfolds(p, maxKeys, entries, events);
      AllowedSoFarCounts(p, maxKeys, Check(p, maxKeys, entries, events[0].at, events[0].key).entries, events[1..],
                         key, from, until);
    }
  }

  /** What `count` earlier allowed attempts inside the span starting at `from` say about the key's entry. */
  ghost predicate SpanAccount<K>(p: Policy, entries: Entries<K>, key: K, from: int, count: nat) {
    if key !in entries then count <= p.maxAttempts - 1
    else if entries[key].startedAt < from then count <= entries[key].attempts - 1
    else count <= entries[key].attempts + p.maxAttempts - 1
  }

  lemma SpanAccountStep<K(!new)>(p: Policy, maxKeys: nat, entries: Entries<K>, e: Event<K>,
                                 key: K, from: int, count: nat)
    requires p.Valid() && Counted(p, entries)
    requires SpanAccount(p, entries, key, from, count)
    requires e.at < from ==> count == 0
    requires e.at < from + p.window
    ensures var o := Check(p, maxKeys, entries, e.at, e.key);
            SpanAccount(p, o.entries, key, from,
                        if CountsFor(e, o.answer, key, from, from + p.window) then count + 1 else count)
  {
    var kept := Retain(p, entries, e.at);
    if key in entries && key !in kept {
      assert entries[key].startedAt < from;
    }
  }

  lemma {:induction false} SpanAccounting<K(!new)>(p: Policy, maxKeys: nat, entries: Entries<K>,
                                                events: seq<Event<K>>, key: K, from: int, count: nat)
    requires p.Valid() && Counted(p, entries) && Ordered(events)
    requires events != [] && events[0].at < from ==> count == 0
    requires SpanAccount(p, entries, key, from, count)
    ensures count + AllowedSoFar(p, maxKeys, entries, events, key, from, from + p.window) <= 2 * p.maxAttempts - 1
    decreases |events|
  {
    if events != [] {
      var e := events[0];
      var o := Check(p, maxKeys, entries, e.at, e.key);
      if e.at >= from + p.window {
        NothingLater(p, maxKeys, entries, events, key, from, from + p.window);
      } else {
        SpanAccountStep(p, maxKeys, entries, e, key, from, count);
        var next := if CountsFor(e, o.answer, key, from, from + p.window) then count + 1 else count;
        SpanAccounting(p, maxKeys, o.entries, events[1..], key, from, next);
      }
    }
  }

  lemma {:induction false} NothingLater<K(!new)>(p: Policy, maxKeys: nat, entries: Entries<K>, events: seq<Event<K>>,
                                               key: K, from: int, until: int)
    requires p.Valid() && Counted(p, entries) && Ordered(events) && (events != [] ==> events[0].at >= until)
    ensures AllowedSoFar(p, maxKeys, entries, events, key, from, until) == 0
    decreases |events|
  {
    if events != [] {
      NothingLater(p, maxKeys, Check(p, maxKeys, entries, events[0].at, events[0].key).entries, events[1..],
                   key, from, until);
    }
  }

  /** No half-open span as long as one window holds more than `2 * maxAttempts - 1` allowed attempts of a key. */
  lemma RateBound<K(!new)>(p: Policy, maxKeys: nat, events: seq<Event<K>>, key: K, from: int)
    requires p.Valid() && Ordered(events)
    ensures AllowedIn(events, Run(p, maxKeys, map[], events), key, from, from + p.window)
            <= 2 * p.maxAttempts - 1
  {
    SpanAccounting(p, maxKeys, map[], events, key, from, 0);
    AllowedSoFarCounts(p, maxKeys, map[], events, key, from, from + p.window);
  }

  function Repeat<K>(key: K, at: int, n: nat): seq<Event<K>> {
    if n == 0 then [] else [Event(key, at)] + Repeat(key, at, n - 1)
  }

  /** A check that finds its window open and unexhausted is allowed. */
  lemma BurstStep<K(!new)>(p: Policy, maxKeys: nat, key: K, startedAt: int, attempts: nat, e: Event<K>)
    requires p.Valid() && 1 <= attempts < p.maxAttempts
    requires e.key == key && startedAt <= e.at < startedAt + p.window
    ensures var o := Check(p, maxKeys, map[key := WindowEntry(startedAt, attempts)], e.at, key);
            && o.entries == map[key := WindowEntry(startedAt, attempts + 1)]
            && IsAllowed(o.answer)
  {
    var current := map[key := WindowEntry(startedAt, attempts)];
    assert Retain(p, current, e.at) == current;
  }

  /** A run that starts with an allowed check counts that check and the rest of it. */
  lemma CountsFirst<K(!new)>(p: Policy, maxKeys: nat, entries: Entries<K>, e: Event<K>, next: Entries<K>,
                             rest: seq<Event<K>>, from: int, until: int)
    requires p.Valid() && Counted(p, entries) && Counted(p, next)
    requires Check(p, maxKeys, entries, e.at, e.key).entries == next
    requires IsAllowed(Check(p, maxKeys, entries, e.at, e.key).answer)
    ensures AllowedSoFar(p, maxKeys, entries, [e] + rest, e.key, from, until)
            == (if from <= e.at < until then 1 else 0) + AllowedSoFar(p, maxKeys, next, rest, e.key, from, until)
  {
    assert ([e] + rest)[1..] == rest;
  }

  /** Checks that fit the budget of an open window are all allowed, whatever follows them. */
  lemma {:induction false} BurstAllowed<K(!new)>(p: Policy, maxKeys: nat, key: K, startedAt: int, attempts: nat,
                                              last: nat, at: int, rest: seq<Event<K>>, from: int, until: int)
    requires p.Valid() && 1 <= attempts <= last <= p.maxAttempts
    requires startedAt <= at < startedAt + p.window && from <= at < until
    ensures AllowedSoFar(p, maxKeys, map[key := WindowEntry(startedAt, attempts)],
                         Repeat(key, at, last - attempts) + rest, key, from, until)
            == last - attempts
               + AllowedSoFar(p, maxKeys, map[key := WindowEntry(startedAt, last)], rest, key, from, until)
    decreases last - attempts
  {
    hide AllowedSoFar, Check;
    if attempts == last {
      assert Repeat(key, at, 0) + rest == rest;
    } else {
      var e, more := Event(key, at), Repeat(key, at, last - (attempts + 1)) + rest;
      assert Repeat(key, at, last - attempts) + rest == [e] + more;
      BurstStep(p, maxKeys, key, startedAt, attempts, e);
      CountsFirst(p, maxKeys, map[key := WindowEntry(startedAt, attempts)], e,
                  map[key := WindowEntry(startedAt, attempts + 1)], more, from, until);
      BurstAllowed(p, maxKeys, key, startedAt, attempts + 1, last, at, rest, from, until);
    }
  }

  /** A check of a key with no open window, in a limiter with room, opens one. */
  lemma OpensWindow<K(!new)>(p: Policy, maxKeys: nat, entries: Entries<K>, e: Event<K>)
    requires p.Valid() && Counted(p, entries) && Retain(p, entries, e.at) == map[] && 1 <= maxKeys
    ensures var o := Check(p, maxKeys, entries, e.at, e.key);
            o.entries == map[e.key := WindowEntry(e.at, 1)] && IsAllowed(o.answer)
  {
  }

  /** A fresh window used up by a burst: its opening check plus `maxAttempts - 1` more, then `rest`. */
  lemma WindowUsedUp<K(!new)>(p: Policy, maxKeys: nat, entries: Entries<K>, key: K, opens: int, at: int,
                              rest: seq<Event<K>>, from: int, until: int)
    requires p.Valid() && Counted(p, entries) && Retain(p, entries, opens) == map[] && 1 <= maxKeys
    requires opens <= at < opens + p.window && from <= at < until
    ensures AllowedSoFar(p, maxKeys, entries, [Event(key, opens)] + (Repeat(key, at, p.maxAttempts - 1) + rest),
                         key, from, until)
            == (if from <= opens < until then 1 else 0) + p.maxAttempts - 1
               + AllowedSoFar(p, maxKeys, map[key := WindowEntry(opens, p.maxAttempts)], rest, key, from, until)
  {
    var e := Event(key, opens);
    OpensWindow(p, maxKeys, entries, e);
    CountsFirst(p, maxKeys, entries, e, map[key := WindowEntry(opens, 1)],
                Repeat(key, at, p.maxAttempts - 1) + rest, from, until);
    BurstAllowed(p, maxKeys, key, opens, 1, p.maxAttempts, at, rest, from, until);
  }

  function SecondBurst<K>(p: Policy, key: K): seq<Event<K>>
    requires p.Valid()
  {
    [Event(key, p.window)] + (Repeat(key, p.window, p.maxAttempts - 1) + [])
  }

  /** Two full windows: the first opens early and is used up at its very end, the second as soon as it can open. */
  function Straddle<K>(p: Policy, key: K): seq<Event<K>>
    requires p.Valid()
  {
    [Event(key, 0)] + (Repeat(key, p.window - 1, p.maxAttempts - 1) + SecondBurst(p, key))
  }

  /** A used-up window that opened at 0 gives way to a whole new one when it closes. */
  lemma SecondWindow<K(!new)>(p: Policy, maxKeys: nat, key: K, from: int, until: int)
    requires p.Valid() && 1 <= maxKeys && from <= p.window < until
    ensures AllowedSoFar(p, maxKeys, map[key := WindowEntry(0, p.maxAttempts)], SecondBurst(p, key), key, from, until)
            == p.maxAttempts
  {
    var full := map[key := WindowEntry(0, p.maxAttempts)];
    assert Retain(p, full, p.window) == map[];
    WindowUsedUp(p, maxKeys, full, key, p.window, p.window, [], from, until);
  }

  lemma {:induction false} RepeatIsAt<K>(key: K, at: int, n: nat)
    ensures forall i :: 0 <= i < |Repeat(key, at, n)| ==> Repeat(key, at, n)[i] == Event(key, at)
  {
    if n != 0 {
      RepeatIsAt(key, at, n - 1);
    }
  }

  lemma StraddleIsOrdered<K(!new)>(p: Policy, key: K)
    requires p.Valid()
    ensures Ordered(Straddle(p, key))
  {
    RepeatIsAt(key, p.window - 1, p.maxAttempts - 1);
    RepeatIsAt(key, p.window, p.maxAttempts - 1);
  }

  /** The bound is met: every policy whose window is longer than one tick has a run that reaches it. */
  lemma RateBoundIsTight<K(!new)>(p: Policy, maxKeys: nat, key: K)
    requires p.Valid() && 2 <= p.window && 1 <= maxKeys
    ensures Ordered(Straddle(p, key))
    ensures AllowedIn(Straddle(p, key), Run(p, maxKeys, map[], Straddle(p, key)), key,
                      p.window - 1, p.window - 1 + p.window) == 2 * p.maxAttempts - 1
  {
    hide AllowedSoFar, AllowedIn, Run, Check;
    StraddleIsOrdered(p, key);
    var none: Entries<K> := map[];
    var from := p.window - 1;
    assert Retain(p, none, 0) == none;
    SecondWindow(p, maxKeys, key, from, from + p.window);
    WindowUsedUp(p, maxKeys, none, key, 0, p.window - 1, SecondBurst(p, key), from, from + p.window);
    AllowedSoFarCounts(p, maxKeys, none, Straddle(p, key), key, from, from + p.window);
  }

  // ---------------------------------------------------------------------
  // Eager pruning is not observable

  ghost function LiveKeys<K(!new)>(p: Policy, history: Entries<K>, now: int): set<K> {
    set k | k in history && InWindow(p, history[k], now)
  }

  /**
   The limiter without pruning: it remembers the last window of every key it
   ever admitted. Only windows still open count towards the capacity.
   */
  ghost function Remember<K(!new)>(p: Policy, maxKeys: nat, history: Entries<K>, now: int, key: K): (o: Outcome<K>)
    requires p.Valid() && Counted(p, history)
    ensures Counted(p, o.entries)
  {
    if key in history && InWindow(p, history[key], now) then
      var entry := history[key];
      if entry.attempts == p.maxAttempts then
        Outcome(history, Success(Limited(RetryAfter(p, entry, now))))
      else
        Outcome(history[key := entry.(attempts := entry.attempts + 1)],
                Success(Allowed(p.maxAttempts - entry.attempts - 1)))
    else if |LiveKeys(p, history, now)| >= maxKeys then
      Outcome(history, Failure(CapacityReached))
    else
      Outcome(history[key := WindowEntry(now, 1)], Success(Allowed(p.maxAttempts - 1)))
  }

  ghost function RememberRun<K(!new)>(p: Policy, maxKeys: nat, history: Entries<K>, events: seq<Event<K>>)
    : (answers: seq<Answer>)
    requires p.Valid() && Counted(p, history)
    ensures |answers| == |events|
    decreases |events|
  {
    if events == [] then []
    else
      var o := Remember(p, maxKeys, history, events[0].at, events[0].key);
      [o.answer] + RememberRun(p, maxKeys, o.entries, events[1..])
  }

  /** The pruned map agrees with the full history except on windows closed by `now`. */
  ghost predicate Forgets<K(!new)>(p: Policy, entries: Entries<K>, history: Entries<K>, now: int) {
    && (forall k :: k in entries ==> k in history && entries[k] == history[k])
    && (forall k :: k in history && k !in entries ==> !InWindow(p, history[k], now))
  }

  lemma ForgetsStep<K(!new)>(p: Policy, maxKeys: nat, entries: Entries<K>, history: Entries<K>,
                             before: int, now: int, key: K)
    requires p.Valid() && Counted(p, entries) && Counted(p, history)
    requires Forgets(p, entries, history, before) && before <= now
    ensures var o, r := Check(p, maxKeys, entries, now, key), Remember(p, maxKeys, history, now, key);
            o.answer == r.answer && Forgets(p, o.entries, r.entries, now)
  {
    var kept := Retain(p, entries, now);
    assert kept.Keys == LiveKeys(p, history, now);
    assert |kept| == |kept.Keys|;
  }

  lemma {:induction false} SameAnswers<K(!new)>(p: Policy, maxKeys: nat, entries: Entries<K>, history: Entries<K>,
                                             before: int, events: seq<Event<K>>)
    requires p.Valid() && Counted(p, entries) && Counted(p, history)
    requires Forgets(p, entries, history, before) && Ordered(events)
    requires events != [] ==> before <= events[0].at
    ensures Run(p, maxKeys, entries, events) == RememberRun(p, maxKeys, history, events)
    decreases |events|
  {
    if events != [] {
      var e := events[0];
      ForgetsStep(p, maxKeys, entries, history, before, e.at, e.key);
      SameAnswers(p, maxKeys, Check(p, maxKeys, entries, e.at, e.key).entries,
                  Remember(p, maxKeys, history, e.at, e.key).entries, e.at, events[1..]);
    }
  }

  /** Pruning changes no answer, capacity refusals included, as long as the clock does not go back. */
  lemma PruningIsInvisible<K(!new)>(p: Policy, maxKeys: nat, events: seq<Event<K>>)
    requires p.Valid() && Ordered(events)
    ensures Run(p, maxKeys, map[], events) == RememberRun(p, maxKeys, map[], events)
  {
    if events != [] {
      SameAnswers(p, maxKeys, map[], map[], events[0].at, events);
    }
  }

  // ---------------------------------------------------------------------
  // What `Limited` promises

  /** An exhausted window of `key` that closes at `reopens`. */
  ghost predicate Exhausted<K>(p: Policy, entries: Entries<K>, key: K, reopens: int) {
    key in entries ==> entries[key].attempts == p.maxAttempts && entries[key].startedAt + p.window == reopens
  }

  /** Check `i` is the first one of `key`, counting from check `lo`, made at `reopens` or later. */
  ghost predicate FirstAfter<K(!new)>(events: seq<Event<K>>, key: K, reopens: int, lo: nat, i: nat)
    requires i < |events|
  {
    events[i].key == key && events[i].at >= reopens
    && forall j :: lo <= j < i && events[j].key == key ==> events[j].at < reopens
  }

  predicate Reopened(p: Policy, answer: Answer)
    requires p.Valid()
  {
    answer == Success(Allowed(p.maxAttempts - 1)) || answer == Failure(CapacityReached)
  }

  /** What one check makes of an exhausted window. */
  lemma ExhaustedStep<K(!new)>(p: Policy, maxKeys: nat, entries: Entries<K>, e: Event<K>, key: K, reopens: int)
    requires p.Valid() && Counted(p, entries) && Exhausted(p, entries, key, reopens)
    requires e.at < reopens ==> key in entries && entries[key].startedAt <= e.at
    ensures var o := Check(p, maxKeys, entries, e.at, e.key);
            && (e.key == key && e.at < reopens ==> o.answer == Success(Limited(reopens - e.at)))
            && (e.key == key && e.at >= reopens ==> Reopened(p, o.answer))
            && (e.key != key || e.at < reopens ==> Exhausted(p, o.entries, key, reopens))
            && (e.at < reopens ==> key in o.entries && o.entries[key].startedAt <= e.at)
  {
  }

  lemma {:induction false} StaysLimited<K(!new)>(p: Policy, maxKeys: nat, entries: Entries<K>, events: seq<Event<K>>,
                                              key: K, reopens: int, i: nat)
    requires p.Valid() && Counted(p, entries) && Ordered(events) && i < |events|
    requires Exhausted(p, entries, key, reopens)
    requires events[0].at < reopens ==> key in entries && entries[key].startedAt <= events[0].at
    requires events[i].key == key
    ensures var answer := Run(p, maxKeys, entries, events)[i];
            && (events[i].at < reopens ==> answer == Success(Limited(reopens - events[i].at)))
            && (FirstAfter(events, key, reopens, 0, i) ==> Reopened(p, answer))
    decreases i
  {
    hide *;
    var e, rest := events[0], events[1..];
    var o := Check(p, maxKeys, entries, e.at, e.key);
    RunUnfolds(p, maxKeys, entries, events);
    ExhaustedStep(p, maxKeys, entries, e, key, reopens);
    FirstAfterFirst(events, key, reopens);
    if 0 < i {
      OrderedTail(events, i);
      FirstAfterTail(events, key, reopens, i);
      if !(e.key == key && e.at >= reopens) {
        StaysLimited(p, maxKeys, o.entries, rest, key, reopens, i - 1);
      }
    }
  }

  lemma OrderedTail<K(!new)>(events: seq<Event<K>>, i: nat)
    requires Ordered(events) && 0 < i < |events|
    ensures Ordered(events[1..]) && events[0].at <= events[1].at && events[0].at <= events[i].at
  {
  }

  lemma FirstAfterFirst<K(!new)>(events: seq<Event<K>>, key: K, reopens: int)
    requires events != []
    ensures FirstAfter(events, key, reopens, 0, 0) ==> events[0].key == key && events[0].at >= reopens
  {
  }

  lemma FirstAfterTail<K(!new)>(events: seq<Event<K>>, key: K, reopens: int, i: nat)
    requires 0 < i < |events|
    ensures FirstAfter(events, key, reopens, 0, i) ==>
              !(events[0].key == key && events[0].at >= reopens) && FirstAfter(events[1..], key, reopens, 0, i - 1)
  {
    if FirstAfter(events, key, reopens, 0, i) {
      forall j | 0 <= j < i - 1 && events[1..][j].key == key ensures events[1..][j].at < reopens {
        assert events[j + 1] == events[1..][j];
      }
    }
  }

  /** No entry claims to have been opened later than `now`; a run from the start never makes one that does. */
  ghost predicate StartedBy<K(!new)>(entries: Entries<K>, now: int) {
    forall k :: k in entries ==> entries[k].startedAt <= now
  }

  lemma LimitedMeansExhausted<K(!new)>(p: Policy, maxKeys: nat, entries: Entries<K>, e: Event<K>)
    requires p.Valid() && Counted(p, entries) && StartedBy(entries, e.at)
    ensures var o := Check(p, maxKeys, entries, e.at, e.key);
            && StartedBy(o.entries, e.at)
            && (o.answer.Success? && o.answer.value.Limited? ==>
                  0 < o.answer.value.retryAfter && e.key in o.entries
                  && Exhausted(p, o.entries, e.key, e.at + o.answer.value.retryAfter))
  {
  }

  /**
   When check `i` of a run is answered `Limited(r)`, every later check of that
   key strictly before `at + r` is limited for exactly the remaining time, and
   the first one from then on is not: it opens a new window unless the limiter
   is full.
   */
  lemma {:induction false} LimitedKeepsItsPromise<K(!new)>(p: Policy, maxKeys: nat, entries: Entries<K>,
                                                        events: seq<Event<K>>, i: nat, j: nat, r: nat)
    requires p.Valid() && Counted(p, entries) && Ordered(events)
    requires i < j < |events| && events[i].key == events[j].key
    requires StartedBy(entries, events[0].at)
    requires Run(p, maxKeys, entries, events)[i] == Success(Limited(r))
    ensures 0 < r
    ensures events[j].at < events[i].at + r ==>
              Run(p, maxKeys, entries, events)[j] == Success(Limited(events[i].at + r - events[j].at))
    ensures FirstAfter(events, events[i].key, events[i].at + r, i + 1, j) ==>
              Reopened(p, Run(p, maxKeys, entries, events)[j])
    decreases i
  {
    hide *;
    var e, rest := events[0], events[1..];
    var o := Check(p, maxKeys, entries, e.at, e.key);
    RunUnfolds(p, maxKeys, entries, events);
    LimitedMeansExhausted(p, maxKeys, entries, e);
    OrderedTail(events, j);
    FirstAfterLater(events, events[i].key, events[i].at + r, i, j);
    if i == 0 {
      LimitedFirst(p, maxKeys, o.entries, rest, e, j - 1, r);
    } else {
      StartedByLater(o.entries, e.at, rest[0].at);
      LimitedKeepsItsPromise(p, maxKeys, o.entries, rest, i - 1, j - 1, r);
    }
  }

  lemma StartedByLater<K(!new)>(entries: Entries<K>, now: int, later: int)
    requires StartedBy(entries, now) && now <= later
    ensures StartedBy(entries, later)
  {
  }

  lemma LimitedFirst<K(!new)>(p: Policy, maxKeys: nat, entries: Entries<K>, rest: seq<Event<K>>, e: Event<K>,
                              j: nat, r: nat)
    requires p.Valid() && Counted(p, entries) && Ordered(rest) && j < |rest| && rest[j].key == e.key
    requires e.key in entries && Exhausted(p, entries, e.key, e.at + r)
    requires StartedBy(entries, e.at) && e.at <= rest[0].at
    ensures var answer := Run(p, maxKeys, entries, rest)[j];
            && (rest[j].at < e.at + r ==> answer == Success(Limited(e.at + r - rest[j].at)))
            && (FirstAfter(rest, e.key, e.at + r, 0, j) ==> Reopened(p, answer))
  {
    assert entries[e.key].startedAt <= e.at;
    hide StartedBy, Run;
    StaysLimited(p, maxKeys, entries, rest, e.key, e.at + r, j);
  }

  lemma FirstAfterLater<K(!new)>(events: seq<Event<K>>, key: K, reopens: int, lo: nat, i: nat)
    requires 0 < i < |events|
    ensures FirstAfter(events, key, reopens, lo + 1, i) ==> FirstAfter(events[1..], key, reopens, lo, i - 1)
  {
    assert forall m :: 0 <= m < |events| - 1 ==> events[1..][m] == events[m + 1];
  }

  // ---------------------------------------------------------------------
  // Hashing the keys

  ghost predicate InjectiveOn<K(!new), L>(h: K -> L, domain: set<K>) {
    forall k, k' :: k in domain && k' in domain && h(k) == h(k') ==> k == k'
  }

  lemma {:induction false} ImageSize<K(!new), L>(h: K -> L, domain: set<K>, image: set<L>)
    requires InjectiveOn(h, domain) && image == set k | k in domain :: h(k)
    ensures |image| == |domain|
    decreases |domain|
  {
    if domain != {} {
      var k :| k in domain;
      var rest := domain - {k};
      assert image - {h(k)} == set x | x in rest :: h(x);
      ImageSize(h, rest, image - {h(k)});
    }
  }

  /** `b` is `a` with every key hashed. */
  ghost predicate Hashed<K(!new), L(!new)>(h: K -> L, domain: set<K>, a: Entries<K>, b: Entries<L>) {
    && a.Keys <= domain && b.Keys == (set k | k in a.Keys :: h(k))
    && forall k :: k in a ==> h(k) in b && b[h(k)] == a[k]
  }

  lemma HashedRetain<K(!new), L(!new)>(p: Policy, h: K -> L, domain: set<K>, a: Entries<K>, b: Entries<L>, now: int)
    requires InjectiveOn(h, domain) && Hashed(h, domain, a, b)
    ensures Hashed(h, domain, Retain(p, a, now), Retain(p, b, now))
    ensures |Retain(p, a, now)| == |Retain(p, b, now)|
  {
    var keptA, keptB := Retain(p, a, now), Retain(p, b, now);
    forall l | l in keptB.Keys ensures l in set k | k in keptA.Keys :: h(k) {
      var k :| k in a.Keys && h(k) == l;
      assert k in keptA.Keys;
    }
    assert keptB.Keys == set k | k in keptA.Keys :: h(k);
    ImageSize(h, keptA.Keys, keptB.Keys);
    assert |keptA| == |keptA.Keys| && |keptB| == |keptB.Keys|;
  }

  lemma HashedPut<K(!new), L(!new)>(h: K -> L, domain: set<K>, a: Entries<K>, b: Entries<L>, key: K, e: WindowEntry)
    requires InjectiveOn(h, domain) && Hashed(h, domain, a, b) && key in domain
    ensures key in a <==> h(key) in b
    ensures Hashed(h, domain, a[key := e], b[h(key) := e])
  {
    if h(key) in b {
      var k :| k in a.Keys && h(k) == h(key);
    }
  }

  lemma HashedStep<K(!new), L(!new)>(p: Policy, maxKeys: nat, h: K -> L, domain: set<K>, a: Entries<K>, b: Entries<L>,
                                    now: int, key: K)
    requires p.Valid() && InjectiveOn(h, domain) && Hashed(h, domain, a, b) && key in domain
    requires Counted(p, a) && Counted(p, b)
    ensures Check(p, maxKeys, a, now, key).answer == Check(p, maxKeys, b, now, h(key)).answer
    ensures Hashed(h, domain, Check(p, maxKeys, a, now, key).entries, Check(p, maxKeys, b, now, h(key)).entries)
  {
    HashedRetain(p, h, domain, a, b, now);
    var keptA, keptB := Retain(p, a, now), Retain(p, b, now);
    hide Retain, Hashed, InjectiveOn, RetryAfter, Counted;
    HashedPut(h, domain, keptA, keptB, key, WindowEntry(now, 1));
    if key in keptA {
      HashedEntry(h, domain, keptA, keptB, key);
      var next := keptA[key].(attempts := keptA[key].attempts + 1);
      HashedPut(h, domain, keptA, keptB, key, next);
    }
  }

  lemma HashedEntry<K(!new), L(!new)>(h: K -> L, domain: set<K>, a: Entries<K>, b: Entries<L>, key: K)
    requires Hashed(h, domain, a, b) && key in a
    ensures h(key) in b && b[h(key)] == a[key]
  {
    assert key in a.Keys;
  }

  /** A limiter that only sees hashes answers as one that sees the keys, as long as no two keys in use collide. */
  lemma {:induction false} HashingIsInvisible<K(!new), L(!new)>(p: Policy, maxKeys: nat, h: K -> L, domain: set<K>,
                                                             a: Entries<K>, b: Entries<L>,
                                                             events: seq<Event<K>>, hashed: seq<Event<L>>)
    requires p.Valid() && InjectiveOn(h, domain) && Hashed(h, domain, a, b) && Counted(p, a) && Counted(p, b)
    requires |hashed| == |events|
    requires forall i :: 0 <= i < |events| ==>
                           events[i].key in domain && hashed[i] == Event(h(events[i].key), events[i].at)
    ensures Run(p, maxKeys, a, events) == Run(p, maxKeys, b, hashed)
    decreases |events|
  {
    if events != [] {
      var e, f := events[0], hashed[0];
      HashedStep(p, maxKeys, h, domain, a, b, e.at, e.key);
      HashingIsInvisible(p, maxKeys, h, domain, Check(p, maxKeys, a, e.at, e.key).entries,
                         Check(p, maxKeys, b, f.at, f.key).entries, events[1..], hashed[1..]);
    }
  }
}
