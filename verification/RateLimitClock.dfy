/** Runs of the fixed-window limiter under any clock, also one that goes back. */
module RateLimitClock {
  import opened Common
  import opened RateLimit
  import opened RateLimitRuns

  predicate IsLimited(answer: Answer) {
    answer.Success? && answer.value.Limited?
  }

  /** Wait until the window opened at `start` is over; read before it opened, the clock leaves all of it. */
  function WaitFor(p: Policy, start: int, now: int): Answer
    requires p.Valid() && now < start + p.window
  {
    Success(Limited(if now < start then p.window else start + p.window - now))
  }

  /** The answer of a check that opens a window, and of no other. */
  predicate Opens(p: Policy, answer: Answer)
    requires p.Valid()
  {
    answer == Success(Allowed(p.maxAttempts - 1))
  }

  /** The allowed checks of `key` among the first `j`. */
  function AllowedBefore<K(==)>(events: seq<Event<K>>, answers: seq<Answer>, key: K, j: nat): nat
    requires |events| == |answers| && j <= |events|
  {
    if j == 0 then 0
    else
      (if events[0].key == key && IsAllowed(answers[0]) then 1 else 0)
      + AllowedBefore(events[1..], answers[1..], key, j - 1)
  }

  /** The allowed checks of `key` from check `i` up to, but not including, check `j`. */
  function AllowedBetween<K(==)>(events: seq<Event<K>>, answers: seq<Answer>, key: K, i: nat, j: nat): nat
    requires |events| == |answers| && i <= j <= |events|
  {
    AllowedBefore(events[i..], answers[i..], key, j - i)
  }

  /** No check of `key` with `i < m < j` opens a window. */
  ghost predicate NoReopening<K>(p: Policy, events: seq<Event<K>>, answers: seq<Answer>, key: K, i: int, j: nat)
    requires p.Valid() && |events| == |answers| && j <= |events| && -1 <= i
  {
    forall m :: i < m < j && events[m].key == key ==> !Opens(p, answers[m])
  }

  /** Every check with `i < m <= j`, of any key, is made before `closes`. */
  ghost predicate AllBefore<K>(events: seq<Event<K>>, i: int, j: nat, closes: int)
    requires j < |events| && -1 <= i
  {
    forall m :: i < m <= j ==> events[m].at < closes
  }

  // ---------------------------------------------------------------------
  // The first check of a run, and the rest of it

  lemma FirstOnly<K>(events: seq<Event<K>>, answers: seq<Answer>, key: K, closes: int)
    requires |events| == |answers| > 0
    ensures AllowedBefore(events, answers, key, 0) == 0
    ensures AllBefore(events, -1, 0, closes) <==> events[0].at < closes
  {
  }

  lemma Tails<K>(p: Policy, events: seq<Event<K>>, answers: seq<Answer>, key: K, i: int, j: nat)
    requires p.Valid() && |events| == |answers| && -1 <= i < j <= |events| && 0 < j
    requires NoReopening(p, events, answers, key, i, j)
    ensures NoReopening(p, events[1..], answers[1..], key, if i < 0 then -1 else i - 1, j - 1)
    ensures i < 0 && events[0].key == key ==> !Opens(p, answers[0])
    ensures AllowedBefore(events, answers, key, j)
            == (if events[0].key == key && IsAllowed(answers[0]) then 1 else 0)
               + AllowedBefore(events[1..], answers[1..], key, j - 1)
  {
    hide Opens, IsAllowed;
    var from := if i < 0 then -1 else i - 1;
    forall m | from < m < j - 1 && events[1..][m].key == key ensures !Opens(p, answers[1..][m]) {
      assert events[m + 1] == events[1..][m] && answers[m + 1] == answers[1..][m];
    }
  }

  lemma OpensIsAllowed(p: Policy, answer: Answer)
    requires p.Valid() && Opens(p, answer)
    ensures IsAllowed(answer)
  {
  }

  lemma BetweenFromFirst<K>(events: seq<Event<K>>, answers: seq<Answer>, key: K, j: nat)
    requires |events| == |answers| && j <= |events|
    ensures AllowedBetween(events, answers, key, 0, j) == AllowedBefore(events, answers, key, j)
  {
    assert events[0..] == events && answers[0..] == answers;
  }

  lemma BetweenShifts<K>(events: seq<Event<K>>, answers: seq<Answer>, key: K, i: nat, j: nat)
    requires |events| == |answers| && 0 < i <= j <= |events|
    ensures AllowedBetween(events, answers, key, i, j)
            == AllowedBetween(events[1..], answers[1..], key, i - 1, j - 1)
  {
    assert events[1..][i - 1..] == events[i..] && answers[1..][i - 1..] == answers[i..];
  }

  // ---------------------------------------------------------------------
  // The limiter

  /** What the limiter holds of a window that opened at `opened` and has `count` attempts: all of it, or nothing. */
  predicate Holds<K>(entries: Entries<K>, key: K, start: int, count: nat, kept: bool) {
    if kept then key in entries && entries[key] == WindowEntry(start, count) else key !in entries
  }

  /** One check that does not reopen the window: it may count, or drop the window, or leave it. */
  lemma HoldsStep<K(!new)>(p: Policy, maxKeys: nat, entries: Entries<K>, e: Event<K>, key: K,
                           start: int, count: nat, kept: bool)
    requires p.Valid() && Counted(p, entries) && Holds(entries, key, start, count, kept)
    requires e.key == key ==> !Opens(p, Check(p, maxKeys, entries, e.at, e.key).answer)
    ensures var o := Check(p, maxKeys, entries, e.at, e.key);
            var stays := kept && e.at < start + p.window;
            var counts := e.key == key && IsAllowed(o.answer);
            && Holds(o.entries, key, start, if counts then count + 1 else count, stays)
            && (counts ==> stays)
  {
  }

  lemma HoldsAnswer<K(!new)>(p: Policy, maxKeys: nat, entries: Entries<K>, e: Event<K>,
                             start: int, count: nat, kept: bool)
    requires p.Valid() && Counted(p, entries) && Holds(entries, e.key, start, count, kept)
    ensures IsLimited(Check(p, maxKeys, entries, e.at, e.key).answer)
            <==> kept && count == p.maxAttempts && e.at < start + p.window
    ensures kept && count == p.maxAttempts && e.at < start + p.window ==>
              Check(p, maxKeys, entries, e.at, e.key).answer == WaitFor(p, start, e.at)
  {
  }

  /** From a held or dropped window on, check `j` is limited exactly if the window is full and was never dropped. */
  lemma {:induction false} LimitedFrom<K(!new)>(p: Policy, maxKeys: nat, entries: Entries<K>, events: seq<Event<K>>,
                                                key: K, start: int, count: nat, kept: bool, j: nat)
    requires p.Valid() && Counted(p, entries) && Holds(entries, key, start, count, kept)
    requires j < |events| && events[j].key == key
    requires NoReopening(p, events, Run(p, maxKeys, entries, events), key, -1, j)
    ensures var answers := Run(p, maxKeys, entries, events);
            IsLimited(answers[j])
            <==> kept && count + AllowedBefore(events, answers, key, j) == p.maxAttempts
                 && AllBefore(events, -1, j, start + p.window)
    ensures var answers := Run(p, maxKeys, entries, events);
            IsLimited(answers[j]) ==>
              events[j].at < start + p.window && answers[j] == WaitFor(p, start, events[j].at)
    decreases j
  {
    hide *;
    var e, rest := events[0], events[1..];
    var o := Check(p, maxKeys, entries, e.at, e.key);
    var answers := Run(p, maxKeys, entries, events);
    var closes := start + p.window;
    RunUnfolds(p, maxKeys, entries, events);
    if j == 0 {
      HoldsAnswer(p, maxKeys, entries, e, start, count, kept);
      FirstOnly(events, answers, key, closes);
    } else {
      Tails(p, events, answers, key, -1, j);
      AllBeforeSplits(events, j, closes);
      HoldsStep(p, maxKeys, entries, e, key, start, count, kept);
      LimitedFrom(p, maxKeys, o.entries, rest, key, start,
                  if e.key == key && IsAllowed(o.answer) then count + 1 else count,
                  kept && e.at < closes, j - 1);
    }
  }

  lemma AllBeforeSplits<K>(events: seq<Event<K>>, j: nat, closes: int)
    requires 0 < j < |events|
    ensures AllBefore(events, -1, j, closes) <==> events[0].at < closes && AllBefore(events[1..], -1, j - 1, closes)
  {
    var rest := events[1..];
    assert forall m :: 0 <= m < |rest| ==> rest[m] == events[m + 1];
    if events[0].at < closes && AllBefore(rest, -1, j - 1, closes) {
      forall m | -1 < m <= j ensures events[m].at < closes {
        assert m > 0 ==> events[m] == rest[m - 1];
      }
    }
  }

  lemma OpeningHolds<K(!new)>(p: Policy, maxKeys: nat, entries: Entries<K>, e: Event<K>)
    requires p.Valid() && Counted(p, entries) && Opens(p, Check(p, maxKeys, entries, e.at, e.key).answer)
    ensures Holds(Check(p, maxKeys, entries, e.at, e.key).entries, e.key, e.at, 1, true)
  {
  }

  lemma LimitedAfterFirst<K(!new)>(p: Policy, maxKeys: nat, entries: Entries<K>, events: seq<Event<K>>, j: nat)
    requires p.Valid() && Counted(p, entries) && 0 < j < |events| && events[0].key == events[j].key
    requires Opens(p, Run(p, maxKeys, entries, events)[0])
    requires NoReopening(p, events, Run(p, maxKeys, entries, events), events[0].key, 0, j)
    ensures var answers := Run(p, maxKeys, entries, events);
            IsLimited(answers[j])
            <==> AllowedBetween(events, answers, events[0].key, 0, j) == p.maxAttempts
                 && AllBefore(events, 0, j, events[0].at + p.window)
    ensures var answers := Run(p, maxKeys, entries, events);
            IsLimited(answers[j]) ==>
              events[j].at < events[0].at + p.window && answers[j] == WaitFor(p, events[0].at, events[j].at)
  {
    hide *;
    var e, rest := events[0], events[1..];
    var o := Check(p, maxKeys, entries, e.at, e.key);
    var answers := Run(p, maxKeys, entries, events);
    RunUnfolds(p, maxKeys, entries, events);
    OpeningHolds(p, maxKeys, entries, e);
    OpensIsAllowed(p, answers[0]);
    Tails(p, events, answers, e.key, 0, j);
    LimitedFrom(p, maxKeys, o.entries, rest, e.key, e.at, 1, true, j - 1);
    BetweenFromFirst(events, answers, e.key, j);
    AllBeforeShifts(events, 0, j, e.at + p.window);
  }

  /**
   Whatever the clock does: let check `i` open a window of its key, and let no
   check before `j` open it again. Then check `j` of that key is limited
   exactly when the allowed checks of the key in `[i, j)` number the maximum
   and no check after `i`, of any key and up to `j` itself, was made at or
   after the end of the window; and it is told to wait for what is left of it.
   */
  lemma {:induction false} LimitedExactly<K(!new)>(p: Policy, maxKeys: nat, entries: Entries<K>, events: seq<Event<K>>,
                                                   i: nat, j: nat)
    requires p.Valid() && Counted(p, entries) && i < j < |events| && events[i].key == events[j].key
    requires Opens(p, Run(p, maxKeys, entries, events)[i])
    requires NoReopening(p, events, Run(p, maxKeys, entries, events), events[i].key, i, j)
    ensures var answers := Run(p, maxKeys, entries, events);
            IsLimited(answers[j])
            <==> AllowedBetween(events, answers, events[i].key, i, j) == p.maxAttempts
                 && AllBefore(events, i, j, events[i].at + p.window)
    ensures var answers := Run(p, maxKeys, entries, events);
            IsLimited(answers[j]) ==>
              events[j].at < events[i].at + p.window && answers[j] == WaitFor(p, events[i].at, events[j].at)
    decreases i
  {
    hide *;
    if i == 0 {
      LimitedAfterFirst(p, maxKeys, entries, events, j);
    } else {
      var e, rest := events[0], events[1..];
      var o := Check(p, maxKeys, entries, e.at, e.key);
      var answers := Run(p, maxKeys, entries, events);
      RunUnfolds(p, maxKeys, entries, events);
      Tails(p, events, answers, events[i].key, i, j);
      LimitedExactly(p, maxKeys, o.entries, rest, i - 1, j - 1);
      BetweenShifts(events, answers, events[i].key, i, j);
      AllBeforeShifts(events, i, j, events[i].at + p.window);
    }
  }

  lemma AllBeforeShifts<K>(events: seq<Event<K>>, i: nat, j: nat, closes: int)
    requires i < j < |events|
    ensures AllBefore(events, i, j, closes) <==> AllBefore(events[1..], i - 1, j - 1, closes)
  {
    var rest := events[1..];
    assert forall m :: 0 <= m < |rest| ==> rest[m] == events[m + 1];
    if AllBefore(rest, i - 1, j - 1, closes) {
      forall m | i < m <= j ensures events[m].at < closes {
        assert events[m] == rest[m - 1];
      }
    }
  }

  // ---------------------------------------------------------------------
  // The limiter that never forgets

  lemma RememberUnfolds<K(!new)>(p: Policy, maxKeys: nat, history: Entries<K>, events: seq<Event<K>>)
    requires p.Valid() && Counted(p, history) && events != []
    ensures var o := Remember(p, maxKeys, history, events[0].at, events[0].key);
            && RememberRun(p, maxKeys, history, events)[0] == o.answer
            && RememberRun(p, maxKeys, history, events)[1..] == RememberRun(p, maxKeys, o.entries, events[1..])
  {
  }

  lemma RememberedStep<K(!new)>(p: Policy, maxKeys: nat, history: Entries<K>, e: Event<K>, key: K,
                                start: int, count: nat)
    requires p.Valid() && Counted(p, history) && Holds(history, key, start, count, true)
    requires e.key == key ==> !Opens(p, Remember(p, maxKeys, history, e.at, e.key).answer)
    ensures var o := Remember(p, maxKeys, history, e.at, e.key);
            Holds(o.entries, key, start, if e.key == key && IsAllowed(o.answer) then count + 1 else count, true)
  {
  }

  lemma RememberedAnswer<K(!new)>(p: Policy, maxKeys: nat, history: Entries<K>, e: Event<K>, start: int, count: nat)
    requires p.Valid() && Counted(p, history) && Holds(history, e.key, start, count, true)
    ensures IsLimited(Remember(p, maxKeys, history, e.at, e.key).answer)
            <==> count == p.maxAttempts && e.at < start + p.window
  {
  }

  lemma {:induction false} RememberedFrom<K(!new)>(p: Policy, maxKeys: nat, history: Entries<K>, events: seq<Event<K>>,
                                                   key: K, start: int, count: nat, j: nat)
    requires p.Valid() && Counted(p, history) && Holds(history, key, start, count, true)
    requires j < |events| && events[j].key == key
    requires NoReopening(p, events, RememberRun(p, maxKeys, history, events), key, -1, j)
    ensures var answers := RememberRun(p, maxKeys, history, events);
            IsLimited(answers[j])
            <==> count + AllowedBefore(events, answers, key, j) == p.maxAttempts && events[j].at < start + p.window
    decreases j
  {
    hide *;
    var e, rest := events[0], events[1..];
    var o := Remember(p, maxKeys, history, e.at, e.key);
    var answers := RememberRun(p, maxKeys, history, events);
    RememberUnfolds(p, maxKeys, history, events);
    if j == 0 {
      RememberedAnswer(p, maxKeys, history, e, start, count);
      FirstOnly(events, answers, key, start + p.window);
    } else {
      Tails(p, events, answers, key, -1, j);
      RememberedStep(p, maxKeys, history, e, key, start, count);
      RememberedFrom(p, maxKeys, o.entries, rest, key, start,
                     if e.key == key && IsAllowed(o.answer) then count + 1 else count, j - 1);
    }
  }

  lemma RememberedOpening<K(!new)>(p: Policy, maxKeys: nat, history: Entries<K>, e: Event<K>)
    requires p.Valid() && Counted(p, history) && Opens(p, Remember(p, maxKeys, history, e.at, e.key).answer)
    ensures Holds(Remember(p, maxKeys, history, e.at, e.key).entries, e.key, e.at, 1, true)
  {
  }

  /** The same for the limiter without pruning: there only the clock reading of check `j` itself matters. */
  lemma {:induction false} RememberedExactly<K(!new)>(p: Policy, maxKeys: nat, history: Entries<K>,
                                                      events: seq<Event<K>>, i: nat, j: nat)
    requires p.Valid() && Counted(p, history) && i < j < |events| && events[i].key == events[j].key
    requires Opens(p, RememberRun(p, maxKeys, history, events)[i])
    requires NoReopening(p, events, RememberRun(p, maxKeys, history, events), events[i].key, i, j)
    ensures var answers := RememberRun(p, maxKeys, history, events);
            IsLimited(answers[j])
            <==> AllowedBetween(events, answers, events[i].key, i, j) == p.maxAttempts
                 && events[j].at < events[i].at + p.window
    decreases i
  {
    hide *;
    if i == 0 {
      RememberedAfterFirst(p, maxKeys, history, events, j);
    } else {
      var e, rest := events[0], events[1..];
      var o := Remember(p, maxKeys, history, e.at, e.key);
      var answers := RememberRun(p, maxKeys, history, events);
      RememberUnfolds(p, maxKeys, history, events);
      Tails(p, events, answers, events[i].key, i, j);
      RememberedExactly(p, maxKeys, o.entries, rest, i - 1, j - 1);
      BetweenShifts(events, answers, events[i].key, i, j);
    }
  }

  lemma RememberedAfterFirst<K(!new)>(p: Policy, maxKeys: nat, history: Entries<K>, events: seq<Event<K>>, j: nat)
    requires p.Valid() && Counted(p, history) && 0 < j < |events| && events[0].key == events[j].key
    requires Opens(p, RememberRun(p, maxKeys, history, events)[0])
    requires NoReopening(p, events, RememberRun(p, maxKeys, history, events), events[0].key, 0, j)
    ensures var answers := RememberRun(p, maxKeys, history, events);
            IsLimited(answers[j])
            <==> AllowedBetween(events, answers, events[0].key, 0, j) == p.maxAttempts
                 && events[j].at < events[0].at + p.window
  {
    hide *;
    var e, rest := events[0], events[1..];
    var o := Remember(p, maxKeys, history, e.at, e.key);
    var answers := RememberRun(p, maxKeys, history, events);
    RememberUnfolds(p, maxKeys, history, events);
    RememberedOpening(p, maxKeys, history, e);
    OpensIsAllowed(p, answers[0]);
    Tails(p, events, answers, e.key, 0, j);
    RememberedFrom(p, maxKeys, o.entries, rest, e.key, e.at, 1, j - 1);
    BetweenFromFirst(events, answers, e.key, j);
  }

  // ---------------------------------------------------------------------
  // The failure this explains

  const BACKWARDS: seq<Event<int>> := [Event(0, 0), Event(1, 10), Event(0, 5)]

  lemma PrunedBackwards()
    ensures |Run(Policy(1, 10), 2, map[], BACKWARDS)| == 3
    ensures Run(Policy(1, 10), 2, map[], BACKWARDS)[2] == Success(Allowed(0))
  {
    var p := Policy(1, 10);
    var e0: Entries<int> := map[];
    assert Retain(p, e0, 0) == map[];
    var o1 := Check(p, 2, e0, 0, 0);
    assert Retain(p, o1.entries, 10) == map[];
    var o2 := Check(p, 2, o1.entries, 10, 1);
    assert o2.entries == map[1 := WindowEntry(10, 1)];
    assert Retain(p, o2.entries, 5) == o2.entries;
    var o3 := Check(p, 2, o2.entries, 5, 0);
    assert o3.answer == Success(Allowed(0));
    hide Check, Run;
    var rest := [Event(1, 10), Event(0, 5)];
    assert BACKWARDS[1..] == rest && rest[1..] == [Event(0, 5)];
    RunUnfolds(p, 2, e0, BACKWARDS);
    RunUnfolds(p, 2, o1.entries, rest);
    RunUnfolds(p, 2, o2.entries, [Event(0, 5)]);
  }

  lemma RememberedBackwards()
    ensures |RememberRun(Policy(1, 10), 2, map[], BACKWARDS)| == 3
    ensures RememberRun(Policy(1, 10), 2, map[], BACKWARDS)[2] == Success(Limited(5))
  {
    var p := Policy(1, 10);
    var e0: Entries<int> := map[];
    var rest := [Event(1, 10), Event(0, 5)];
    assert BACKWARDS[1..] == rest && rest[1..] == [Event(0, 5)];
    assert LiveKeys(p, e0, 0) == {};
    var r1 := Remember(p, 2, e0, 0, 0);
    assert LiveKeys(p, r1.entries, 10) == {};
    var r2 := Remember(p, 2, r1.entries, 10, 1);
    var r3 := Remember(p, 2, r2.entries, 5, 0);
    assert RememberRun(p, 2, e0, BACKWARDS)[2] == RememberRun(p, 2, r1.entries, rest)[1]
        == RememberRun(p, 2, r2.entries, [Event(0, 5)])[0] == r3.answer;
  }

  /** When the clock does go back, pruning has already forgotten the exhausted window. */
  lemma PruningShowsWhenTheClockGoesBack()
    ensures var pruned := Run(Policy(1, 10), 2, map[], BACKWARDS);
            var remembered := RememberRun(Policy(1, 10), 2, map[], BACKWARDS);
            |pruned| == 3 == |remembered| && pruned[2] == Success(Allowed(0)) && remembered[2] == Success(Limited(5))
  {
    PrunedBackwards();
    RememberedBackwards();
  }
}
