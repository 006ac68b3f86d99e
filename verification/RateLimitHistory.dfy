/** The fixed-window limiter seen from outside: every answer of a run follows from the checks and answers before it. */
module RateLimitHistory {
  import opened Common
  import opened RateLimit
  import opened RateLimitRuns

  // ---------------------------------------------------------------------
  // The entries after part of a run

  function EntriesAt<K(!new)>(p: Policy, maxKeys: nat, start: Entries<K>, events: seq<Event<K>>, n: nat)
    : (entries: Entries<K>)
    requires p.Valid() && Counted(p, start) && n <= |events|
    ensures Counted(p, entries)
  {
    if n == 0 then start
    else Check(p, maxKeys, EntriesAt(p, maxKeys, start, events, n - 1), events[n - 1].at, events[n - 1].key).entries
  }

  lemma {:induction false} EntriesShift<K(!new)>(p: Policy, maxKeys: nat, start: Entries<K>, events: seq<Event<K>>,
                                                 n: nat)
    requires p.Valid() && Counted(p, start) && 0 < n <= |events|
    ensures EntriesAt(p, maxKeys, start, events, n)
            == EntriesAt(p, maxKeys, Check(p, maxKeys, start, events[0].at, events[0].key).entries, events[1..], n - 1)
    decreases n
  {
    hide Check;
    if n == 1 {
      assert EntriesAt(p, maxKeys, start, events, 0) == start;
    } else {
      EntriesShift(p, maxKeys, start, events, n - 1);
      assert events[1..][n - 2] == events[n - 1];
    }
  }

  /** The answers of a run are those of its checks, one after the other. */
  lemma {:induction false} RunAt<K(!new)>(p: Policy, maxKeys: nat, start: Entries<K>, events: seq<Event<K>>, n: nat)
    requires p.Valid() && Counted(p, start) && n < |events|
    ensures Run(p, maxKeys, start, events)[n]
            == Check(p, maxKeys, EntriesAt(p, maxKeys, start, events, n), events[n].at, events[n].key).answer
    decreases n
  {
    RunUnfolds(p, maxKeys, start, events);
    hide Check, Run;
    if n > 0 {
      EntriesShift(p, maxKeys, start, events, n);
      RunAt(p, maxKeys, Check(p, maxKeys, start, events[0].at, events[0].key).entries, events[1..], n - 1);
    }
  }

  // ---------------------------------------------------------------------
  // The history

  /** Check `i` opened a window of its key that is still open at `now`. */
  predicate OpenWindow<K>(p: Policy, events: seq<Event<K>>, answers: seq<Answer>, i: nat, j: nat, now: int)
    requires p.Valid() && |events| == |answers| && j <= |events|
  {
    i < j && answers[i] == Success(Allowed(p.maxAttempts - 1)) && now < events[i].at + p.window
  }

  /** How many checks of `key`, from check `i` to before check `j`, were allowed. */
  function AllowedSince<K(==)>(events: seq<Event<K>>, answers: seq<Answer>, key: K, i: nat, j: nat): nat
    requires |events| == |answers| && j <= |events|
  {
    if j <= i then 0
    else
      AllowedSince(events, answers, key, i, j - 1)
      + if events[j - 1].key == key && IsAllowed(answers[j - 1]) then 1 else 0
  }

  /** The keys with a window open at `now`. */
  function OpenKeys<K>(p: Policy, events: seq<Event<K>>, answers: seq<Answer>, j: nat, now: int): set<K>
    requires p.Valid() && |events| == |answers| && j <= |events|
  {
    set i | 0 <= i < j && OpenWindow(p, events, answers, i, j, now) :: events[i].key
  }

  /** A run, with its answers. */
  ghost predicate IsRun<K(!new)>(p: Policy, maxKeys: nat, events: seq<Event<K>>, answers: seq<Answer>) {
    && p.Valid() && Ordered(events) && |answers| == |events|
    && answers == Run(p, maxKeys, map[], events)
  }

  /** The entry of `key`, if it is there, says when its window opened and how many checks were allowed in it. */
  lemma CheckOpens<K(!new)>(p: Policy, maxKeys: nat, entries: Entries<K>, now: int, key: K)
    requires p.Valid() && Counted(p, entries)
    ensures var o := Check(p, maxKeys, entries, now, key);
            o.answer == Success(Allowed(p.maxAttempts - 1)) ==>
              key in o.entries && o.entries[key] == WindowEntry(now, 1)
  {
  }

  lemma CheckKeeps<K(!new)>(p: Policy, maxKeys: nat, entries: Entries<K>, now: int, key: K, k: K)
    requires p.Valid() && Counted(p, entries) && k in entries && InWindow(p, entries[k], now)
    ensures var o := Check(p, maxKeys, entries, now, key);
            && k in o.entries && o.entries[k].startedAt == entries[k].startedAt
            && o.entries[k].attempts == entries[k].attempts + if key == k && IsAllowed(o.answer) then 1 else 0
  {
  }

  lemma CheckOrigin<K(!new)>(p: Policy, maxKeys: nat, entries: Entries<K>, now: int, key: K, k: K)
    requires p.Valid() && Counted(p, entries) && k in Check(p, maxKeys, entries, now, key).entries
    ensures var o := Check(p, maxKeys, entries, now, key);
            if k in entries && InWindow(p, entries[k], now) then o.entries[k].startedAt == entries[k].startedAt
            else k == key && o.answer == Success(Allowed(p.maxAttempts - 1)) && o.entries[k].startedAt == now
  {
  }

  lemma {:induction false} OpenIsHeld<K(!new)>(p: Policy, maxKeys: nat, events: seq<Event<K>>, answers: seq<Answer>,
                                               i: nat, j: nat, now: int)
    requires IsRun(p, maxKeys, events, answers) && j <= |events| && OpenWindow(p, events, answers, i, j, now)
    requires events[j - 1].at <= now
    ensures var entries, key := EntriesAt(p, maxKeys, map[], events, j), events[i].key;
            && key in entries && entries[key].startedAt == events[i].at
            && entries[key].attempts == AllowedSince(events, answers, key, i, j)
    decreases j
  {
    hide Check, Run;
    var e, before := events[j - 1], EntriesAt(p, maxKeys, map[], events, j - 1);
    RunAt(p, maxKeys, map[], events, j - 1);
    if i == j - 1 {
      CheckOpens(p, maxKeys, before, e.at, e.key);
      assert AllowedSince(events, answers, e.key, i, i) == 0;
    } else {
      OpenIsHeld(p, maxKeys, events, answers, i, j - 1, e.at);
      CheckKeeps(p, maxKeys, before, e.at, e.key, events[i].key);
    }
  }

  lemma {:induction false} HeldIsOpen<K(!new)>(p: Policy, maxKeys: nat, events: seq<Event<K>>, answers: seq<Answer>,
                                               j: nat, now: int, key: K) returns (i: nat)
    requires IsRun(p, maxKeys, events, answers) && j <= |events| && (j > 0 ==> events[j - 1].at <= now)
    requires var entries := EntriesAt(p, maxKeys, map[], events, j);
             key in entries && InWindow(p, entries[key], now)
    ensures OpenWindow(p, events, answers, i, j, now) && events[i].key == key
    ensures events[i].at == EntriesAt(p, maxKeys, map[], events, j)[key].startedAt
    decreases j
  {
    hide Check, Run;
    if j == 0 {
      assert false;
    } else {
      var e, before := events[j - 1], EntriesAt(p, maxKeys, map[], events, j - 1);
      RunAt(p, maxKeys, map[], events, j - 1);
      CheckOrigin(p, maxKeys, before, e.at, e.key, key);
      if key in before && InWindow(p, before[key], e.at) {
        i := HeldIsOpen(p, maxKeys, events, answers, j - 1, e.at, key);
      } else {
        i := j - 1;
      }
    }
  }

  lemma OpenKeysAreRetained<K(!new)>(p: Policy, maxKeys: nat, events: seq<Event<K>>, answers: seq<Answer>,
                                     j: nat, now: int)
    requires IsRun(p, maxKeys, events, answers) && j <= |events| && (j > 0 ==> events[j - 1].at <= now)
    ensures Retain(p, EntriesAt(p, maxKeys, map[], events, j), now).Keys == OpenKeys(p, events, answers, j, now)
  {
    hide Check, Run, EntriesAt;
    var entries := EntriesAt(p, maxKeys, map[], events, j);
    var kept := Retain(p, entries, now);
    forall key | key in kept.Keys ensures key in OpenKeys(p, events, answers, j, now) {
      var i := HeldIsOpen(p, maxKeys, events, answers, j, now, key);
    }
    forall key | key in OpenKeys(p, events, answers, j, now) ensures key in kept.Keys {
      var i: nat :| i < j && OpenWindow(p, events, answers, i, j, now) && events[i].key == key;
      OpenIsHeld(p, maxKeys, events, answers, i, j, now);
    }
  }

  lemma CheckAnswer<K(!new)>(p: Policy, maxKeys: nat, entries: Entries<K>, now: int, key: K)
    requires p.Valid() && Counted(p, entries)
    ensures var answer, kept := Check(p, maxKeys, entries, now, key).answer, Retain(p, entries, now);
            if key in kept && kept[key].startedAt <= now then
              answer == Success(if kept[key].attempts == p.maxAttempts
                                then Limited(kept[key].startedAt + p.window - now)
                                else Allowed(p.maxAttempts - kept[key].attempts - 1))
            else key !in kept ==>
              answer == if |kept| >= maxKeys then Failure(CapacityReached) else Success(Allowed(p.maxAttempts - 1))
  {
  }

  lemma {:induction false} AnswerInWindow<K(!new)>(p: Policy, maxKeys: nat, events: seq<Event<K>>,
                                                   answers: seq<Answer>, i: nat, j: nat)
    requires IsRun(p, maxKeys, events, answers) && j < |events|
    requires OpenWindow(p, events, answers, i, j, events[j].at) && events[i].key == events[j].key
    ensures var count := AllowedSince(events, answers, events[j].key, i, j);
            && 1 <= count <= p.maxAttempts
            && answers[j] == Success(if count == p.maxAttempts then Limited(events[i].at + p.window - events[j].at)
                                     else Allowed(p.maxAttempts - count - 1))
  {
    hide Check, Run, EntriesAt, AllowedSince;
    RunAt(p, maxKeys, map[], events, j);
    CheckAnswer(p, maxKeys, EntriesAt(p, maxKeys, map[], events, j), events[j].at, events[j].key);
    OpenIsHeld(p, maxKeys, events, answers, i, j, events[j].at);
  }

  lemma AnswerOutside<K(!new)>(p: Policy, maxKeys: nat, events: seq<Event<K>>, answers: seq<Answer>, j: nat)
    requires IsRun(p, maxKeys, events, answers) && j < |events|
    requires events[j].key !in OpenKeys(p, events, answers, j, events[j].at)
    ensures answers[j] == if |OpenKeys(p, events, answers, j, events[j].at)| >= maxKeys
                          then Failure(CapacityReached) else Success(Allowed(p.maxAttempts - 1))
  {
    hide Check, Run, EntriesAt, OpenKeys, Retain;
    var e, entries := events[j], EntriesAt(p, maxKeys, map[], events, j);
    RunAt(p, maxKeys, map[], events, j);
    CheckAnswer(p, maxKeys, entries, e.at, e.key);
    OpenKeysAreRetained(p, maxKeys, events, answers, j, e.at);
    KeyCount(Retain(p, entries, e.at));
  }

  lemma KeyCount<K, V>(m: map<K, V>)
    ensures |m| == |m.Keys|
  {
  }

  /**
   Every answer of a run follows from the checks and answers before it. While a
   window of the key is open: limited, for what is left of the window, exactly
   when the allowed checks in it number the maximum, and else allowed with the
   rest remaining. Otherwise a window is opened, unless as many keys have one
   open as the limiter holds.
   */
  lemma AnswersExactly<K(!new)>(p: Policy, maxKeys: nat, events: seq<Event<K>>, answers: seq<Answer>, j: nat)
    requires IsRun(p, maxKeys, events, answers) && j < |events|
    ensures forall i: nat :: OpenWindow(p, events, answers, i, j, events[j].at) && events[i].key == events[j].key ==>
              var count := AllowedSince(events, answers, events[j].key, i, j);
              && 1 <= count <= p.maxAttempts
              && answers[j] == Success(if count == p.maxAttempts then Limited(events[i].at + p.window - events[j].at)
                                       else Allowed(p.maxAttempts - count - 1))
    ensures events[j].key !in OpenKeys(p, events, answers, j, events[j].at) ==>
              answers[j] == if |OpenKeys(p, events, answers, j, events[j].at)| >= maxKeys
                            then Failure(CapacityReached) else Success(Allowed(p.maxAttempts - 1))
  {
    hide Check, Run, EntriesAt, OpenKeys, AllowedSince;
    forall i: nat | OpenWindow(p, events, answers, i, j, events[j].at) && events[i].key == events[j].key
      ensures var count := AllowedSince(events, answers, events[j].key, i, j);
              && 1 <= count <= p.maxAttempts
              && answers[j] == Success(if count == p.maxAttempts then Limited(events[i].at + p.window - events[j].at)
                                       else Allowed(p.maxAttempts - count - 1))
    {
      AnswerInWindow(p, maxKeys, events, answers, i, j);
    }
    if events[j].key !in OpenKeys(p, events, answers, j, events[j].at) {
      AnswerOutside(p, maxKeys, events, answers, j);
    }
  }
}
