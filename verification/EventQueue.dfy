/** The bounded queue of events emitted while no listener is attached. */
module EventQueue {
  import opened Common

  const MAX_PENDING_EVENTS: nat := 32

  datatype Event = StateEvent(masked: string) | ResultEvent(code: string)

  function FirstState(q: seq<Event>): (r: Option<nat>)
    ensures r.Some? ==> r.value < |q| && q[r.value].StateEvent? && forall i :: 0 <= i < r.value ==> q[i].ResultEvent?
    ensures r.None? ==> forall i :: 0 <= i < |q| ==> q[i].ResultEvent?
  {
    if q == [] then None
    else if q[0].StateEvent? then Some(0)
    else
      match FirstState(q[1..])
      case Some(i) => Some(i + 1)
      case None => None
  }

  function Without(q: seq<Event>, i: nat): seq<Event>
    requires i < |q|
  {
    q[..i] + q[i + 1..]
  }

  /** A state event replaces a state event that is still the last one waiting. */
  function Coalesced(q: seq<Event>, e: Event): seq<Event> {
    if e.StateEvent? && q != [] && q[|q| - 1].StateEvent? then q[..|q| - 1] else q
  }

  /** Makes room, at the cost of a state event where there is one. */
  function Evicted(q: seq<Event>): seq<Event> {
    if |q| < MAX_PENDING_EVENTS then q
    else
      match FirstState(q)
      case Some(i) => Without(q, i)
      case None => q[1..]
  }

  /** No room, and no state event to drop. */
  predicate FullOfResults(q: seq<Event>) {
    |q| >= MAX_PENDING_EVENTS && forall i :: 0 <= i < |q| ==> q[i].ResultEvent?
  }

  function Push(q: seq<Event>, e: Event): seq<Event> {
    Evicted(Coalesced(q, e)) + [e]
  }

  /** What waits after `events` were emitted, in order, with no listener attached. */
  function Pending(events: seq<Event>): seq<Event> {
    if events == [] then [] else Push(Pending(events[..|events| - 1]), events[|events| - 1])
  }

  function Results(events: seq<Event>): seq<Event> {
    if events == [] then []
    else Results(events[..|events| - 1]) + if events[|events| - 1].ResultEvent? then [events[|events| - 1]] else []
  }

  predicate Bounded(q: seq<Event>) {
    && |q| <= MAX_PENDING_EVENTS
    && forall i :: 0 <= i < |q| - 1 ==> !(q[i].StateEvent? && q[i + 1].StateEvent?)
  }

  /** `a` can be had from `b` by leaving events out. */
  predicate Subsequence(a: seq<Event>, b: seq<Event>) {
    a == [] || (b != [] && (Subsequence(a, b[..|b| - 1])
                            || (a[|a| - 1] == b[|b| - 1] && Subsequence(a[..|a| - 1], b[..|b| - 1]))))
  }

  // ---------------------------------------------------------------------
  // The plugin

  class Plugin {
    var listening: bool
    var pendingEvents: seq<Event>
    /** What listeners have received. */
    var delivered: seq<Event>

    constructor ()
      ensures !listening && pendingEvents == [] && delivered == []
    {
      listening := false;
      pendingEvents := [];
      delivered := [];
    }

    ghost function Now(): Stream
      reads this
    {
      Stream(listening, pendingEvents, delivered)
    }

    method Emit(event: Event)
      modifies this
      ensures Now() == Next(old(Now()), Emitted(event))
    {
      if listening {
        delivered := delivered + [event];
        return;
      }
      if event.StateEvent? && pendingEvents != [] && pendingEvents[|pendingEvents| - 1].StateEvent? {
        pendingEvents := pendingEvents[..|pendingEvents| - 1];
      }
      if |pendingEvents| >= MAX_PENDING_EVENTS {
        var stateIndex := FirstState(pendingEvents);
        if stateIndex.Some? {
          pendingEvents := pendingEvents[..stateIndex.value] + pendingEvents[stateIndex.value + 1..];
        } else {
          pendingEvents := pendingEvents[1..];
        }
      }
      pendingEvents := pendingEvents + [event];
    }

    method OnListen()
      modifies this
      ensures Now() == Next(old(Now()), Listened)
    {
      listening := true;
      while pendingEvents != []
        invariant listening && delivered + pendingEvents == old(delivered + pendingEvents)
        decreases |pendingEvents|
      {
        delivered := delivered + [pendingEvents[0]];
        pendingEvents := pendingEvents[1..];
      }
    }

    method OnCancel()
      modifies this`listening
      ensures Now() == Next(old(Now()), Cancelled)
    {
      listening := false;
    }
  }

  datatype Stream = Stream(listening: bool, pending: seq<Event>, delivered: seq<Event>)

  datatype Action = Emitted(event: Event) | Listened | Cancelled

  function Next(s: Stream, action: Action): Stream {
    match action
    case Emitted(event) =>
      if s.listening then s.(delivered := s.delivered + [event]) else s.(pending := Push(s.pending, event))
    case Listened => Stream(true, [], s.delivered + s.pending)
    case Cancelled => s.(listening := false)
  }

  function After(actions: seq<Action>): Stream {
    if actions == [] then Stream(false, [], [])
    else Next(After(actions[..|actions| - 1]), actions[|actions| - 1])
  }

  function EmittedBy(actions: seq<Action>): seq<Event> {
    if actions == [] then []
    else
      var last := actions[|actions| - 1];
      EmittedBy(actions[..|actions| - 1]) + if last.Emitted? then [last.event] else []
  }

  /** The action is an emission that meets a queue full of results. */
  predicate Loses(s: Stream, action: Action) {
    action.Emitted? && !s.listening && FullOfResults(s.pending)
  }

  function Lost(actions: seq<Action>): nat {
    if actions == [] then 0
    else
      Lost(actions[..|actions| - 1])
      + if Loses(After(actions[..|actions| - 1]), actions[|actions| - 1]) then 1 else 0
  }

  // ---------------------------------------------------------------------
  // Theorems

  lemma PushKeepsBounds(q: seq<Event>, e: Event)
    requires Bounded(q)
    ensures Bounded(Push(q, e)) && Push(q, e)[|Push(q, e)| - 1] == e
  {
    var c := Coalesced(q, e);
    assert Bounded(c) && (e.StateEvent? && c != [] ==> c[|c| - 1].ResultEvent?);
    if |c| >= MAX_PENDING_EVENTS && FirstState(c).Some? {
      var i := FirstState(c).value;
      var w := Without(c, i);
      assert forall j :: 0 <= j < |w| ==> w[j] == if j < i then c[j] else c[j + 1];
    }
  }

  lemma {:induction false} ResultsConcat(a: seq<Event>, b: seq<Event>)
    ensures Results(a + b) == Results(a) + Results(b)
    decreases |b|
  {
    if b == [] {
      assert a + b == a;
    } else {
      ResultsConcat(a, b[..|b| - 1]);
      assert (a + b)[..|a + b| - 1] == a + b[..|b| - 1];
    }
  }

  lemma {:induction false} AllResults(q: seq<Event>)
    requires forall i :: 0 <= i < |q| ==> q[i].ResultEvent?
    ensures Results(q) == q
  {
    if q != [] {
      AllResults(q[..|q| - 1]);
    }
  }

  lemma ResultsOfOne(e: Event)
    ensures Results([e]) == if e.ResultEvent? then [e] else []
  {
    assert [e][..0] == [];
  }

  lemma CoalescedKeepsResults(q: seq<Event>, e: Event)
    ensures Results(Coalesced(q, e)) == Results(q)
  {
  }

  lemma WithoutStateKeepsResults(q: seq<Event>, i: nat)
    requires i < |q| && q[i].StateEvent?
    ensures Results(Without(q, i)) == Results(q)
  {
    hide Results;
    var front, back := q[..i], q[i + 1..];
    assert q == (front + [q[i]]) + back;
    ResultsConcat(front + [q[i]], back);
    ResultsConcat(front, [q[i]]);
    ResultsOfOne(q[i]);
    assert Results(front) + [] == Results(front);
    ResultsConcat(front, back);
  }

  lemma EvictedResults(q: seq<Event>)
    ensures FullOfResults(q) ==> Results(q) == q
    ensures Results(Evicted(q)) == if FullOfResults(q) then q[1..] else Results(q)
  {
    if FullOfResults(q) {
      AllResults(q);
      AllResults(q[1..]);
      assert FirstState(q).None?;
    } else if |q| >= MAX_PENDING_EVENTS {
      assert FirstState(q).Some?;
      WithoutStateKeepsResults(q, FirstState(q).value);
    }
  }

  lemma CoalescedFull(q: seq<Event>, e: Event)
    requires Bounded(q)
    ensures FullOfResults(Coalesced(q, e)) == FullOfResults(q)
    ensures FullOfResults(q) ==> Coalesced(q, e) == q
  {
    if q != [] && q[|q| - 1].StateEvent? {
      assert !FullOfResults(q);
    }
  }

  /** A push costs one result exactly when the queue is full of results; otherwise it costs none. */
  lemma PushResults(q: seq<Event>, e: Event)
    requires Bounded(q)
    ensures FullOfResults(q) ==> Results(q) == q
    ensures Results(Push(q, e))
            == (if FullOfResults(q) then q[1..] else Results(q)) + (if e.ResultEvent? then [e] else [])
  {
    var c := Coalesced(q, e);
    EvictedResults(q);
    EvictedResults(c);
    CoalescedFull(q, e);
    CoalescedKeepsResults(q, e);
    ResultsConcat(Evicted(c), [e]);
    ResultsOfOne(e);
    hide Results, FullOfResults, Coalesced, Evicted;
  }

  /**
   With no listener attached: at most 32 events wait, no two state events are
   adjacent, the last one waiting is the last one emitted, and the waiting
   results are the most recent results emitted, at least 31 of them if there
   were as many.
   */
  lemma {:induction false} PendingWhileDetached(events: seq<Event>)
    ensures var q := Pending(events);
            && Bounded(q)
            && (events != [] ==> q != [] && q[|q| - 1] == events[|events| - 1])
    ensures RecentResults(Results(Pending(events)), Results(events))
  {
    if events == [] {
      assert Results([]) == [];
    } else {
      var before, e := events[..|events| - 1], events[|events| - 1];
      PendingWhileDetached(before);
      PushKeepsBounds(Pending(before), e);
      PushResults(Pending(before), e);
      DetachedStep(before, events, e);
      var q := Pending(before);
      var full := FullOfResults(q);
      assert full ==> |q| >= 32;
      hide Push, Pending, Results, Bounded, FullOfResults, RecentResults;
      RecentStep(Results(q), Results(before), full, if e.ResultEvent? then [e] else []);
    }
  }

  /** `waiting` is a suffix of `all`, of at least 31 events if there are as many. */
  predicate RecentResults(waiting: seq<Event>, all: seq<Event>) {
    && |waiting| <= |all| && waiting == all[|all| - |waiting|..]
    && |waiting| >= (if |all| < 31 then |all| else 31)
  }

  lemma RecentStep(waiting: seq<Event>, all: seq<Event>, full: bool, added: seq<Event>)
    requires RecentResults(waiting, all) && |added| <= 1 && (full ==> |waiting| >= 32)
    ensures RecentResults((if full then waiting[1..] else waiting) + added, all + added)
  {
    var split := |all| - |waiting|;
    var older := all[..split];
    assert all == older + waiting;
    if full {
      assert waiting == [waiting[0]] + waiting[1..];
      SuffixKept(older + [waiting[0]], waiting[1..], added);
      assert (older + [waiting[0]]) + waiting[1..] == all;
    } else {
      SuffixKept(older, waiting, added);
    }
  }

  lemma SuffixKept(older: seq<Event>, kept: seq<Event>, added: seq<Event>)
    ensures (older + kept) + added == older + (kept + added)
    ensures (older + (kept + added))[|older|..] == kept + added
  {
  }

  lemma DetachedStep(before: seq<Event>, events: seq<Event>, e: Event)
    requires events != [] && before == events[..|events| - 1] && e == events[|events| - 1]
    ensures Pending(events) == Push(Pending(before), e)
    ensures Results(events) == Results(before) + if e.ResultEvent? then [e] else []
  {
  }

  lemma {:induction false} SubsequenceOfItself(a: seq<Event>)
    ensures Subsequence(a, a)
  {
    if a != [] {
      SubsequenceOfItself(a[..|a| - 1]);
    }
  }

  lemma {:induction false} SubsequenceTrans(a: seq<Event>, b: seq<Event>, c: seq<Event>)
    requires Subsequence(a, b) && Subsequence(b, c)
    ensures Subsequence(a, c)
    decreases |c|
  {
    if a != [] {
      var shorter := c[..|c| - 1];
      if Subsequence(b, shorter) {
        SubsequenceTrans(a, b, shorter);
      } else if Subsequence(a, b[..|b| - 1]) {
        SubsequenceTrans(a, b[..|b| - 1], shorter);
      } else {
        SubsequenceTrans(a[..|a| - 1], b[..|b| - 1], shorter);
      }
    }
  }

  lemma SubsequenceAppend(a: seq<Event>, b: seq<Event>, e: Event)
    requires Subsequence(a, b)
    ensures Subsequence(a, b + [e]) && Subsequence(a + [e], b + [e])
  {
    assert (b + [e])[..|b|] == b && (a + [e])[..|a|] == a;
  }

  lemma {:induction false} WithoutIsSubsequence(q: seq<Event>, i: nat)
    requires i < |q|
    ensures Subsequence(Without(q, i), q)
    decreases |q|
  {
    if i == |q| - 1 {
      assert Without(q, i) == q[..i];
      SubsequenceOfItself(q[..i]);
      assert q == q[..i] + [q[i]];
      SubsequenceAppend(q[..i], q[..i], q[i]);
    } else {
      var n := |q| - 1;
      WithoutIsSubsequence(q[..n], i);
      SubsequenceAppend(Without(q[..n], i), q[..n], q[n]);
      assert Without(q, i) == Without(q[..n], i) + [q[n]] && q == q[..n] + [q[n]];
    }
  }

  lemma CoalescedIsSubsequence(q: seq<Event>, e: Event)
    ensures Subsequence(Coalesced(q, e), q)
  {
    SubsequenceOfItself(q);
    if Coalesced(q, e) != q {
      var c := q[..|q| - 1];
      SubsequenceOfItself(c);
      SubsequenceAppend(c, c, q[|q| - 1]);
      assert q == c + [q[|q| - 1]];
    }
  }

  lemma EvictedIsSubsequence(q: seq<Event>)
    ensures Subsequence(Evicted(q), q)
  {
    SubsequenceOfItself(q);
    if |q| >= MAX_PENDING_EVENTS {
      hide Subsequence;
      match FirstState(q)
      case Some(i) => WithoutIsSubsequence(q, i);
      case None =>
        WithoutIsSubsequence(q, 0);
        assert Without(q, 0) == q[1..];
    }
  }

  lemma PushIsSubsequence(q: seq<Event>, e: Event)
    ensures Subsequence(Push(q, e), q + [e])
  {
    hide Subsequence, Evicted, Coalesced;
    var c := Coalesced(q, e);
    CoalescedIsSubsequence(q, e);
    EvictedIsSubsequence(c);
    SubsequenceTrans(Evicted(c), c, q);
    SubsequenceAppend(Evicted(c), q, e);
  }

  lemma PushedSubsequence(q: seq<Event>, before: seq<Event>, e: Event)
    requires Subsequence(q, before)
    ensures Subsequence(Push(q, e), before + [e])
  {
    hide Subsequence, Push;
    PushIsSubsequence(q, e);
    SubsequenceAppend(q, before, e);
    SubsequenceTrans(Push(q, e), q + [e], before + [e]);
  }

  /** Events are left out, never reordered or made up. */
  lemma {:induction false} PendingKeepsOrder(events: seq<Event>)
    ensures Subsequence(Pending(events), events)
  {
    if events != [] {
      hide Subsequence, Push;
      var before, e := events[..|events| - 1], events[|events| - 1];
      PendingKeepsOrder(before);
      PushedSubsequence(Pending(before), before, e);
      assert events == before + [e];
    }
  }

  /**
   Over any run of emissions, listeners attaching and detaching: every result
   emitted is delivered or waiting, except one for each emission that met a
   queue of 32 results. Where there is none, results arrive complete and in
   order.
   */
  lemma {:induction false} ResultsAreAccountedFor(actions: seq<Action>)
    ensures var s := After(actions);
            && Bounded(s.pending) && (s.listening ==> s.pending == [])
            && Ledger(Results(s.delivered), Results(s.pending), Results(EmittedBy(actions)), Lost(actions))
  {
    if actions == [] {
      assert Results([]) == [];
    } else {
      var before, action := actions[..|actions| - 1], actions[|actions| - 1];
      ResultsAreAccountedFor(before);
      AccountedStep(before, actions, action);
      hide After, EmittedBy, Lost, Results;
      StreamStep(After(before), action, EmittedBy(before), Lost(before));
    }
  }

  /** Every emitted result is delivered, waiting or lost, and those not lost are in the order they were emitted. */
  predicate Ledger(delivered: seq<Event>, waiting: seq<Event>, emitted: seq<Event>, lost: nat) {
    && |delivered| + |waiting| + lost == |emitted|
    && Subsequence(delivered + waiting, emitted)
    && (lost == 0 ==> delivered + waiting == emitted)
  }

  lemma LedgerGrows(delivered: seq<Event>, waiting: seq<Event>, emitted: seq<Event>, lost: nat, added: seq<Event>)
    requires Ledger(delivered, waiting, emitted, lost) && |added| <= 1
    ensures Ledger(delivered, waiting + added, emitted + added, lost)
    ensures waiting != [] ==> Ledger(delivered, waiting[1..] + added, emitted + added, lost + 1)
    ensures waiting == [] ==> Ledger(delivered + added, [], emitted + added, lost)
    ensures Ledger(delivered + waiting, [], emitted, lost)
  {
    var all := delivered + waiting;
    hide Subsequence;
    assert all + added == delivered + (waiting + added);
    assert waiting == [] ==> all == delivered;
    assert all + [] == all && (delivered + added) + [] == delivered + added;
    StillSubsequence(all, emitted, added);
    if waiting != [] {
      var fewer := delivered + waiting[1..];
      assert Without(all, |delivered|) == fewer;
      WithoutIsSubsequence(all, |delivered|);
      SubsequenceTrans(fewer, all, emitted);
      StillSubsequence(fewer, emitted, added);
      assert fewer + added == delivered + (waiting[1..] + added);
    }
  }

  lemma StillSubsequence(a: seq<Event>, b: seq<Event>, added: seq<Event>)
    requires Subsequence(a, b) && |added| <= 1
    ensures Subsequence(a + added, b + added)
  {
    hide Subsequence;
    if added == [] {
      assert a + added == a && b + added == b;
    } else {
      assert added == [added[0]];
      SubsequenceAppend(a, b, added[0]);
    }
  }

  ghost predicate Accounted(s: Stream, emitted: seq<Event>, lost: nat) {
    && Bounded(s.pending) && (s.listening ==> s.pending == [])
    && Ledger(Results(s.delivered), Results(s.pending), Results(emitted), lost)
  }

  lemma EmitAttached(s: Stream, e: Event, emitted: seq<Event>, lost: nat)
    requires Accounted(s, emitted, lost) && s.listening
    ensures Accounted(s.(delivered := s.delivered + [e]), emitted + [e], lost)
  {
    assert Results([]) == [];
    ResultsOfOne(e);
    ResultsConcat(emitted, [e]);
    ResultsConcat(s.delivered, [e]);
    LedgerGrows(Results(s.delivered), [], Results(emitted), lost, Results([e]));
    hide Results, Bounded, Ledger;
  }

  lemma EmitDetached(s: Stream, e: Event, emitted: seq<Event>, lost: nat)
    requires Accounted(s, emitted, lost) && !s.listening
    ensures Accounted(s.(pending := Push(s.pending, e)), emitted + [e],
                      lost + if FullOfResults(s.pending) then 1 else 0)
  {
    assert FullOfResults(s.pending) ==> s.pending != [];
    hide Results, Push, Bounded, FullOfResults, Ledger;
    ResultsOfOne(e);
    ResultsConcat(emitted, [e]);
    PushKeepsBounds(s.pending, e);
    PushResults(s.pending, e);
    LedgerGrows(Results(s.delivered), Results(s.pending), Results(emitted), lost, Results([e]));
  }

  lemma Drain(s: Stream, emitted: seq<Event>, lost: nat)
    requires Accounted(s, emitted, lost)
    ensures Accounted(Stream(true, [], s.delivered + s.pending), emitted, lost)
  {
    assert Results([]) == [] && Bounded([]);
    hide Results, Bounded, Ledger;
    ResultsConcat(s.delivered, s.pending);
    LedgerGrows(Results(s.delivered), Results(s.pending), Results(emitted), lost, []);
  }

  lemma StreamStep(s: Stream, action: Action, emitted: seq<Event>, lost: nat)
    requires Accounted(s, emitted, lost)
    ensures Accounted(Next(s, action), if action.Emitted? then emitted + [action.event] else emitted,
                      lost + if Loses(s, action) then 1 else 0)
  {
    hide Results, Push, Bounded, FullOfResults, Ledger;
    match action
    case Emitted(e) =>
      if s.listening {
        EmitAttached(s, e, emitted, lost);
      } else {
        EmitDetached(s, e, emitted, lost);
      }
    case Listened => Drain(s, emitted, lost);
    case Cancelled =>
  }

  lemma AccountedStep(before: seq<Action>, actions: seq<Action>, action: Action)
    requires actions != [] && before == actions[..|actions| - 1] && action == actions[|actions| - 1]
    ensures After(actions) == Next(After(before), action)
    ensures EmittedBy(actions) == if action.Emitted? then EmittedBy(before) + [action.event] else EmittedBy(before)
    ensures Lost(actions) == Lost(before) + if Loses(After(before), action) then 1 else 0
  {
  }

  function Emissions(events: seq<Event>): seq<Action> {
    if events == [] then [] else Emissions(events[..|events| - 1]) + [Emitted(events[|events| - 1])]
  }

  /** `Pending` is what the plugin holds after emissions alone. */
  lemma {:induction false} EmissionsOnly(events: seq<Event>)
    ensures After(Emissions(events)) == Stream(false, Pending(events), [])
  {
    hide Push;
    if events != [] {
      EmissionsOnly(events[..|events| - 1]);
      var actions := Emissions(events);
      assert actions[..|actions| - 1] == Emissions(events[..|events| - 1]);
    }
  }

  // ---------------------------------------------------------------------
  // Which events wait

  /** Everything emitted, but for a state event directly followed by another one. */
  function Collapsed(events: seq<Event>): seq<Event> {
    if events == [] then []
    else if |events| >= 2 && events[0].StateEvent? && events[1].StateEvent? then Collapsed(events[1..])
    else [events[0]] + Collapsed(events[1..])
  }

  function States(events: seq<Event>): seq<Event> {
    if events == [] then []
    else (if events[0].StateEvent? then [events[0]] else []) + States(events[1..])
  }

  predicate IsSuffix(a: seq<Event>, b: seq<Event>) {
    |a| <= |b| && a == b[|b| - |a|..]
  }

  predicate EndsInState(events: seq<Event>) {
    events != [] && events[|events| - 1].StateEvent?
  }

  function Front(events: seq<Event>): seq<Event>
    requires events != []
  {
    events[..|events| - 1]
  }

  lemma {:induction false} CollapsedLast(events: seq<Event>)
    requires events != []
    ensures Collapsed(events) != []
    ensures Collapsed(events)[|Collapsed(events)| - 1] == events[|events| - 1]
  {
    if |events| >= 2 {
      CollapsedLast(events[1..]);
    }
  }

  lemma {:induction false} CollapsedAppend(events: seq<Event>, e: Event)
    ensures Collapsed(events) != [] <==> events != []
    ensures Collapsed(events + [e])
            == (if e.StateEvent? && EndsInState(events) then Front(Collapsed(events)) else Collapsed(events)) + [e]
  {
    if events != [] {
      CollapsedLast(events);
      assert (events + [e])[1..] == events[1..] + [e];
      CollapsedAppend(events[1..], e);
      if |events| == 1 {
        assert Collapsed([e]) == [e] && events[1..] == [];
      } else {
        CollapsedLast(events[1..]);
      }
    }
  }

  lemma {:induction false} StatesConcat(a: seq<Event>, b: seq<Event>)
    ensures States(a + b) == States(a) + States(b)
  {
    if a == [] {
      assert a + b == b;
    } else {
      assert (a + b)[1..] == a[1..] + b;
      StatesConcat(a[1..], b);
    }
  }

  lemma StatesOfOne(e: Event)
    ensures States([e]) == if e.StateEvent? then [e] else []
  {
    assert States([]) == [];
  }

  lemma {:induction false} StatesOfResults(q: seq<Event>)
    requires forall i :: 0 <= i < |q| ==> q[i].ResultEvent?
    ensures States(q) == []
  {
    if q != [] {
      StatesOfResults(q[1..]);
    }
  }

  lemma WithoutFirstState(q: seq<Event>, i: nat)
    requires i < |q| && q[i].StateEvent? && forall j :: 0 <= j < i ==> q[j].ResultEvent?
    ensures States(q) == [q[i]] + States(Without(q, i))
  {
    hide States;
    var front, back := q[..i], q[i + 1..];
    StatesOfResults(front);
    StatesConcat(front, back);
    StatesConcat(front, [q[i]] + back);
    StatesConcat([q[i]], back);
    StatesOfOne(q[i]);
    assert q == front + ([q[i]] + back);
  }

  /** Making room costs the oldest state event, if there is one, and no other state event. */
  lemma EvictedStates(q: seq<Event>)
    ensures IsSuffix(States(Evicted(q)), States(q))
  {
    if |q| >= MAX_PENDING_EVENTS {
      match FirstState(q)
      case Some(i) =>
        WithoutFirstState(q, i);
        hide States;
      case None =>
        StatesOfResults(q);
        StatesOfResults(q[1..]);
    }
  }

  lemma FrontStates(q: seq<Event>)
    requires EndsInState(q)
    ensures States(q) != [] && States(Front(q)) == Front(States(q))
  {
    var last := q[|q| - 1];
    assert q == Front(q) + [last];
    StatesConcat(Front(q), [last]);
    StatesOfOne(last);
  }

  lemma SuffixOf(a: seq<Event>, b: seq<Event>, c: seq<Event>)
    requires IsSuffix(a, b)
    ensures IsSuffix(a + c, b + c)
    ensures a != [] ==> IsSuffix(Front(a), Front(b))
    ensures IsSuffix(b, c) ==> IsSuffix(a, c)
  {
  }

  /** What waits, `q`, against all that was emitted but for overwritten states, `c`. */
  predicate Follows(q: seq<Event>, c: seq<Event>) {
    && |q| == (if |c| < MAX_PENDING_EVENTS then |c| else MAX_PENDING_EVENTS)
    && (|c| <= MAX_PENDING_EVENTS ==> q == c)
    && (c != [] ==> q[|q| - 1] == c[|c| - 1])
    && IsSuffix(States(q), States(c))
  }

  lemma FollowsFront(q: seq<Event>, c: seq<Event>)
    requires Follows(q, c) && EndsInState(c)
    ensures EndsInState(q) && |Front(q)| < MAX_PENDING_EVENTS
    ensures |Front(c)| < MAX_PENDING_EVENTS ==> Front(q) == Front(c)
    ensures IsSuffix(States(Front(q)), States(Front(c)))
  {
    FrontStates(q);
    FrontStates(c);
    hide States;
    SuffixOf(States(q), States(c), []);
  }

  lemma FollowsPush(q: seq<Event>, events: seq<Event>, e: Event)
    requires Follows(q, Collapsed(events))
    ensures Follows(Push(q, e), Collapsed(events + [e]))
  {
    var c := Collapsed(events);
    CollapsedAppend(events, e);
    if events != [] {
      CollapsedLast(events);
    }
    hide States, Collapsed, Evicted;
    if e.StateEvent? && EndsInState(events) {
      FollowsFront(q, c);
      Appended(Front(q), Front(c), e);
    } else {
      Appended(q, c, e);
    }
  }

  lemma EvictedSize(q: seq<Event>)
    ensures |q| < MAX_PENDING_EVENTS ==> Evicted(q) == q
    ensures |q| >= MAX_PENDING_EVENTS ==> |Evicted(q)| == |q| - 1
  {
  }

  /** Making room and appending, on what is left after coalescing. */
  lemma Appended(q: seq<Event>, c: seq<Event>, e: Event)
    requires |q| <= MAX_PENDING_EVENTS && (|c| < MAX_PENDING_EVENTS ==> q == c)
    requires |c| >= MAX_PENDING_EVENTS ==> |q| >= MAX_PENDING_EVENTS - 1
    requires IsSuffix(States(q), States(c))
    ensures Follows(Evicted(q) + [e], c + [e])
  {
    EvictedStates(q);
    StatesConcat(Evicted(q), [e]);
    StatesConcat(c, [e]);
    EvictedSize(q);
    hide States, Evicted, IsSuffix;
    SuffixOf(States(Evicted(q)), States(q), States(c));
    SuffixOf(States(Evicted(q)), States(c), States([e]));
  }

  /**
   What waits with no listener attached: a state event directly followed by
   another is replaced by it; of what is left, everything waits while there is
   room for 32, then always 32 events do, and the states among them are the most
   recent ones.
   */
  lemma {:induction false} WaitingExactly(events: seq<Event>)
    ensures var q, c := Pending(events), Collapsed(events);
            && |q| == (if |c| < 32 then |c| else 32)
            && (|c| <= 32 ==> q == c)
            && IsSuffix(States(q), States(c))
    ensures Follows(Pending(events), Collapsed(events))
  {
    if events != [] {
      hide Push, Collapsed, States, Pending, IsSuffix;
      var before, e := Front(events), events[|events| - 1];
      WaitingExactly(before);
      DetachedStep(before, events, e);
      FollowsPush(Pending(before), before, e);
      assert events == before + [e];
    } else {
      assert Collapsed(events) == [];
    }
  }

  lemma AfterOneMore(actions: seq<Action>, events: seq<Event>)
    requires events != []
    ensures After(actions + Emissions(events))
            == Next(After(actions + Emissions(Front(events))), Emitted(events[|events| - 1]))
  {
    hide Push;
    var more := actions + Emissions(events);
    assert more[..|more| - 1] == actions + Emissions(Front(events));
  }

  /** An attached listener gets every event at once. */
  lemma {:induction false} AttachedDelivers(actions: seq<Action>, events: seq<Event>)
    requires After(actions).listening && After(actions).pending == []
    ensures After(actions + Emissions(events)) == Stream(true, [], After(actions).delivered + events)
    decreases |events|
  {
    hide After, Push, Pending;
    if events == [] {
      assert actions + Emissions(events) == actions;
      assert After(actions).delivered + [] == After(actions).delivered;
    } else {
      var e := events[|events| - 1];
      AttachedDelivers(actions, Front(events));
      AfterOneMore(actions, events);
      assert After(actions).delivered + events == (After(actions).delivered + Front(events)) + [e];
    }
  }

  /** After a listener is gone, events wait; the next listener gets first what waits, then what is emitted. */
  lemma {:induction false} DetachedWaits(actions: seq<Action>, events: seq<Event>)
    requires !After(actions).listening && After(actions).pending == []
    ensures After(actions + Emissions(events)) == Stream(false, Pending(events), After(actions).delivered)
    decreases |events|
  {
    hide After, Push;
    if events == [] {
      assert actions + Emissions(events) == actions;
    } else {
      DetachedWaits(actions, Front(events));
      AfterOneMore(actions, events);
    }
  }

  /**
   One round: a listener gets `attached` and leaves, `waiting` is emitted, and a
   listener comes again. It has then received all that was attached for, in
   order, followed by what waits after `waiting`.
   */
  lemma ListenersInTurn(actions: seq<Action>, attached: seq<Event>, waiting: seq<Event>)
    requires After(actions).listening && After(actions).pending == []
    ensures var gone := actions + Emissions(attached) + [Cancelled];
            After(gone + Emissions(waiting) + [Listened])
            == Stream(true, [], After(actions).delivered + attached + Pending(waiting))
  {
    var during := actions + Emissions(attached);
    var gone := during + [Cancelled];
    var later := gone + Emissions(waiting);
    AttachedDelivers(actions, attached);
    assert gone[..|gone| - 1] == during;
    hide Emissions;
    DetachedWaits(gone, waiting);
    assert (later + [Listened])[..|later|] == later;
  }
}
