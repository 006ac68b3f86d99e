/**
 What every run of the passkey controller keeps. Everything the controller knows
 about one operation is collected in a `View`; a step changes the view of at
 most one operation.
 */
module PasskeyRuns {
  import opened Common
  import opened Passkey

  /** No `later` stands behind `earlier`. */
  predicate NeverBehind<T(==)>(q: seq<T>, later: T, earlier: T) {
    forall i, j :: 0 <= i < j < |q| ==> !(q[i] == earlier && q[j] == later)
  }

  datatype View = View(op: Operation, active: bool, published: seq<Presentation>,
                       start: bool, clear: bool, raceWork: bool, raceCancel: bool,
                       thenJob: bool, catchJob: bool, pass: bool,
                       afterPending: bool, afterAbort: bool, afterCancelled: bool, afterSuccess: bool, afterError: bool)

  function ViewOf(s: State, id: nat): View
    requires id < |s.ops|
  {
    View(s.ops[id], s.active == Some(id), Published(s.log, id),
         Start(id) in s.queue, Clear(id) in s.queue, RaceWork(id) in s.queue, RaceCancel(id) in s.queue,
         Then(id) in s.queue, Catch(id) in s.queue, Pass(id) in s.queue,
         AfterPending(id) in s.stack, AfterAbort(id) in s.stack, AfterCancelled(id) in s.stack,
         AfterSuccess(id) in s.stack, AfterError(id) in s.stack)
  }

  /** The terminal state an operation that was not cancelled has published at this stage. */
  function TerminalOf(op: Operation): seq<Presentation> {
    match op.stage
    case Succeeding => [Presentation.Success(op.kind)]
    case PassQueued => [Presentation.Success(op.kind)]
    case Failing(code) => [Error(op.kind, code)]
    case Done(Resolved) => [Presentation.Success(op.kind)]
    case Done(RejectedWith(code)) => [Error(op.kind, code)]
    case Unraced => []
    case Racing => []
    case ThenQueued(_) => []
    case CatchQueued(_) => []
  }

  predicate Raced(op: Operation) {
    !op.stage.Unraced? && !op.stage.Racing?
  }

  /** The stage carries the work's own result. */
  predicate FollowsWork(op: Operation) {
    op.work.Settled?
    && match op.stage
       case ThenQueued(settled) => settled == op.work.result
       case CatchQueued(reason) => op.work.result == Rejected(reason)
       case Failing(code) => op.work.result.Rejected? && code == PresentationCode(op.work.result.reason)
       case Done(RejectedWith(code)) => op.work.result.Rejected? && code == PresentationCode(op.work.result.reason)
       case Succeeding => op.work.result == Fulfilled
       case PassQueued => op.work.result == Fulfilled
       case Done(Resolved) => op.work.result == Fulfilled
       case Unraced => false
       case Racing => false
  }

  function Aborts(kind: Kind, n: nat): seq<Presentation> {
    if n == 0 then [] else if n == 1 then [Error(kind, Aborted)] else [Error(kind, Aborted), Error(kind, Aborted)]
  }

  /** `again`: the operation was cancelled a second time from an abort listener. */
  predicate Good(v: View, again: bool) {
    && (v.afterPending <==> v.op.work.NotCreated?) && (v.op.work.NotCreated? <==> v.op.stage.Unraced?)
    && (v.start <==> v.op.work.Queued?)
    && (v.active <==> !v.op.work.Settled? || v.clear)
    && (v.clear || v.raceWork ==> v.op.work.Settled?)
    && (v.op.stage.Racing? && v.op.work.Settled? ==> v.raceWork)
    && (v.thenJob <==> v.op.stage.ThenQueued?) && (v.catchJob <==> v.op.stage.CatchQueued?)
    && (v.pass <==> v.op.stage.PassQueued?)
    && (v.afterSuccess <==> v.op.stage.Succeeding?) && (v.afterError <==> v.op.stage.Failing?)
    && (v.raceCancel ==> v.op.rejected && !v.op.stage.Unraced?)
    && (v.op.stage.Racing? && v.op.rejected ==> v.raceCancel)
    && v.op.aborted == v.op.cancelled
    && (v.op.cancelled ==> GoodCancelled(v, again))
    && (!v.op.cancelled ==> GoodUncancelled(v, again))
  }

  predicate GoodUncancelled(v: View, again: bool) {
    && !v.op.rejected && !v.afterAbort && !v.afterCancelled && !again
    && v.published == [Pending(v.op.kind)] + TerminalOf(v.op)
    && (Raced(v.op) ==> !v.active && FollowsWork(v.op))
  }

  predicate GoodCancelled(v: View, again: bool) {
    && !v.op.stage.Succeeding? && !v.op.stage.Failing? && !v.op.stage.PassQueued?
    && (v.op.stage.Done? ==> v.op.stage.outcome == RejectedWith(Aborted))
    && (v.afterCancelled ==> |v.published| >= 2)
    && (!v.op.rejected ==> v.afterAbort || v.afterCancelled)
    && v.published == [Pending(v.op.kind)]
                      + Aborts(v.op.kind, (if v.afterAbort then 0 else 1) + if again then 1 else 0)
  }

  ghost predicate Ordered(s: State) {
    && Distinct(s.queue) && Distinct(s.stack)
    && (forall id: nat :: NeverBehind(s.queue, Clear(id), RaceWork(id)))
    && (forall id: nat :: NeverBehind(s.stack, AfterAbort(id), AfterCancelled(id)))
  }

  /** The state on display is the last one published; while it is pending it belongs to the active operation, if any. */
  predicate DisplayIsLast(s: State) {
    && s.shown == (if s.log == [] then Idle else s.log[|s.log| - 1].state)
    && (CancelTakesEffect(s) ==> s.log != [] && s.log[|s.log| - 1].id == s.active.value)
  }

  ghost predicate Invariant(s: State, again: set<nat>) {
    && WellFormed(s) && Ordered(s) && DisplayIsLast(s)
    && (forall id :: id in again ==> id < |s.ops|)
    && (forall id: nat :: id < |s.ops| ==> Good(ViewOf(s, id), id in again))
  }

  // ---------------------------------------------------------------------
  // What the parts of a step do to the queue, the stack and the views

  lemma PopFront<T(!new)>(q: seq<T>)
    requires Distinct(q) && q != []
    ensures Distinct(q[1..])
    ensures forall x :: x in q[1..] <==> x in q && x != q[0]
  {
  }

  lemma PopBack<T(!new)>(q: seq<T>)
    requires Distinct(q) && q != []
    ensures Distinct(q[..|q| - 1])
    ensures forall x :: x in q[..|q| - 1] <==> x in q && x != q[|q| - 1]
  {
  }

  lemma Enqueue<T(!new)>(q: seq<T>, added: seq<T>)
    requires Distinct(q) && Distinct(added) && forall x :: x in added ==> x !in q
    ensures Distinct(q + added)
    ensures forall x :: x in q + added <==> x in q || x in added
  {
    var r := q + added;
    forall i, j | 0 <= i < j < |r| ensures r[i] != r[j] {
      if j >= |q| {
        assert r[j] == added[j - |q|] && r[j] in added;
        if i >= |q| {
          assert r[i] == added[i - |q|];
        }
      }
    }
  }

  lemma PublishedAppend(log: seq<Entry>, e: Entry, id: nat)
    ensures Published(log + [e], id) == Published(log, id) + if e.id == id then [e.state] else []
  {
    assert (log + [e])[..|log|] == log;
  }

  lemma {:induction false} NothingPublished(log: seq<Entry>, id: nat)
    requires forall i :: 0 <= i < |log| ==> log[i].id < id
    ensures Published(log, id) == []
  {
    if log != [] {
      NothingPublished(log[..|log| - 1], id);
    }
  }

  /** `t` agrees with `s` on every operation but `id`. */
  ghost predicate OnlyTouches(s: State, t: State, id: nat) {
    && |s.ops| == |t.ops|
    && (forall j: nat :: j < |s.ops| && j != id ==> ViewOf(t, j) == ViewOf(s, j))
  }

  function WithJobs(v: View, id: nat, added: seq<Job>): View {
    v.(start := v.start || Start(id) in added, clear := v.clear || Clear(id) in added,
       raceWork := v.raceWork || RaceWork(id) in added, raceCancel := v.raceCancel || RaceCancel(id) in added,
       thenJob := v.thenJob || Then(id) in added, catchJob := v.catchJob || Catch(id) in added,
       pass := v.pass || Pass(id) in added)
  }

  function WithFrame(v: View, f: Frame): View {
    v.(afterPending := v.afterPending || f.AfterPending?, afterAbort := v.afterAbort || f.AfterAbort?,
       afterCancelled := v.afterCancelled || f.AfterCancelled?, afterSuccess := v.afterSuccess || f.AfterSuccess?,
       afterError := v.afterError || f.AfterError?)
  }

  function WithoutFrame(v: View, f: Frame): View {
    v.(afterPending := v.afterPending && !f.AfterPending?, afterAbort := v.afterAbort && !f.AfterAbort?,
       afterCancelled := v.afterCancelled && !f.AfterCancelled?, afterSuccess := v.afterSuccess && !f.AfterSuccess?,
       afterError := v.afterError && !f.AfterError?)
  }

  function WithoutJob(v: View, job: Job): View {
    v.(start := v.start && !job.Start?, clear := v.clear && !job.Clear?, raceWork := v.raceWork && !job.RaceWork?,
       raceCancel := v.raceCancel && !job.RaceCancel?, thenJob := v.thenJob && !job.Then?,
       catchJob := v.catchJob && !job.Catch?, pass := v.pass && !job.Pass?)
  }

  lemma SetOpViews(s: State, id: nat, op: Operation, added: seq<Job>)
    requires WellFormed(s) && Ordered(s) && id < |s.ops|
    requires forall i :: 0 <= i < |added| ==> added[i].id == id && added[i] !in s.queue
    requires Distinct(added) && NeverBehind(added, Clear(id), RaceWork(id))
    requires Clear(id) in added ==> RaceWork(id) !in s.queue
    ensures var t := SetOp(s, id, op, added);
            Ordered(t) && OnlyTouches(s, t, id) && ViewOf(t, id) == WithJobs(ViewOf(s, id).(op := op), id, added)
  {
    var t := SetOp(s, id, op, added);
    Enqueue(s.queue, added);
    forall j: nat ensures NeverBehind(t.queue, Clear(j), RaceWork(j)) {
      StillInOrder(s.queue, added, id, j);
    }
  }

  lemma StillInOrder(q: seq<Job>, added: seq<Job>, id: nat, j: nat)
    requires NeverBehind(q, Clear(j), RaceWork(j)) && NeverBehind(added, Clear(id), RaceWork(id))
    requires forall i :: 0 <= i < |added| ==> added[i].id == id
    requires Clear(id) in added ==> RaceWork(id) !in q
    ensures NeverBehind(q + added, Clear(j), RaceWork(j))
  {
    forall a, b | 0 <= a < b < |q + added|
      ensures !((q + added)[a] == RaceWork(j) && (q + added)[b] == Clear(j))
    {
      if b >= |q| {
        assert (q + added)[b] == added[b - |q|];
        if a >= |q| {
          assert (q + added)[a] == added[a - |q|];
        } else {
          assert (q + added)[a] == q[a];
        }
      }
    }
  }

  lemma PushedOnTop(stack: seq<Frame>, f: Frame, j: nat)
    requires NeverBehind(stack, AfterAbort(j), AfterCancelled(j))
    requires f.AfterAbort? ==> AfterCancelled(f.id) !in stack
    ensures NeverBehind(stack + [f], AfterAbort(j), AfterCancelled(j))
  {
    forall a, b | 0 <= a < b < |stack + [f]|
      ensures !((stack + [f])[a] == AfterCancelled(j) && (stack + [f])[b] == AfterAbort(j))
    {
      assert (stack + [f])[a] == stack[a];
    }
  }

  lemma PushOrdered(s: State, f: Frame)
    requires WellFormed(s) && Ordered(s) && f.id < |s.ops| && f !in s.stack
    requires f.AfterAbort? ==> AfterCancelled(f.id) !in s.stack
    ensures Ordered(s.(stack := s.stack + [f]))
  {
    Enqueue(s.stack, [f]);
    forall j: nat ensures NeverBehind(s.stack + [f], AfterAbort(j), AfterCancelled(j)) {
      PushedOnTop(s.stack, f, j);
    }
  }

  lemma OnTop(stack: seq<Frame>, f: Frame, x: Frame)
    ensures x in stack + [f] <==> x in stack || x == f
  {
  }

  lemma PushView(s: State, f: Frame, j: nat)
    requires j < |s.ops|
    ensures ViewOf(s.(stack := s.stack + [f]), j) == if j == f.id then WithFrame(ViewOf(s, j), f) else ViewOf(s, j)
  {
    OnTop(s.stack, f, AfterPending(j));
    OnTop(s.stack, f, AfterAbort(j));
    OnTop(s.stack, f, AfterCancelled(j));
    OnTop(s.stack, f, AfterSuccess(j));
    OnTop(s.stack, f, AfterError(j));
  }

  lemma PushViews(s: State, f: Frame)
    requires WellFormed(s) && Ordered(s) && f.id < |s.ops| && f !in s.stack
    requires f.AfterAbort? ==> AfterCancelled(f.id) !in s.stack
    ensures var t := s.(stack := s.stack + [f]);
            WellFormed(t) && Ordered(t) && OnlyTouches(s, t, f.id) && ViewOf(t, f.id) == WithFrame(ViewOf(s, f.id), f)
  {
    PushOrdered(s, f);
    hide Ordered, ViewOf, WithFrame;
    forall j: nat | j < |s.ops|
      ensures ViewOf(s.(stack := s.stack + [f]), j) == if j == f.id then WithFrame(ViewOf(s, j), f) else ViewOf(s, j)
    {
      PushView(s, f, j);
    }
  }

  lemma LogViews(s: State, id: nat, p: Presentation)
    requires WellFormed(s) && Ordered(s) && id < |s.ops|
    ensures var t := s.(shown := p, log := s.log + [Entry(id, p)]);
            && WellFormed(t) && Ordered(t) && OnlyTouches(s, t, id)
            && ViewOf(t, id) == ViewOf(s, id).(published := ViewOf(s, id).published + [p])
  {
    forall j: nat | j < |s.ops|
      ensures Published(s.log + [Entry(id, p)], j) == Published(s.log, j) + if id == j then [p] else []
    {
      PublishedAppend(s.log, Entry(id, p), j);
    }
  }

  lemma PublishViews(s: State, id: nat, p: Presentation, f: Frame)
    requires WellFormed(s) && Ordered(s) && id < |s.ops| && f.id == id && f !in s.stack && !f.AfterAbort?
    ensures var t := Publish(s, id, p, f);
            && Ordered(t) && OnlyTouches(s, t, id)
            && ViewOf(t, id) == WithFrame(ViewOf(s, id).(published := ViewOf(s, id).published + [p]), f)
            && t.shown == p && t.log[|t.log| - 1] == Entry(id, p)
  {
    var logged := s.(shown := p, log := s.log + [Entry(id, p)]);
    LogViews(s, id, p);
    PushViews(logged, f);
    assert Publish(s, id, p, f) == logged.(stack := logged.stack + [f]);
    hide ViewOf, Ordered, WellFormed;
  }

  lemma PopStackViews(s: State)
    requires WellFormed(s) && Ordered(s) && s.stack != []
    ensures var top := s.stack[|s.stack| - 1];
            var t := s.(stack := s.stack[..|s.stack| - 1]);
            && WellFormed(t) && Ordered(t) && OnlyTouches(s, t, top.id) && top !in t.stack
            && ViewOf(t, top.id) == WithoutFrame(ViewOf(s, top.id), top)
  {
    var top, rest := s.stack[|s.stack| - 1], s.stack[..|s.stack| - 1];
    PopStackOrdered(s);
    PopBack(s.stack);
    hide Ordered, Distinct, ViewOf, WithoutFrame;
    forall j: nat | j < |s.ops|
      ensures ViewOf(s.(stack := rest), j) == if j == top.id then WithoutFrame(ViewOf(s, j), top) else ViewOf(s, j)
    {
      PopFrameView(s, rest, j);
    }
  }

  lemma PopFrameView(s: State, rest: seq<Frame>, j: nat)
    requires j < |s.ops| && s.stack != [] && forall x :: x in rest <==> x in s.stack && x != s.stack[|s.stack| - 1]
    ensures var top := s.stack[|s.stack| - 1];
            ViewOf(s.(stack := rest), j) == if j == top.id then WithoutFrame(ViewOf(s, j), top) else ViewOf(s, j)
  {
  }

  lemma PopStackOrdered(s: State)
    requires WellFormed(s) && Ordered(s) && s.stack != []
    ensures Ordered(s.(stack := s.stack[..|s.stack| - 1]))
  {
    PopBack(s.stack);
  }

  lemma PopQueueViews(s: State)
    requires WellFormed(s) && Ordered(s) && s.queue != []
    ensures var t := s.(queue := s.queue[1..]);
            && WellFormed(t) && Ordered(t) && OnlyTouches(s, t, s.queue[0].id) && s.queue[0] !in t.queue
            && ViewOf(t, s.queue[0].id) == WithoutJob(ViewOf(s, s.queue[0].id), s.queue[0])
            && (s.queue[0].RaceWork? ==> Clear(s.queue[0].id) !in t.queue)
  {
    PopOrdered(s);
    PopFront(s.queue);
    var rest := s.queue[1..];
    hide Ordered, Distinct, ViewOf, WithoutJob;
    forall j: nat | j < |s.ops|
      ensures ViewOf(s.(queue := rest), j)
              == if j == s.queue[0].id then WithoutJob(ViewOf(s, j), s.queue[0]) else ViewOf(s, j)
    {
      PopView(s, rest, j);
    }
  }

  lemma PopView(s: State, rest: seq<Job>, j: nat)
    requires j < |s.ops| && s.queue != [] && forall x :: x in rest <==> x in s.queue && x != s.queue[0]
    ensures ViewOf(s.(queue := rest), j)
            == if j == s.queue[0].id then WithoutJob(ViewOf(s, j), s.queue[0]) else ViewOf(s, j)
  {
  }

  lemma PopOrdered(s: State)
    requires WellFormed(s) && Ordered(s) && s.queue != []
    ensures Ordered(s.(queue := s.queue[1..]))
    ensures s.queue[0].RaceWork? ==> Clear(s.queue[0].id) !in s.queue[1..]
  {
    PopFront(s.queue);
  }

  /** A step that leaves one operation in a good view, and the others alone, keeps the invariant. */
  lemma OneGoodView(s: State, again: set<nat>, t: State, againAfter: set<nat>, id: nat)
    requires Invariant(s, again) && WellFormed(t) && Ordered(t) && DisplayIsLast(t)
    requires id < |s.ops| && OnlyTouches(s, t, id)
    requires againAfter == again || againAfter == again + {id}
    requires Good(ViewOf(t, id), id in againAfter)
    ensures Invariant(t, againAfter)
  {
    hide ViewOf, Good, Ordered, DisplayIsLast, WellFormed;
  }

  function WithJob(v: View, job: Job): View {
    v.(start := v.start || job.Start?, clear := v.clear || job.Clear?, raceWork := v.raceWork || job.RaceWork?,
       raceCancel := v.raceCancel || job.RaceCancel?, thenJob := v.thenJob || job.Then?,
       catchJob := v.catchJob || job.Catch?, pass := v.pass || job.Pass?)
  }

  ghost predicate Updated(s: State, t: State, id: nat, v: View) {
    id < |s.ops| && WellFormed(t) && Ordered(t) && OnlyTouches(s, t, id) && ViewOf(t, id) == v
  }

  lemma QueueNone(s: State, id: nat, op: Operation)
    requires WellFormed(s) && Ordered(s) && id < |s.ops|
    ensures Updated(s, SetOp(s, id, op, []), id, ViewOf(s, id).(op := op))
  {
    SetOpViews(s, id, op, []);
    hide ViewOf, Ordered;
  }

  lemma QueueOne(s: State, id: nat, op: Operation, job: Job)
    requires WellFormed(s) && Ordered(s) && id < |s.ops| && job.id == id && job !in s.queue
    requires job.Clear? ==> RaceWork(id) !in s.queue
    ensures Updated(s, SetOp(s, id, op, [job]), id, WithJob(ViewOf(s, id).(op := op), job))
  {
    SetOpViews(s, id, op, [job]);
    hide ViewOf, Ordered;
  }

  lemma QueueTwo(s: State, id: nat, op: Operation, first: Job, second: Job)
    requires WellFormed(s) && Ordered(s) && id < |s.ops| && first.id == id == second.id && first != second
    requires first !in s.queue && second !in s.queue && !second.Clear?
    requires first.Clear? ==> RaceWork(id) !in s.queue
    ensures Updated(s, SetOp(s, id, op, [first, second]), id, WithJob(WithJob(ViewOf(s, id).(op := op), first), second))
  {
    hide ViewOf, Ordered, WithJob, WellFormed;
    QueueOne(s, id, op, first);
    var t := SetOp(s, id, op, [first]);
    assert second !in t.queue;
    QueueOne(t, id, op, second);
    assert t.ops[id := op] == t.ops && (s.queue + [first]) + [second] == s.queue + [first, second];
    WithJobKeepsOp(ViewOf(s, id).(op := op), first);
  }

  lemma WithJobKeepsOp(v: View, job: Job)
    ensures WithJob(v, job).(op := v.op) == WithJob(v, job)
  {
  }

  /** What the flags of a view mean. */
  lemma Flags(s: State, id: nat)
    requires id < |s.ops|
    ensures var v := ViewOf(s, id);
            && v.op == s.ops[id] && v.active == (s.active == Some(id)) && v.published == Published(s.log, id)
            && v.start == (Start(id) in s.queue) && v.clear == (Clear(id) in s.queue)
            && v.raceWork == (RaceWork(id) in s.queue) && v.raceCancel == (RaceCancel(id) in s.queue)
            && v.thenJob == (Then(id) in s.queue) && v.catchJob == (Catch(id) in s.queue)
            && v.pass == (Pass(id) in s.queue)
            && v.afterPending == (AfterPending(id) in s.stack) && v.afterAbort == (AfterAbort(id) in s.stack)
            && v.afterCancelled == (AfterCancelled(id) in s.stack)
            && v.afterSuccess == (AfterSuccess(id) in s.stack) && v.afterError == (AfterError(id) in s.stack)
  {
  }

  lemma DisplayKept(s: State, t: State)
    requires DisplayIsLast(s) && t.shown == s.shown && t.log == s.log && (t.active == s.active || t.active == None)
    ensures DisplayIsLast(t)
  {
  }

  lemma DisplayTerminal(t: State)
    requires t.log != [] && t.shown == t.log[|t.log| - 1].state && !t.shown.Pending?
    ensures DisplayIsLast(t)
  {
  }

  /** The start of every return: the continuation is popped off a good view. */
  lemma Popped(s: State, again: set<nat>) returns (top: Frame, v: View, popped: State)
    requires Invariant(s, again) && s.stack != []
    ensures top == s.stack[|s.stack| - 1] && top.id < |s.ops| && popped == s.(stack := s.stack[..|s.stack| - 1])
    ensures v == ViewOf(s, top.id) && v.op == s.ops[top.id] && Good(v, top.id in again)
    ensures WellFormed(popped) && Ordered(popped) && DisplayIsLast(popped) && OnlyTouches(s, popped, top.id)
    ensures ViewOf(popped, top.id) == WithoutFrame(v, top)
    ensures top.AfterPending? ==> v.afterPending
    ensures top.AfterAbort? ==> v.afterAbort && AfterCancelled(top.id) !in popped.stack
    ensures top.AfterCancelled? ==> v.afterCancelled
    ensures top.AfterSuccess? ==> v.afterSuccess
    ensures top.AfterError? ==> v.afterError
  {
    top := s.stack[|s.stack| - 1];
    v := ViewOf(s, top.id);
    popped := s.(stack := s.stack[..|s.stack| - 1]);
    PopStackViews(s);
    Flags(s, top.id);
    DisplayKept(s, popped);
    if top.AfterAbort? {
      NothingBehind(s.stack, AfterAbort(top.id), AfterCancelled(top.id));
    }
    hide ViewOf;
  }

  lemma NothingBehind(stack: seq<Frame>, top: Frame, f: Frame)
    requires NeverBehind(stack, top, f) && stack != [] && stack[|stack| - 1] == top
    ensures f !in stack[..|stack| - 1]
  {
  }

  lemma TouchesBoth(s: State, t: State, u: State, id: nat)
    requires OnlyTouches(s, t, id) && OnlyTouches(t, u, id)
    ensures OnlyTouches(s, u, id)
  {
    hide ViewOf;
  }

  // ---------------------------------------------------------------------
  // Every step keeps the invariant

  lemma AcceptedViews(s: State, kind: Kind)
    requires WellFormed(s) && Ordered(s) && s.active.None?
    ensures var id := |s.ops|;
            var op := Operation(kind, false, false, false, NotCreated, Unraced);
            var t := s.(active := Some(id), ops := s.ops + [op]);
            && WellFormed(t) && Ordered(t)
            && (forall j: nat :: j < |s.ops| ==> ViewOf(t, j) == ViewOf(s, j))
            && ViewOf(t, id) == View(op, true, [], false, false, false, false, false, false, false,
                                     false, false, false, false, false)
            && AfterPending(id) !in s.stack
  {
    NothingPublished(s.log, |s.ops|);
  }

  lemma GoodAccepted(kind: Kind, id: nat)
    ensures Good(WithFrame(View(Operation(kind, false, false, false, NotCreated, Unraced), true, [] + [Pending(kind)],
                                false, false, false, false, false, false, false, false, false, false, false, false),
                           AfterPending(id)), false)
  {
  }

  lemma RunKeeps(s: State, again: set<nat>, kind: Kind)
    requires Invariant(s, again)
    ensures Invariant(CallRun(s, kind), again)
  {
    hide ViewOf, Ordered, OnlyTouches, Good, WithFrame;
    if s.active.None? {
      var id := |s.ops|;
      var op := Operation(kind, false, false, false, NotCreated, Unraced);
      var t := s.(active := Some(id), ops := s.ops + [op]);
      AcceptedViews(s, kind);
      PublishViews(t, id, Pending(kind), AfterPending(id));
      GoodAccepted(kind, id);
      var u := CallRun(s, kind);
      OthersUntouched(t, u, id);
      assert Good(ViewOf(u, id), false);
    }
  }

  lemma OthersUntouched(s: State, t: State, id: nat)
    requires OnlyTouches(s, t, id)
    ensures |s.ops| == |t.ops| && forall j: nat :: j < |s.ops| && j != id ==> ViewOf(t, j) == ViewOf(s, j)
  {
    hide ViewOf;
  }

  /** The operation whose pending state is on display has published nothing else. */
  lemma DisplayedIsPending(s: State, again: set<nat>)
    requires Invariant(s, again) && CancelTakesEffect(s)
    ensures var id := s.active.value; var v := ViewOf(s, id);
            && v.published == [Pending(v.op.kind)] && !v.afterCancelled && id !in again
            && (v.op.cancelled ==> v.afterAbort) && s.log[|s.log| - 1] == Entry(id, Pending(v.op.kind))
  {
    var id := s.active.value;
    var last := s.log[|s.log| - 1];
    assert last.id == id && last.state.Pending?;
    PublishedAppend(s.log[..|s.log| - 1], last, id);
    assert s.log == s.log[..|s.log| - 1] + [last];
    var p := ViewOf(s, id).published;
    assert Good(ViewOf(s, id), id in again);
    assert p[|p| - 1] == last.state;
  }

  lemma GoodCancel(v: View)
    requires Good(v, false) && v.published == [Pending(v.op.kind)] && !v.afterCancelled && v.active
    requires v.op.cancelled ==> v.afterAbort
    ensures var w := v.(op := v.op.(cancelled := true, aborted := true));
            if v.op.aborted || !SignalHandedOut(v.op)
            then Good(WithFrame(w.(published := w.published + [Error(w.op.kind, Aborted)]), AfterCancelled(0)),
                      v.op.aborted)
            else !v.afterAbort && Good(WithFrame(w, AfterAbort(0)), false)
  {
  }

  lemma WithFrameAnyId(v: View, i: nat)
    ensures WithFrame(v, AfterAbort(i)) == WithFrame(v, AfterAbort(0))
    ensures WithFrame(v, AfterCancelled(i)) == WithFrame(v, AfterCancelled(0))
  {
  }

  lemma CancelKeeps(s: State, again: set<nat>)
    requires Invariant(s, again) && Enabled(s, Cancel)
    ensures Invariant(CallCancel(s), again + Recancels(s, Cancel))
  {
    hide ViewOf, Ordered, Good, WithFrame, DisplayIsLast, OnlyTouches;
    if CancelTakesEffect(s) {
      var id := s.active.value;
      var op := s.ops[id];
      DisplayedIsPending(s, again);
      Flags(s, id);
      GoodCancel(ViewOf(s, id));
      WithFrameAnyId(ViewOf(s, id).(op := op.(cancelled := true, aborted := true)), id);
      var flagged := op.(cancelled := true, aborted := true);
      var t := s.(ops := s.ops[id := flagged]);
      assert t == SetOp(s, id, flagged, []);
      QueueNone(s, id, flagged);
      var u := CallCancel(s);
      if op.aborted || !SignalHandedOut(op) {
        PublishViews(t, id, Error(op.kind, Aborted), AfterCancelled(id));
        WithFrameAnyId(ViewOf(t, id).(published := ViewOf(t, id).published + [Error(op.kind, Aborted)]), id);
        DisplayTerminal(u);
      } else {
        PushViews(t, AfterAbort(id));
        DisplayKept(s, u);
      }
      TouchesBoth(s, t, u, id);
      OneGoodView(s, again, u, again + Recancels(s, Cancel), id);
    } else {
      assert again + Recancels(s, Cancel) == again;
    }
  }

  lemma ReturnKeeps(s: State, again: set<nat>)
    requires Invariant(s, again) && s.stack != []
    ensures Invariant(HostReturns(s), again)
  {
    hide ViewOf, Ordered, Good, OnlyTouches, DisplayIsLast, WithFrame, WithJob, WithoutFrame;
    var top, v, popped := Popped(s, again);
    var t := HostReturns(s);
    var id, op := top.id, v.op;
    Flags(popped, id);
    GoodReturn(v, top, id in again);
    WithoutFrameIsLess(v, top);
    match top {
      case AfterPending(_) =>
        var resumed := op.(work := Queued, stage := Racing);
        if op.rejected {
          QueueTwo(popped, id, resumed, Start(id), RaceCancel(id));
        } else {
          QueueOne(popped, id, resumed, Start(id));
        }
      case AfterAbort(_) =>
        PublishViews(popped, id, Error(op.kind, Aborted), AfterCancelled(id));
      case AfterCancelled(_) =>
        if !op.rejected {
          if op.stage.Unraced? {
            QueueNone(popped, id, op.(rejected := true));
          } else {
            QueueOne(popped, id, op.(rejected := true), RaceCancel(id));
          }
        }
      case AfterWorkCall(_) =>
      case AfterSuccess(_) => QueueOne(popped, id, op.(stage := PassQueued), Pass(id));
      case AfterError(_) => QueueNone(popped, id, op.(stage := Done(RejectedWith(op.stage.code))));
    }
    if top.AfterAbort? {
      DisplayTerminal(t);
    } else {
      DisplayKept(popped, t);
    }
    if t != popped {
      TouchesBoth(s, popped, t, id);
    }
    OneGoodView(s, again, t, again, id);
  }

  lemma WithoutFrameIsLess(v: View, f: Frame)
    ensures var w := WithoutFrame(v, f);
            && w.op == v.op && w.published == v.published
            && w.start == v.start && w.raceCancel == v.raceCancel && w.pass == v.pass
  {
  }

  /** The view that a return leaves is good. */
  ghost predicate GoodAfter(v: View, top: Frame, again: bool) {
    var w, op := WithoutFrame(v, top), v.op;
    match top
    case AfterPending(id) =>
      v.afterPending ==>
        var u := WithJob(w.(op := op.(work := Queued, stage := Racing)), Start(id));
        !v.start && !v.raceCancel && Good(if op.rejected then WithJob(u, RaceCancel(id)) else u, again)
    case AfterAbort(id) =>
      v.afterAbort ==>
        Good(WithFrame(w.(published := w.published + [Error(op.kind, Aborted)]), AfterCancelled(id)), again)
    case AfterCancelled(id) =>
      v.afterCancelled ==>
        if op.rejected then Good(w, again)
        else
          var u := w.(op := op.(rejected := true));
          !v.raceCancel && Good(if op.stage.Unraced? then u else WithJob(u, RaceCancel(id)), again)
    case AfterWorkCall(_) => Good(w, again)
    case AfterSuccess(id) =>
      v.afterSuccess ==> !v.pass && Good(WithJob(w.(op := op.(stage := PassQueued)), Pass(id)), again)
    case AfterError(_) =>
      v.afterError ==>
        op.stage.Failing? && Good(w.(op := op.(stage := Done(RejectedWith(op.stage.code)))), again)
  }

  lemma GoodReturn(v: View, top: Frame, again: bool)
    requires Good(v, again)
    ensures GoodAfter(v, top, again)
  {
    hide GoodAfter, Good;
    match top
    case AfterPending(_) => GoodPending(v, top, again);
    case AfterAbort(_) => GoodAborting(v, top, again);
    case AfterCancelled(_) => GoodCancelling(v, top, again);
    case AfterWorkCall(_) => GoodWorkCalled(v, top, again);
    case AfterSuccess(_) => GoodSucceeding(v, top, again);
    case AfterError(_) => GoodFailing(v, top, again);
  }

  lemma GoodPending(v: View, top: Frame, again: bool)
    requires Good(v, again) && top.AfterPending?
    ensures GoodAfter(v, top, again)
  {
  }

  lemma GoodAborting(v: View, top: Frame, again: bool)
    requires Good(v, again) && top.AfterAbort?
    ensures GoodAfter(v, top, again)
  {
    if v.afterAbort {
      var k := if again then 1 else 0;
      assert v.op.cancelled && v.published == [Pending(v.op.kind)] + Aborts(v.op.kind, k);
      OneMoreAbort(v.op.kind, k);
      hide Aborts;
    }
  }

  lemma OneMoreAbort(kind: Kind, k: nat)
    requires k <= 1
    ensures ([Pending(kind)] + Aborts(kind, k)) + [Error(kind, Aborted)] == [Pending(kind)] + Aborts(kind, k + 1)
    ensures |[Pending(kind)] + Aborts(kind, k + 1)| == k + 2
  {
  }

  lemma GoodCancelling(v: View, top: Frame, again: bool)
    requires Good(v, again) && top.AfterCancelled?
    ensures GoodAfter(v, top, again)
  {
    hide Aborts;
  }

  lemma GoodWorkCalled(v: View, top: Frame, again: bool)
    requires Good(v, again) && top.AfterWorkCall?
    ensures GoodAfter(v, top, again)
  {
    hide Aborts, FollowsWork;
  }

  lemma GoodSucceeding(v: View, top: Frame, again: bool)
    requires Good(v, again) && top.AfterSuccess?
    ensures GoodAfter(v, top, again)
  {
    hide Aborts;
  }

  lemma GoodFailing(v: View, top: Frame, again: bool)
    requires Good(v, again) && top.AfterError?
    ensures GoodAfter(v, top, again)
  {
    hide Aborts;
  }

  lemma GoodSettle(v: View, result: Settlement, again: bool)
    requires Good(v, again) && v.op.work.Running?
    ensures !v.clear && !v.raceWork
    ensures Good(WithJob(WithJob(v.(op := v.op.(work := Settled(result))), Clear(0)), RaceWork(0)), again)
  {
  }

  lemma SettleKeeps(s: State, again: set<nat>, id: nat, result: Settlement)
    requires Invariant(s, again) && s.stack == [] && id < |s.ops| && s.ops[id].work.Running?
    ensures Invariant(Settle(s, id, result), again)
  {
    hide ViewOf, Ordered, Good, OnlyTouches, DisplayIsLast;
    Flags(s, id);
    GoodSettle(ViewOf(s, id), result, id in again);
    QueueTwo(s, id, s.ops[id].(work := Settled(result)), Clear(id), RaceWork(id));
    DisplayKept(s, Settle(s, id, result));
    OneGoodView(s, again, Settle(s, id, result), again, id);
  }

  /** The view that the reaction `job` leaves is good; `pushed` says whether it publishes. */
  ghost predicate GoodReaction(v: View, job: Job, again: bool) {
    var w, op := WithoutJob(v, job), v.op;
    match job
    case Start(_) => Good(w.(op := op.(work := Running)), again)
    case Clear(_) => Good(w.(active := false), again)
    case RaceWork(id) => op.work.Settled? && GoodRace(w, id, op.work.result, again)
    case RaceCancel(id) => GoodRace(w, id, Rejected(ClientError(Aborted)), again)
    case Then(id) =>
      op.stage.ThenQueued? &&
      if op.stage.settled.Rejected? then
        !v.catchJob && Good(WithJob(w.(op := op.(stage := CatchQueued(op.stage.settled.reason))), Catch(id)), again)
      else if op.cancelled then
        !v.catchJob && Good(WithJob(w.(op := op.(stage := CatchQueued(ClientError(Aborted)))), Catch(id)), again)
      else
        Good(WithFrame(w.(op := op.(stage := Succeeding), published := w.published + [Presentation.Success(op.kind)]),
                       AfterSuccess(id)), again)
    case Catch(id) =>
      op.stage.CatchQueued? &&
      if op.cancelled then Good(w.(op := op.(stage := Done(RejectedWith(Aborted)))), again)
      else
        var code := PresentationCode(op.stage.reason);
        Good(WithFrame(w.(op := op.(stage := Failing(code)), published := w.published + [Error(op.kind, code)]),
                       AfterError(id)), again)
    case Pass(_) => Good(w.(op := op.(stage := Done(Resolved))), again)
  }

  ghost predicate GoodRace(w: View, id: nat, with: Settlement, again: bool) {
    if w.op.stage.Racing? then
      !w.thenJob && Good(WithJob(w.(op := w.op.(stage := ThenQueued(with))), Then(id)), again)
    else Good(w, again)
  }

  predicate HasJob(v: View, job: Job) {
    match job
    case Start(_) => v.start
    case Clear(_) => v.clear
    case RaceWork(_) => v.raceWork && !v.clear
    case RaceCancel(_) => v.raceCancel
    case Then(_) => v.thenJob
    case Catch(_) => v.catchJob
    case Pass(_) => v.pass
  }

  predicate NoFrames(v: View) {
    !v.afterPending && !v.afterAbort && !v.afterCancelled && !v.afterSuccess && !v.afterError
  }

  lemma GoodStartOrClear(v: View, job: Job, again: bool)
    requires Good(v, again) && HasJob(v, job) && NoFrames(v) && (job.Start? || job.Clear? || job.Pass?)
    ensures GoodReaction(v, job, again)
  {
  }

  lemma GoodRacing(v: View, job: Job, again: bool)
    requires Good(v, again) && HasJob(v, job) && NoFrames(v) && (job.RaceWork? || job.RaceCancel?)
    ensures GoodReaction(v, job, again)
  {
  }

  lemma GoodThen(v: View, job: Job, again: bool)
    requires Good(v, again) && HasJob(v, job) && NoFrames(v) && job.Then?
    ensures GoodReaction(v, job, again)
  {
  }

  lemma GoodCatch(v: View, job: Job, again: bool)
    requires Good(v, again) && HasJob(v, job) && NoFrames(v) && job.Catch?
    ensures GoodReaction(v, job, again)
  {
  }

  lemma GoodJob(v: View, job: Job, again: bool)
    requires Good(v, again) && HasJob(v, job) && NoFrames(v)
    ensures GoodReaction(v, job, again)
  {
    hide Good, GoodReaction, HasJob, NoFrames;
    match job
    case Start(_) => GoodStartOrClear(v, job, again);
    case Clear(_) => GoodStartOrClear(v, job, again);
    case Pass(_) => GoodStartOrClear(v, job, again);
    case RaceWork(_) => GoodRacing(v, job, again);
    case RaceCancel(_) => GoodRacing(v, job, again);
    case Then(_) => GoodThen(v, job, again);
    case Catch(_) => GoodCatch(v, job, again);
  }

  lemma NotInRest(q: seq<Job>, job: Job)
    requires q != [] && job != q[0] && job !in q[1..]
    ensures job !in q
  {
  }

  lemma WorkFrameUnseen(v: View, id: nat)
    ensures WithFrame(v, AfterWorkCall(id)) == v
  {
  }

  /** The start of every reaction: the job is taken off a good view, and no host code is running. */
  lemma Dequeued(s: State, again: set<nat>) returns (job: Job, v: View, popped: State)
    requires Invariant(s, again) && s.stack == [] && s.queue != []
    ensures job == s.queue[0] && job.id < |s.ops| && popped == s.(queue := s.queue[1..])
    ensures v == ViewOf(s, job.id) && v.op == s.ops[job.id] && Good(v, job.id in again)
    ensures HasJob(v, job) && NoFrames(v)
    ensures WellFormed(popped) && Ordered(popped) && DisplayIsLast(popped) && OnlyTouches(s, popped, job.id)
    ensures ViewOf(popped, job.id) == WithoutJob(v, job)
  {
    job := s.queue[0];
    v := ViewOf(s, job.id);
    popped := s.(queue := s.queue[1..]);
    PopQueueViews(s);
    Flags(s, job.id);
    DisplayKept(s, popped);
    hide ViewOf, Ordered, Good, OnlyTouches;
    assert job in s.queue;
    if job.RaceWork? {
      NotInRest(s.queue, Clear(job.id));
    }
  }

  lemma ClearViews(s: State, id: nat)
    requires WellFormed(s) && Ordered(s) && id < |s.ops| && s.active == Some(id)
    ensures Updated(s, s.(active := None), id, ViewOf(s, id).(active := false))
  {
  }

  lemma WithoutJobIsLess(v: View, job: Job)
    ensures var w := WithoutJob(v, job);
            && w.op == v.op && w.published == v.published && w.active == v.active
            && (w.thenJob ==> v.thenJob) && (w.catchJob ==> v.catchJob)
            && w.afterSuccess == v.afterSuccess && w.afterError == v.afterError
  {
  }

  lemma RaceKeeps(s: State, t: State, again: set<nat>, id: nat, with: Settlement)
    requires Invariant(s, again) && id < |s.ops| == |t.ops|
    requires WellFormed(t) && Ordered(t) && DisplayIsLast(t) && OnlyTouches(s, t, id)
    requires GoodRace(ViewOf(t, id), id, with, id in again)
    ensures Invariant(SettleRace(t, id, with), again)
  {
    hide ViewOf, Ordered, Good, OnlyTouches, DisplayIsLast, WithJob;
    Flags(t, id);
    var u := SettleRace(t, id, with);
    if t.ops[id].stage.Racing? {
      QueueOne(t, id, t.ops[id].(stage := ThenQueued(with)), Then(id));
      TouchesBoth(s, t, u, id);
    }
    DisplayKept(t, u);
    OneGoodView(s, again, u, again, id);
  }

  lemma ReactionKeeps(s: State, again: set<nat>)
    requires Invariant(s, again) && s.stack == [] && s.queue != []
    ensures Invariant(Microtask(s), again)
  {
    hide ViewOf, Ordered, Good, OnlyTouches, DisplayIsLast, WithJob, WithoutJob, WithFrame, NoFrames, HasJob;
    var job, v, popped := Dequeued(s, again);
    GoodJob(v, job, job.id in again);
    WithoutJobIsLess(v, job);
    Flags(popped, job.id);
    match job
    case Start(_) => StartKeeps(s, again, v, popped);
    case Clear(_) => ClearKeeps(s, again, v, popped);
    case RaceWork(id) => RaceKeeps(s, popped, again, id, v.op.work.result);
    case RaceCancel(id) => RaceKeeps(s, popped, again, id, Rejected(ClientError(Aborted)));
    case Then(_) => ThenKeeps(s, again, v, popped);
    case Catch(_) => CatchKeeps(s, again, v, popped);
    case Pass(_) => PassKeeps(s, again, v, popped);
  }

  ghost predicate Reacts(s: State, again: set<nat>, v: View, popped: State) {
    && Invariant(s, again) && s.stack == [] && s.queue != [] && s.queue[0].id < |s.ops|
    && popped == s.(queue := s.queue[1..]) && v.op == s.ops[s.queue[0].id]
    && WellFormed(popped) && Ordered(popped) && DisplayIsLast(popped) && OnlyTouches(s, popped, s.queue[0].id)
    && ViewOf(popped, s.queue[0].id) == WithoutJob(v, s.queue[0])
    && GoodReaction(v, s.queue[0], s.queue[0].id in again)
  }

  lemma StartKeeps(s: State, again: set<nat>, v: View, popped: State)
    requires Reacts(s, again, v, popped) && s.queue[0].Start?
    ensures Invariant(Microtask(s), again)
  {
    hide ViewOf, Ordered, Good, OnlyTouches, DisplayIsLast, WithoutJob, WithFrame;
    var id := s.queue[0].id;
    var op := v.op.(work := Running);
    WithoutJobIsLess(v, s.queue[0]);
    QueueNone(popped, id, op);
    var started := SetOp(popped, id, op, []);
    PushViews(started, AfterWorkCall(id));
    WorkFrameUnseen(ViewOf(started, id), id);
    var t := Microtask(s);
    assert t == started.(stack := started.stack + [AfterWorkCall(id)]);
    TouchesBoth(s, popped, started, id);
    TouchesBoth(s, started, t, id);
    DisplayKept(popped, t);
    OneGoodView(s, again, t, again, id);
  }

  lemma ClearKeeps(s: State, again: set<nat>, v: View, popped: State)
    requires Reacts(s, again, v, popped) && s.queue[0].Clear?
    ensures Invariant(Microtask(s), again)
  {
    hide ViewOf, Ordered, Good, OnlyTouches, DisplayIsLast, WithoutJob;
    var id := s.queue[0].id;
    Flags(popped, id);
    WithoutJobIsLess(v, s.queue[0]);
    var t := Microtask(s);
    if s.active == Some(id) {
      ClearViews(popped, id);
      TouchesBoth(s, popped, t, id);
    }
    DisplayKept(popped, t);
    OneGoodView(s, again, t, again, id);
  }

  lemma ThenKeeps(s: State, again: set<nat>, v: View, popped: State)
    requires Reacts(s, again, v, popped) && s.queue[0].Then?
    ensures Invariant(Microtask(s), again)
  {
    hide ViewOf, Ordered, Good, OnlyTouches, DisplayIsLast, WithoutJob, WithJob, WithFrame;
    var id, op := s.queue[0].id, v.op;
    Flags(popped, id);
    WithoutJobIsLess(v, s.queue[0]);
    var t := Microtask(s);
    if op.stage.settled.Rejected? || op.cancelled {
      var reason := if op.stage.settled.Rejected? then op.stage.settled.reason else ClientError(Aborted);
      QueueOne(popped, id, op.(stage := CatchQueued(reason)), Catch(id));
      DisplayKept(popped, t);
      TouchesBoth(s, popped, t, id);
    } else {
      QueueNone(popped, id, op.(stage := Succeeding));
      var succeeding := SetOp(popped, id, op.(stage := Succeeding), []);
      TouchesBoth(s, popped, succeeding, id);
      PublishViews(succeeding, id, Presentation.Success(op.kind), AfterSuccess(id));
      TouchesBoth(s, succeeding, t, id);
      DisplayTerminal(t);
    }
    OneGoodView(s, again, t, again, id);
  }

  lemma CatchKeeps(s: State, again: set<nat>, v: View, popped: State)
    requires Reacts(s, again, v, popped) && s.queue[0].Catch?
    ensures Invariant(Microtask(s), again)
  {
    hide ViewOf, Ordered, Good, OnlyTouches, DisplayIsLast, WithoutJob, WithJob, WithFrame, PresentationCode;
    var id, op := s.queue[0].id, v.op;
    Flags(popped, id);
    WithoutJobIsLess(v, s.queue[0]);
    var t := Microtask(s);
    if op.cancelled {
      QueueNone(popped, id, op.(stage := Done(RejectedWith(Aborted))));
      DisplayKept(popped, t);
      TouchesBoth(s, popped, t, id);
    } else {
      var code := PresentationCode(op.stage.reason);
      QueueNone(popped, id, op.(stage := Failing(code)));
      var failing := SetOp(popped, id, op.(stage := Failing(code)), []);
      TouchesBoth(s, popped, failing, id);
      PublishViews(failing, id, Error(op.kind, code), AfterError(id));
      TouchesBoth(s, failing, t, id);
      DisplayTerminal(t);
    }
    OneGoodView(s, again, t, again, id);
  }

  lemma PassKeeps(s: State, again: set<nat>, v: View, popped: State)
    requires Reacts(s, again, v, popped) && s.queue[0].Pass?
    ensures Invariant(Microtask(s), again)
  {
    hide ViewOf, Ordered, Good, OnlyTouches, DisplayIsLast, WithoutJob;
    var id := s.queue[0].id;
    var t := Microtask(s);
    WithoutJobIsLess(v, s.queue[0]);
    QueueNone(popped, id, v.op.(stage := Done(Resolved)));
    TouchesBoth(s, popped, t, id);
    DisplayKept(popped, t);
    OneGoodView(s, again, t, again, id);
  }

  lemma NextKeeps(s: State, again: set<nat>, step: Step)
    requires Invariant(s, again)
    ensures Invariant(Next(s, step), again + Recancels(s, step))
  {
    hide Good, ViewOf, Ordered, DisplayIsLast, CallRun, CallCancel, HostReturns, Microtask, Settle;
    if step.Cancel? && Enabled(s, step) {
      CancelKeeps(s, again);
    } else {
      assert again + Recancels(s, step) == again;
      if Enabled(s, step) {
        match step
        case Run(kind) => RunKeeps(s, again, kind);
        case Return => ReturnKeeps(s, again);
        case Reaction => ReactionKeeps(s, again);
        case WorkSettles(id, result) => SettleKeeps(s, again, id, result);
        case Cancel =>
      }
    }
  }

  lemma {:induction false} RunInvariant(steps: seq<Step>)
    ensures Invariant(After(steps), CancelledFromAbortListener(steps))
  {
    hide Good, ViewOf, Next;
    if steps != [] {
      hide Invariant;
      RunInvariant(steps[..|steps| - 1]);
      NextKeeps(After(steps[..|steps| - 1]), CancelledFromAbortListener(steps[..|steps| - 1]), steps[|steps| - 1]);
    }
  }

  // ---------------------------------------------------------------------
  // What holds after every run

  predicate InFlight(op: Operation) {
    !op.work.Settled?
  }

  function Terminals(states: seq<Presentation>): nat {
    if states == [] then 0
    else Terminals(states[1..]) + if states[0].Success? || states[0].Error? then 1 else 0
  }

  lemma GoodAfterRun(steps: seq<Step>, id: nat)
    requires id < |After(steps).ops|
    ensures Good(ViewOf(After(steps), id), id in CancelledFromAbortListener(steps))
  {
    hide Good, ViewOf, After;
    RunInvariant(steps);
  }

  /** At most one operation's work is unsettled, and while it is, `run` refuses another. */
  lemma OneInFlight(steps: seq<Step>, i: nat, j: nat)
    requires var ops := After(steps).ops; i < |ops| && j < |ops| && InFlight(ops[i]) && InFlight(ops[j])
    ensures i == j
    ensures After(steps).active == Some(i)
    ensures forall kind :: CallRun(After(steps), kind) == After(steps)
  {
    GoodAfterRun(steps, i);
    GoodAfterRun(steps, j);
  }

  /**
   What an operation has published. One that was not cancelled ends with the
   state of its own outcome; a cancelled one publishes the abort once, or twice
   exactly when it was cancelled again from an abort listener.
   */
  lemma PublishedStates(steps: seq<Step>, id: nat)
    requires id < |After(steps).ops|
    ensures var s := After(steps); var op := s.ops[id]; var states := Published(s.log, id);
            var twice := id in CancelledFromAbortListener(steps);
            && (!op.cancelled ==> states == [Pending(op.kind)] + TerminalOf(op) && !twice)
            && (op.cancelled && AfterAbort(id) !in s.stack && !twice
                ==> states == [Pending(op.kind), Error(op.kind, Aborted)])
            && (op.cancelled && AfterAbort(id) !in s.stack && twice
                ==> states == [Pending(op.kind), Error(op.kind, Aborted), Error(op.kind, Aborted)])
            && (op.cancelled && AfterAbort(id) in s.stack
                ==> states == [Pending(op.kind)] + if twice then [Error(op.kind, Aborted)] else [])
  {
    GoodAfterRun(steps, id);
    Flags(After(steps), id);
    hide After, ViewOf, Published, CancelledFromAbortListener;
  }

  lemma TerminalCounts(kind: Kind, a: Presentation, b: Presentation)
    ensures Terminals([Pending(kind)]) == 0
    ensures (a.Success? || a.Error?) && (b.Success? || b.Error?)
            ==> Terminals([Pending(kind), a]) == 1 && Terminals([Pending(kind), a, b]) == 2
  {
    assert [Pending(kind), a, b][1..] == [a, b] && [a, b][1..] == [b] && [Pending(kind), a][1..] == [a];
    assert forall p :: Terminals([p]) == if p.Success? || p.Error? then 1 else 0;
    assert Terminals([a, b]) == Terminals([b]) + Terminals([a]);
  }

  lemma TerminalIsOne(op: Operation)
    ensures Terminals([Pending(op.kind)] + TerminalOf(op)) <= 1
  {
    var states := [Pending(op.kind)] + TerminalOf(op);
    if TerminalOf(op) == [] {
      TerminalCounts(op.kind, Idle, Idle);
      assert states == [Pending(op.kind)];
    } else {
      var last := TerminalOf(op)[0];
      TerminalCounts(op.kind, last, last);
      assert states == [Pending(op.kind), last];
    }
  }

  /**
   An accepted operation publishes at most one terminal state, unless it was
   cancelled again from an abort listener of its own signal: then, once the
   listeners have returned, it has published two.
   */
  lemma TerminalStates(steps: seq<Step>, id: nat)
    requires id < |After(steps).ops|
    ensures var s := After(steps); var n := Terminals(Published(s.log, id));
            && n <= 2
            && (n == 2 ==> id in CancelledFromAbortListener(steps))
            && (id in CancelledFromAbortListener(steps) && AfterAbort(id) !in s.stack ==> n == 2)
  {
    PublishedStates(steps, id);
    var op := After(steps).ops[id];
    hide After, Published, CancelledFromAbortListener, Terminals, TerminalOf;
    TerminalIsOne(op);
    TerminalCounts(op.kind, Error(op.kind, Aborted), Error(op.kind, Aborted));
    assert [Pending(op.kind)] + [] == [Pending(op.kind)];
    assert [Pending(op.kind)] + [Error(op.kind, Aborted)] == [Pending(op.kind), Error(op.kind, Aborted)];
  }

  /** Once `cancel` has returned, a cancelled operation publishes nothing more, whatever happens next. */
  lemma {:induction false} NothingAfterCancel(steps: seq<Step>, later: seq<Step>, id: nat)
    requires id < |After(steps).ops| && After(steps).ops[id].cancelled && AfterAbort(id) !in After(steps).stack
    ensures var t := After(steps + later);
            && id < |t.ops| && t.ops[id].cancelled && AfterAbort(id) !in t.stack
            && Published(t.log, id) == Published(After(steps).log, id)
            && (t.ops[id].stage.Done? ==> t.ops[id].stage.outcome == RejectedWith(Aborted))
    decreases |later|
  {
    if later == [] {
      assert steps + later == steps;
      GoodAfterRun(steps, id);
    } else {
      var before := later[..|later| - 1];
      var step := later[|later| - 1];
      NothingAfterCancel(steps, before, id);
      assert (steps + later)[..|steps + later| - 1] == steps + before;
      assert After(steps + later) == Next(After(steps + before), step);
      CancelledStays(steps + before, step, id);
    }
  }

  /** The signal of `id` is aborted and its abort listeners are done, as in `s`. */
  predicate AbortIsOver(s: State, t: State, id: nat) {
    id < |s.ops| && id < |t.ops| && s.ops[id].kind == t.ops[id].kind
    && t.ops[id].cancelled && t.ops[id].aborted && AfterAbort(id) !in t.stack
  }

  lemma AbortStaysOverOnCalls(s: State, kind: Kind, id: nat)
    requires WellFormed(s) && AbortIsOver(s, s, id)
    ensures AbortIsOver(s, CallRun(s, kind), id) && AbortIsOver(s, CallCancel(s), id)
  {
    forall f: Frame | f.id != id || !f.AfterAbort? ensures AfterAbort(id) !in s.stack + [f] {
      OnTop(s.stack, f, AfterAbort(id));
    }
  }

  lemma AbortStaysOverOnReturn(s: State, id: nat)
    requires WellFormed(s) && AbortIsOver(s, s, id) && s.stack != []
    ensures AbortIsOver(s, HostReturns(s), id)
  {
    var popped := s.stack[..|s.stack| - 1];
    assert AfterAbort(id) !in popped;
    OnTop(popped, AfterCancelled(s.stack[|s.stack| - 1].id), AfterAbort(id));
  }

  lemma AbortStaysOverOnReaction(s: State, id: nat)
    requires WellFormed(s) && AbortIsOver(s, s, id) && s.stack == [] && s.queue != []
    ensures AbortIsOver(s, Microtask(s), id)
  {
  }

  lemma AbortStaysOver(s: State, step: Step, id: nat)
    requires WellFormed(s) && AbortIsOver(s, s, id)
    ensures AbortIsOver(s, Next(s, step), id)
  {
    if Enabled(s, step) {
      match step
      case Run(kind) => AbortStaysOverOnCalls(s, kind, id);
      case Cancel => AbortStaysOverOnCalls(s, Registration, id);
      case Return => AbortStaysOverOnReturn(s, id);
      case Reaction => AbortStaysOverOnReaction(s, id);
      case WorkSettles(_, _) =>
    }
  }

  lemma CancelledStays(steps: seq<Step>, step: Step, id: nat)
    requires id < |After(steps).ops| && After(steps).ops[id].cancelled && AfterAbort(id) !in After(steps).stack
    ensures var s := After(steps); var t := Next(s, step);
            && t.ops[id].cancelled && AfterAbort(id) !in t.stack && Published(t.log, id) == Published(s.log, id)
            && (t.ops[id].stage.Done? ==> t.ops[id].stage.outcome == RejectedWith(Aborted))
  {
    var more := steps + [step];
    var s := After(steps);
    assert more[..|more| - 1] == steps && After(more) == Next(s, step);
    assert CancelledFromAbortListener(more) == CancelledFromAbortListener(steps) + Recancels(s, step);
    RunInvariant(steps);
    GoodAfterRun(steps, id);
    Flags(s, id);
    if id in Recancels(s, step) {
      DisplayedIsPending(s, CancelledFromAbortListener(steps));
      assert false;
    }
    hide ViewOf, After, Next, CancelledFromAbortListener, Invariant, Published, Recancels;
    assert AbortIsOver(s, s, id);
    AbortStaysOver(s, step, id);
    PublishedStates(steps, id);
    PublishedStates(more, id);
    GoodAfterRun(more, id);
    Flags(After(more), id);
  }

  /**
   No operation is lost: when no host code runs and no reaction is queued, every
   accepted operation has finished, or its work is still running and it was not
   cancelled. A cancelled one was rejected as aborted.
   */
  lemma QuietMeansFinished(steps: seq<Step>, id: nat)
    requires var s := After(steps); s.stack == [] && s.queue == [] && id < |s.ops|
    ensures var op := After(steps).ops[id];
            && (op.stage.Done? || (op.work.Running? && !op.cancelled && op.stage.Racing?))
            && (op.cancelled ==> op.stage == Done(RejectedWith(Aborted)))
  {
    GoodAfterRun(steps, id);
    Flags(After(steps), id);
    hide After, ViewOf;
  }

  /**
   The promise of an operation that was not cancelled follows its work, and so
   does the state it published: a client error keeps its code, a platform abort
   counts as aborted, and any other error as a failure of the credential API.
   */
  lemma OutcomeFollowsWork(steps: seq<Step>, id: nat)
    requires id < |After(steps).ops|
    requires var op := After(steps).ops[id]; op.stage.Done? && !op.cancelled
    ensures var s := After(steps); var op := s.ops[id];
            && op.work.Settled?
            && match op.work.result {
                 case Fulfilled =>
                   op.stage.outcome == Resolved
                   && Published(s.log, id) == [Pending(op.kind), Presentation.Success(op.kind)]
                 case Rejected(ClientError(code)) =>
                   op.stage.outcome == RejectedWith(code)
                   && Published(s.log, id) == [Pending(op.kind), Error(op.kind, code)]
                 case Rejected(AbortError) =>
                   op.stage.outcome == RejectedWith(Aborted)
                   && Published(s.log, id) == [Pending(op.kind), Error(op.kind, Aborted)]
                 case Rejected(OtherError) =>
                   op.stage.outcome == RejectedWith(CredentialApiFailure)
                   && Published(s.log, id) == [Pending(op.kind), Error(op.kind, CredentialApiFailure)]
               }
  {
    GoodAfterRun(steps, id);
    Flags(After(steps), id);
    hide After, ViewOf, Published;
  }

  /**
   An operation that nobody cancelled is shown as aborted only if its work was
   rejected with a platform abort or with a client error of that code.
   */
  lemma AbortedOnlyByWork(steps: seq<Step>, id: nat)
    requires id < |After(steps).ops| && !After(steps).ops[id].cancelled
    ensures var s := After(steps); var op := s.ops[id];
            Error(op.kind, Aborted) in Published(s.log, id) ==>
              op.work == Settled(Rejected(AbortError)) || op.work == Settled(Rejected(ClientError(Aborted)))
  {
    GoodAfterRun(steps, id);
    hide After, Published;
    UncancelledStates(ViewOf(After(steps), id), id in CancelledFromAbortListener(steps));
  }

  lemma UncancelledStates(v: View, again: bool)
    requires Good(v, again) && !v.op.cancelled
    ensures Error(v.op.kind, Aborted) in v.published ==>
              v.op.work == Settled(Rejected(AbortError)) || v.op.work == Settled(Rejected(ClientError(Aborted)))
  {
  }

  lemma LastPublished(log: seq<Entry>, id: nat)
    requires Published(log, id) != []
    ensures log != []
    ensures log[|log| - 1].id == id ==> Published(log, id)[|Published(log, id)| - 1] == log[|log| - 1].state
  {
  }

  lemma ActiveIsPending(v: View, again: bool)
    requires Good(v, again) && v.active && !v.op.cancelled
    ensures v.published == [Pending(v.op.kind)]
  {
  }

  /**
   `cancel` reaches the active operation exactly when that operation was the
   last to publish. A finished operation that publishes its own result late
   hides the pending state, and the cancellation is then ignored.
   */
  lemma CancelReachesActive(steps: seq<Step>, id: nat)
    requires var s := After(steps); s.active == Some(id) && !s.ops[id].cancelled
    ensures var s := After(steps);
            && s.log != []
            && (CallCancel(s).ops[id].cancelled <==> s.log[|s.log| - 1].id == id)
            && (s.log[|s.log| - 1].id != id ==> CallCancel(s) == s)
  {
    RunInvariant(steps);
    hide After, ViewOf, Published, Good, Ordered;
    var s := After(steps);
    Flags(s, id);
    ActiveIsPending(ViewOf(s, id), id in CancelledFromAbortListener(steps));
    LastPublished(s.log, id);
  }

  function Fresh(kind: Kind): Operation {
    Operation(kind, false, false, false, NotCreated, Unraced)
  }

  /**
   A registration whose work has settled and won its race, and an
   authentication accepted before the registration's result is on display.
   */
  const LATE_RESULT: seq<Step> :=
    [Run(Registration), Return, Reaction, Return, WorkSettles(0, Fulfilled), Reaction, Reaction,
     Run(Authentication), Return, Reaction, Return, Reaction]

  const QUEUEING: Operation := Operation(Registration, false, false, false, Queued, Racing)
  const SHOWN_FIRST: seq<Entry> := [Entry(0, Pending(Registration))]
  const ACCEPTED: State :=
    State(Some(0), Pending(Registration), [Fresh(Registration)], [], [AfterPending(0)], SHOWN_FIRST)
  const SCHEDULED: State := State(Some(0), Pending(Registration), [QUEUEING], [Start(0)], [], SHOWN_FIRST)
  const WORKING: State := SCHEDULED.(ops := [QUEUEING.(work := Running)], queue := [], stack := [AfterWorkCall(0)])

  /** The first two steps of both runs below. */
  lemma RunAndReturn()
    ensures WellFormed(INITIAL) && WellFormed(ACCEPTED) && WellFormed(SCHEDULED)
    ensures Next(INITIAL, Run(Registration)) == ACCEPTED && Next(ACCEPTED, Return) == SCHEDULED
  {
    assert ACCEPTED.ops[0 := QUEUEING] == [QUEUEING];
  }

  lemma StartScheduled()
    ensures WellFormed(WORKING) && Next(SCHEDULED, Reaction) == WORKING
  {
    var op := WORKING.ops[0];
    assert SCHEDULED.ops[0 := op] == [op];
  }

  lemma AfterPrefix(steps: seq<Step>, k: nat)
    requires k < |steps|
    ensures After(steps[..k + 1]) == Next(After(steps[..k]), steps[k])
  {
    assert steps[..k + 1][..k] == steps[..k];
  }

  /** Both runs reach the point where the registration's work is being called. */
  lemma AfterThree(steps: seq<Step>)
    requires |steps| >= 3 && steps[0] == Run(Registration) && steps[1] == Return && steps[2] == Reaction
    ensures After(steps[..3]) == WORKING
  {
    assert After(steps[..0]) == INITIAL;
    RunAndReturn();
    StartScheduled();
    hide After, Next, INITIAL, ACCEPTED, SCHEDULED, WORKING;
    AfterPrefix(steps, 0);
    AfterPrefix(steps, 1);
    AfterPrefix(steps, 2);
  }

  lemma LateResultSteps()
    ensures |LATE_RESULT| == 12 && LATE_RESULT[..12] == LATE_RESULT
    ensures LATE_RESULT[0] == Run(Registration) && LATE_RESULT[1] == Return && LATE_RESULT[2] == Reaction
    ensures LATE_RESULT[3] == Return && LATE_RESULT[4] == WorkSettles(0, Fulfilled) && LATE_RESULT[5] == Reaction
    ensures LATE_RESULT[6] == Reaction && LATE_RESULT[7] == Run(Authentication) && LATE_RESULT[8] == Return
    ensures LATE_RESULT[9] == Reaction && LATE_RESULT[10] == Return && LATE_RESULT[11] == Reaction
  {
  }

  lemma LateResultSettles()
    ensures var s := After(LATE_RESULT[..6]);
            && s.active == None && s.stack == [] && s.queue == [RaceWork(0)]
            && s.ops == [QUEUEING.(work := Settled(Fulfilled))] && s.log == SHOWN_FIRST
  {
    LateResultSteps();
    hide After, LATE_RESULT;
    AfterThree(LATE_RESULT);
    var s3 := WORKING;
    var s4 := s3.(stack := []);
    assert Next(s3, Return) == s4;
    var settled := s4.ops[0].(work := Settled(Fulfilled));
    var s5 := s4.(ops := [settled], queue := [Clear(0), RaceWork(0)]);
    assert Next(s4, WorkSettles(0, Fulfilled)) == s5 by {
      assert s4.ops[0 := settled] == [settled];
    }
    var s6 := s5.(active := None, queue := [RaceWork(0)]);
    assert Next(s5, Reaction) == s6;
    hide Next;
    AfterPrefix(LATE_RESULT, 3);
    AfterPrefix(LATE_RESULT, 4);
    AfterPrefix(LATE_RESULT, 5);
  }

  lemma LateResultAccepted()
    ensures var s := After(LATE_RESULT[..9]);
            var raced := QUEUEING.(work := Settled(Fulfilled), stage := ThenQueued(Fulfilled));
            && s.active == Some(1) && s.stack == [] && s.queue == [Then(0), Start(1)]
            && s.ops == [raced, Operation(Authentication, false, false, false, Queued, Racing)]
            && s.log == SHOWN_FIRST + [Entry(1, Pending(Authentication))]
  {
    LateResultSteps();
    LateResultSettles();
    hide After, LATE_RESULT;
    var s6 := After(LATE_RESULT[..6]);
    var raced, second := s6.ops[0].(stage := ThenQueued(Fulfilled)), Fresh(Authentication);
    var s7 := s6.(ops := [raced], queue := [Then(0)]);
    assert Next(s6, Reaction) == s7 by {
      assert s6.ops[0 := raced] == [raced];
    }
    var p := Pending(Authentication);
    var s8 := State(Some(1), p, [raced, second], [Then(0)], [AfterPending(1)], s6.log + [Entry(1, p)]);
    assert Next(s7, Run(Authentication)) == s8 by {
      assert s7.ops + [second] == [raced, second];
    }
    var queued := second.(work := Queued, stage := Racing);
    var s9 := s8.(ops := [raced, queued], queue := [Then(0), Start(1)], stack := []);
    assert Next(s8, Return) == s9 by {
      assert s8.ops[1 := queued] == [raced, queued];
    }
    hide Next, Fresh;
    AfterPrefix(LATE_RESULT, 6);
    AfterPrefix(LATE_RESULT, 7);
    AfterPrefix(LATE_RESULT, 8);
  }

  /** The registration's success goes on display, and its listeners return. */
  lemma LateSuccess(s: State) returns (t: State)
    requires WellFormed(s) && s.stack == [] && s.queue == [Then(0), Start(1)] && |s.ops| == 2
    requires s.ops[0].stage == ThenQueued(Fulfilled) && !s.ops[0].cancelled
    ensures t == Next(Next(s, Reaction), Return) && WellFormed(t)
    ensures t.shown == Presentation.Success(s.ops[0].kind) && t.active == s.active && |t.ops| == 2
    ensures t.ops[1] == s.ops[1] && t.stack == [] && t.queue == [Start(1), Pass(0)]
  {
    LateThen(s);
    var u := Next(s, Reaction);
    LateReturn(u);
    hide Next;
    t := Next(u, Return);
  }

  lemma LateThen(s: State)
    requires WellFormed(s) && s.stack == [] && s.queue == [Then(0), Start(1)] && |s.ops| == 2
    requires s.ops[0].stage == ThenQueued(Fulfilled) && !s.ops[0].cancelled
    ensures var u := Next(s, Reaction);
            && u.stack == [AfterSuccess(0)] && u.queue == [Start(1)] && |u.ops| == 2 && u.ops[1] == s.ops[1]
            && u.shown == Presentation.Success(s.ops[0].kind) && u.active == s.active
  {
  }

  lemma LateReturn(s: State)
    requires WellFormed(s) && s.stack == [AfterSuccess(0)] && s.queue == [Start(1)] && |s.ops| == 2
    ensures var t := Next(s, Return);
            && t.stack == [] && t.queue == [Start(1), Pass(0)] && |t.ops| == 2 && t.ops[1] == s.ops[1]
            && t.shown == s.shown && t.active == s.active
  {
  }

  lemma LateStart(s: State)
    requires WellFormed(s) && s.stack == [] && s.queue == [Start(1), Pass(0)] && |s.ops| == 2 && s.active == Some(1)
    requires s.shown.Success? && !s.ops[1].cancelled
    ensures var t := Next(s, Reaction);
            && t.shown == s.shown && t.active == Some(1) && |t.ops| == 2
            && t.ops[1].work.Running? && !t.ops[1].cancelled && CallCancel(t) == t && HostMayAct(t)
  {
  }

  /**
   A run in which `cancel` is ignored: the authentication's work is running and
   is not cancelled, but the display shows the registration's success.
   */
  lemma CancelCanBeIgnored()
    ensures var s := After(LATE_RESULT);
            && s.active == Some(1) && s.ops[1].work.Running? && !s.ops[1].cancelled && HostMayAct(s)
            && s.shown == Presentation.Success(Registration) && CallCancel(s) == s
  {
    LateResultSteps();
    LateResultAccepted();
    hide After, LATE_RESULT, Next, CallCancel;
    var s11 := LateSuccess(After(LATE_RESULT[..9]));
    LateStart(s11);
    AfterPrefix(LATE_RESULT, 9);
    AfterPrefix(LATE_RESULT, 10);
    AfterPrefix(LATE_RESULT, 11);
  }

  /** `cancel` while the work runs, and `cancel` again from an abort listener of its signal. */
  const TWO_CANCELS: seq<Step> := [Run(Registration), Return, Reaction, Return, Cancel, Cancel, Return, Return]

  lemma TwoCancelsSteps()
    ensures |TWO_CANCELS| == 8 && TWO_CANCELS[..8] == TWO_CANCELS
    ensures TWO_CANCELS[0] == Run(Registration) && TWO_CANCELS[1] == Return && TWO_CANCELS[2] == Reaction
    ensures TWO_CANCELS[3] == Return && TWO_CANCELS[4] == Cancel && TWO_CANCELS[5] == Cancel
    ensures TWO_CANCELS[6] == Return && TWO_CANCELS[7] == Return
  {
  }

  const CANCELLING: State :=
    WORKING.(ops := [Operation(Registration, true, true, false, Running, Racing)], stack := [AfterAbort(0)])

  lemma FirstCancel()
    ensures After(TWO_CANCELS[..5]) == CANCELLING
  {
    TwoCancelsSteps();
    hide After, TWO_CANCELS;
    AfterThree(TWO_CANCELS);
    var s4 := WORKING.(stack := []);
    assert Next(WORKING, Return) == s4;
    var op := CANCELLING.ops[0];
    assert Next(s4, Cancel) == CANCELLING by {
      assert s4.ops[0 := op] == [op];
    }
    hide Next;
    AfterPrefix(TWO_CANCELS, 3);
    AfterPrefix(TWO_CANCELS, 4);
  }

  /** A run that publishes two terminal states for one operation. */
  lemma TwoTerminalStates()
    ensures var s := After(TWO_CANCELS);
            && 0 in CancelledFromAbortListener(TWO_CANCELS)
            && s.log == [Entry(0, Pending(Registration)), Entry(0, Error(Registration, Aborted)),
                         Entry(0, Error(Registration, Aborted))]
  {
    TwoCancelsSteps();
    FirstCancel();
    hide After, TWO_CANCELS, CancelledFromAbortListener;
    var p, e := Entry(0, Pending(Registration)), Entry(0, Error(Registration, Aborted));
    var s5 := CANCELLING;
    var aborted := s5.ops[0];
    assert 0 in Recancels(s5, TWO_CANCELS[5]);
    ListenerCancelsStay(TWO_CANCELS, 5, 0);
    var s6 := s5.(shown := e.state, stack := [AfterAbort(0), AfterCancelled(0)], log := [p, e]);
    assert Next(s5, Cancel) == s6 by {
      assert s5.ops[0 := aborted] == [aborted];
    }
    var rejected := aborted.(rejected := true);
    var s7 := s6.(ops := [rejected], queue := [RaceCancel(0)], stack := [AfterAbort(0)]);
    assert Next(s6, Return) == s7 by {
      assert s6.ops[0 := rejected] == [rejected] && s6.stack[..1] == [AfterAbort(0)];
    }
    assert Next(s7, Return).log == [p, e, e];
    hide Next;
    AfterPrefix(TWO_CANCELS, 5);
    AfterPrefix(TWO_CANCELS, 6);
    AfterPrefix(TWO_CANCELS, 7);
  }

  lemma {:induction false} ListenerCancelsStay(steps: seq<Step>, k: nat, id: nat)
    requires k < |steps| && id in Recancels(After(steps[..k]), steps[k])
    ensures id in CancelledFromAbortListener(steps)
    decreases |steps|
  {
    hide After, Recancels;
    var n := |steps| - 1;
    if k < n {
      assert steps[..n][..k] == steps[..k];
      ListenerCancelsStay(steps[..n], k, id);
    }
  }

  // ---------------------------------------------------------------------
  // Where host code may run

  /** Every race reaction that waits behind another reaction waits right behind its operation's clearing one. */
  predicate RacesFollowClears(q: seq<Job>) {
    forall i :: 0 < i < |q| && q[i].RaceWork? ==> q[i - 1] == Clear(q[i].id)
  }

  lemma RacesFollowAppended(q: seq<Job>, added: seq<Job>)
    requires RacesFollowClears(q)
    requires added != [] ==> !added[0].RaceWork?
    requires RacesFollowClears(added)
    ensures RacesFollowClears(q + added)
  {
    var r := q + added;
    forall i | 0 < i < |r| && r[i].RaceWork? ensures r[i - 1] == Clear(r[i].id) {
      if i >= |q| {
        assert r[i] == added[i - |q|];
        if i > |q| {
          assert r[i - 1] == added[i - 1 - |q|];
        }
      }
    }
  }

  predicate RaceIsNext(s: State) {
    s.queue != [] && s.queue[0].RaceWork?
  }

  /** What a step appends to the queue never starts with a race reaction, and keeps the order. */
  lemma StepQueue(s: State, step: Step) returns (kept: seq<Job>, added: seq<Job>)
    requires WellFormed(s)
    ensures kept == if step.Reaction? && Enabled(s, step) then s.queue[1..] else s.queue
    ensures Next(s, step).queue == kept + added
    ensures RacesFollowClears(added) && (added != [] ==> !added[0].RaceWork?)
    ensures RaceIsNext(s) && s.stack == [] && !step.Reaction? ==> Next(s, step) == s
  {
    var t := Next(s, step);
    kept := if step.Reaction? && Enabled(s, step) then s.queue[1..] else s.queue;
    added := [];
    if !Enabled(s, step) {
      assert kept + added == kept;
    } else {
      match step
      case Run(kind) => assert kept + added == kept;
      case Cancel => assert kept + added == kept;
      case Return => added := ReturnQueue(s);
      case Reaction => added := ReactionQueue(s);
      case WorkSettles(id, _) => added := [Clear(id), RaceWork(id)];
    }
  }

  lemma ReturnQueue(s: State) returns (added: seq<Job>)
    requires WellFormed(s) && s.stack != []
    ensures HostReturns(s).queue == s.queue + added
    ensures RacesFollowClears(added) && (added != [] ==> !added[0].RaceWork?)
  {
    var top := s.stack[|s.stack| - 1];
    var op := s.ops[top.id];
    added := [];
    assert s.queue + [] == s.queue;
    if top.AfterPending? {
      added := if op.rejected then [Start(top.id), RaceCancel(top.id)] else [Start(top.id)];
    } else if top.AfterCancelled? && !op.rejected && !op.stage.Unraced? {
      added := [RaceCancel(top.id)];
    } else if top.AfterSuccess? {
      added := [Pass(top.id)];
    }
  }

  lemma ReactionQueue(s: State) returns (added: seq<Job>)
    requires WellFormed(s) && s.queue != []
    ensures Microtask(s).queue == s.queue[1..] + added
    ensures RacesFollowClears(added) && (added != [] ==> !added[0].RaceWork?)
  {
    var job := s.queue[0];
    var op := s.ops[job.id];
    assert s.queue[1..] + [] == s.queue[1..];
    added := [];
    if (job.RaceCancel? || (job.RaceWork? && op.work.Settled?)) && op.stage.Racing? {
      added := [Then(job.id)];
    } else if job.Then? && op.stage.ThenQueued? && (op.stage.settled.Rejected? || op.cancelled) {
      added := [Catch(job.id)];
    }
  }

  /** Only running the clearing reaction of the same operation brings a race reaction to the head of the queue. */
  lemma OnlyClearUncoversRace(s: State, step: Step)
    requires WellFormed(s) && RacesFollowClears(s.queue) && !RaceIsNext(s) && RaceIsNext(Next(s, step))
    ensures step.Reaction? && s.stack == [] && s.queue[0] == Clear(Next(s, step).queue[0].id)
    ensures Next(s, step).stack == []
  {
    var kept, added := StepQueue(s, step);
    assert kept != [] && step.Reaction? && Enabled(s, step);
    assert s.queue[1] == Next(s, step).queue[0];
  }

  /**
   In every run, a race reaction that is next in the queue finds the stack
   empty, right after the clearing reaction it was queued with, and it is the
   only thing that can happen.
   */
  lemma {:induction false} RaceRunsRightAfterClear(steps: seq<Step>)
    ensures var s := After(steps);
            && RacesFollowClears(s.queue)
            && (RaceIsNext(s) ==> s.stack == [] && forall step :: Enabled(s, step) ==> step.Reaction?)
  {
    if steps != [] {
      var s, step := After(steps[..|steps| - 1]), steps[|steps| - 1];
      RaceRunsRightAfterClear(steps[..|steps| - 1]);
      var kept, added := StepQueue(s, step);
      hide After, Next, RacesFollowClears;
      KeptInOrder(s.queue, kept);
      RacesFollowAppended(kept, added);
      if RaceIsNext(Next(s, step)) {
        AfterRaceIsNext(s, step);
      }
    }
  }

  lemma KeptInOrder(q: seq<Job>, kept: seq<Job>)
    requires RacesFollowClears(q) && (kept == q || (q != [] && kept == q[1..]))
    ensures RacesFollowClears(kept)
  {
  }

  lemma AfterRaceIsNext(s: State, step: Step)
    requires WellFormed(s) && RacesFollowClears(s.queue) && (RaceIsNext(s) ==> s.stack == [])
    requires RaceIsNext(Next(s, step))
    ensures Next(s, step).stack == []
  {
    if RaceIsNext(s) {
      var kept, added := StepQueue(s, step);
    } else {
      OnlyClearUncoversRace(s, step);
    }
  }
}
