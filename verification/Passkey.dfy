/**
 The passkey presentation controller as a step machine. Host code (the work
 callback, presentation listeners, abort listeners) may call `run` and `cancel`
 again before it returns, so a stack keeps what the controller does when each
 piece of host code is over. Promise reactions wait in one first-in-first-out
 queue and run only when the stack is empty.
 */
module Passkey {
  import opened Common

  datatype Code =
    | InsecureContext | Unsupported | InvalidOptions | InvalidMode | NoCredential | InvalidCredential
    | CredentialApiFailure | OperationInProgress | Aborted | FallbackNotAcknowledged

  /** What a promise may be rejected with. */
  datatype Reason = ClientError(code: Code) | AbortError | OtherError

  function PresentationCode(e: Reason): Code {
    match e
    case ClientError(code) => code
    case AbortError => Aborted
    case OtherError => CredentialApiFailure
  }

  datatype Kind = Registration | Authentication

  datatype Presentation = Idle | Pending(kind: Kind) | Success(kind: Kind) | Error(kind: Kind, code: Code)

  datatype Settlement = Fulfilled | Rejected(reason: Reason)

  datatype Work = NotCreated | Queued | Running | Settled(result: Settlement)

  datatype Outcome = Resolved | RejectedWith(code: Code)

  /** How far the promise that `run` returned has come. */
  datatype Stage =
    | Unraced | Racing | ThenQueued(settled: Settlement) | Succeeding | CatchQueued(reason: Reason)
    | Failing(code: Code) | PassQueued | Done(outcome: Outcome)

  /** `rejected` says whether the cancellation promise has been rejected. */
  datatype Operation = Operation(kind: Kind, cancelled: bool, aborted: bool, rejected: bool, work: Work, stage: Stage)

  /** Promise reactions, in the order they were queued. */
  datatype Job =
    | Start(id: nat) | Clear(id: nat) | RaceWork(id: nat) | RaceCancel(id: nat)
    | Then(id: nat) | Catch(id: nat) | Pass(id: nat)

  /** Running host code, named by what the controller does once it returns. */
  datatype Frame =
    | AfterPending(id: nat) | AfterAbort(id: nat) | AfterCancelled(id: nat)
    | AfterWorkCall(id: nat) | AfterSuccess(id: nat) | AfterError(id: nat)

  datatype Entry = Entry(id: nat, state: Presentation)

  /** `log` is every state published so far, with the operation it belongs to. */
  datatype State = State(active: Option<nat>, shown: Presentation, ops: seq<Operation>,
                         queue: seq<Job>, stack: seq<Frame>, log: seq<Entry>)

  const INITIAL := State(None, Idle, [], [], [], [])

  predicate WellFormed(s: State) {
    && (s.active.Some? ==> s.active.value < |s.ops|)
    && (forall i :: 0 <= i < |s.queue| ==> s.queue[i].id < |s.ops|)
    && (forall i :: 0 <= i < |s.stack| ==> s.stack[i].id < |s.ops|)
    && (forall i :: 0 <= i < |s.log| ==> s.log[i].id < |s.ops|)
  }

  /** `t` may follow `s`: operations and published states are never forgotten. */
  predicate Grows(s: State, t: State) {
    WellFormed(t) && |s.ops| <= |t.ops| && s.log <= t.log
  }

  // ---------------------------------------------------------------------
  // Steps

  function Publish(s: State, id: nat, p: Presentation, continuation: Frame): (t: State)
    requires WellFormed(s) && id < |s.ops| && continuation.id == id
    ensures Grows(s, t)
  {
    s.(shown := p, log := s.log + [Entry(id, p)], stack := s.stack + [continuation])
  }

  function CallRun(s: State, kind: Kind): (t: State)
    requires WellFormed(s)
    ensures Grows(s, t)
  {
    if s.active.Some? then s
    else
      var id := |s.ops|;
      var op := Operation(kind, false, false, false, NotCreated, Unraced);
      var accepted := s.(active := Some(id), ops := s.ops + [op]);
      Publish(accepted, id, Pending(kind), AfterPending(id))
  }

  function AnnounceAbort(s: State, id: nat): (t: State)
    requires WellFormed(s) && id < |s.ops|
    ensures Grows(s, t)
  {
    Publish(s, id, Error(s.ops[id].kind, Aborted), AfterCancelled(id))
  }

  predicate CancelTakesEffect(s: State) {
    s.shown.Pending? && s.active.Some?
  }

  /** The work callback has been given the signal, so the host may listen to it. */
  predicate SignalHandedOut(op: Operation) {
    op.work.Running? || op.work.Settled?
  }

  /** Abort listeners run at the first abort of a signal only, and only once the host has the signal. */
  function CallCancel(s: State): (t: State)
    requires WellFormed(s)
    ensures Grows(s, t)
  {
    if !CancelTakesEffect(s) then s
    else
      var id := s.active.value;
      var op := s.ops[id];
      var cancelled := s.(ops := s.ops[id := op.(cancelled := true, aborted := true)]);
      if op.aborted || !SignalHandedOut(op) then AnnounceAbort(cancelled, id)
      else cancelled.(stack := s.stack + [AfterAbort(id)])
  }

  function SetOp(s: State, id: nat, op: Operation, added: seq<Job>): (t: State)
    requires WellFormed(s) && id < |s.ops| && forall i :: 0 <= i < |added| ==> added[i].id == id
    ensures Grows(s, t)
  {
    s.(ops := s.ops[id := op], queue := s.queue + added)
  }

  /** The innermost host code returns. */
  function HostReturns(s: State): (t: State)
    requires WellFormed(s) && s.stack != []
    ensures Grows(s, t)
  {
    var top := s.stack[|s.stack| - 1];
    var id := top.id;
    var op := s.ops[id];
    var popped := s.(stack := s.stack[..|s.stack| - 1]);
    match top
    case AfterPending(_) =>
      SetOp(popped, id, op.(work := Queued, stage := Racing),
            if op.rejected then [Start(id), RaceCancel(id)] else [Start(id)])
    case AfterAbort(_) => AnnounceAbort(popped, id)
    case AfterCancelled(_) =>
      if op.rejected then popped
      else SetOp(popped, id, op.(rejected := true), if op.stage.Unraced? then [] else [RaceCancel(id)])
    case AfterWorkCall(_) => popped
    case AfterSuccess(_) => SetOp(popped, id, op.(stage := PassQueued), [Pass(id)])
    case AfterError(_) =>
      if op.stage.Failing? then SetOp(popped, id, op.(stage := Done(RejectedWith(op.stage.code))), []) else popped
  }

  function SettleRace(s: State, id: nat, with: Settlement): (t: State)
    requires WellFormed(s) && id < |s.ops|
    ensures Grows(s, t)
  {
    if s.ops[id].stage.Racing? then SetOp(s, id, s.ops[id].(stage := ThenQueued(with)), [Then(id)]) else s
  }

  function RunThen(s: State, id: nat): (t: State)
    requires WellFormed(s) && id < |s.ops|
    ensures Grows(s, t)
  {
    var op := s.ops[id];
    if !op.stage.ThenQueued? then s
    else if op.stage.settled.Rejected? then
      SetOp(s, id, op.(stage := CatchQueued(op.stage.settled.reason)), [Catch(id)])
    else if op.cancelled then SetOp(s, id, op.(stage := CatchQueued(ClientError(Aborted))), [Catch(id)])
    else Publish(SetOp(s, id, op.(stage := Succeeding), []), id, Presentation.Success(op.kind), AfterSuccess(id))
  }

  function RunCatch(s: State, id: nat): (t: State)
    requires WellFormed(s) && id < |s.ops|
    ensures Grows(s, t)
  {
    var op := s.ops[id];
    if !op.stage.CatchQueued? then s
    else if op.cancelled then SetOp(s, id, op.(stage := Done(RejectedWith(Aborted))), [])
    else
      var code := PresentationCode(op.stage.reason);
      Publish(SetOp(s, id, op.(stage := Failing(code)), []), id, Error(op.kind, code), AfterError(id))
  }

  /** The first queued reaction runs. */
  function Microtask(s: State): (t: State)
    requires WellFormed(s) && s.queue != []
    ensures Grows(s, t)
  {
    var id := s.queue[0].id;
    var op := s.ops[id];
    var popped := s.(queue := s.queue[1..]);
    match s.queue[0]
    case Start(_) =>
      var started := SetOp(popped, id, op.(work := Running), []);
      started.(stack := started.stack + [AfterWorkCall(id)])
    case Clear(_) => popped.(active := if s.active == Some(id) then None else s.active)
    case RaceWork(_) => if op.work.Settled? then SettleRace(popped, id, op.work.result) else popped
    case RaceCancel(_) => SettleRace(popped, id, Rejected(ClientError(Aborted)))
    case Then(_) => RunThen(popped, id)
    case Catch(_) => RunCatch(popped, id)
    case Pass(_) => SetOp(popped, id, op.(stage := Done(Resolved)), [])
  }

  /** The promise of operation `id`'s work settles; the clearing reaction was registered first. */
  function Settle(s: State, id: nat, result: Settlement): (t: State)
    requires WellFormed(s) && id < |s.ops|
    ensures Grows(s, t)
  {
    SetOp(s, id, s.ops[id].(work := Settled(result)), [Clear(id), RaceWork(id)])
  }

  datatype Step = Run(kind: Kind) | Cancel | Return | Reaction | WorkSettles(id: nat, result: Settlement)

  /**
   No host code runs between the two reactions that a settled work queues back
   to back, the clearing one and the race's; everywhere else it may.
   */
  predicate HostMayAct(s: State) {
    s.stack == [] && s.queue != [] ==> !s.queue[0].RaceWork?
  }

  /** Reactions and settlements need an empty stack. */
  predicate Enabled(s: State, step: Step) {
    match step
    case Run(_) => HostMayAct(s)
    case Cancel => HostMayAct(s)
    case Return => s.stack != []
    case Reaction => s.stack == [] && s.queue != []
    case WorkSettles(id, _) => HostMayAct(s) && s.stack == [] && id < |s.ops| && s.ops[id].work.Running?
  }

  /** A step that is not enabled is skipped, so every list of steps is a run. */
  function Next(s: State, step: Step): (t: State)
    requires WellFormed(s)
    ensures Grows(s, t)
  {
    if !Enabled(s, step) then s
    else
      match step
      case Run(kind) => CallRun(s, kind)
      case Cancel => CallCancel(s)
      case Return => HostReturns(s)
      case Reaction => Microtask(s)
      case WorkSettles(id, result) => Settle(s, id, result)
  }

  function After(steps: seq<Step>): (s: State)
    ensures WellFormed(s)
  {
    if steps == [] then INITIAL else Next(After(steps[..|steps| - 1]), steps[|steps| - 1])
  }

  /** The states published for one operation, in order. */
  function Published(log: seq<Entry>, id: nat): seq<Presentation> {
    if log == [] then []
    else
      var last := log[|log| - 1];
      Published(log[..|log| - 1], id) + if last.id == id then [last.state] else []
  }

  /**
   The operations whose cancellation was asked for again while the abort
   listeners of the first `cancel` were still running.
   */
  function CancelledFromAbortListener(steps: seq<Step>): set<nat> {
    if steps == [] then {}
    else
      var before := After(steps[..|steps| - 1]);
      CancelledFromAbortListener(steps[..|steps| - 1]) + Recancels(before, steps[|steps| - 1])
  }

  function Recancels(s: State, step: Step): set<nat>
    requires WellFormed(s)
  {
    if step.Cancel? && Enabled(s, step) && CancelTakesEffect(s) && s.ops[s.active.value].aborted
    then {s.active.value}
    else {}
  }

  // ---------------------------------------------------------------------
  // The controller

  class PasskeyController {
    var activeOperation: Option<nat>
    var state: Presentation
    var operations: seq<Operation>
    var reactions: seq<Job>
    var calls: seq<Frame>
    ghost var published: seq<Entry>

    ghost function Now(): State
      reads this
    {
      State(activeOperation, state, operations, reactions, calls, published)
    }

    constructor ()
      ensures Now() == INITIAL && WellFormed(Now())
    {
      activeOperation := None;
      state := Idle;
      operations := [];
      reactions := [];
      calls := [];
      published := [];
    }

    /** Sets the state and calls the listeners; the rest of the caller runs when they have returned. */
    method PublishState(id: nat, next: Presentation, continuation: Frame)
      requires WellFormed(Now()) && id < |operations| && continuation.id == id
      modifies this
      ensures Now() == Publish(old(Now()), id, next, continuation)
    {
      state := next;
      published := published + [Entry(id, next)];
      calls := calls + [continuation];
    }

    method Run(kind: Kind) returns (r: Result<nat, Code>)
      requires WellFormed(Now())
      modifies this
      ensures Now() == CallRun(old(Now()), kind) && WellFormed(Now())
      ensures r == if old(activeOperation).Some? then Failure(OperationInProgress)
                   else Result.Success(|old(operations)|)
      ensures r.Success? ==>
                && activeOperation == Some(r.value) && operations[..r.value] == old(operations)
                && operations[r.value].kind == kind && !operations[r.value].cancelled && state == Pending(kind)
                && published == old(published) + [Entry(r.value, Pending(kind))]
    {
      if activeOperation != None {
        return Failure(OperationInProgress);
      }
      var id := |operations|;
      operations := operations + [Operation(kind, false, false, false, NotCreated, Unraced)];
      activeOperation := Some(id);
      PublishState(id, Pending(kind), AfterPending(id));
      return Result.Success(id);
    }

    method Cancel()
      requires WellFormed(Now())
      modifies this
      ensures Now() == CallCancel(old(Now())) && WellFormed(Now())
    {
      if !state.Pending? || activeOperation == None {
        return;
      }
      var id := activeOperation.value;
      var active := operations[id];
      operations := operations[id := active.(cancelled := true, aborted := true)];
      if active.aborted || !SignalHandedOut(active) {
        PublishState(id, Error(active.kind, Aborted), AfterCancelled(id));
      } else {
        calls := calls + [AfterAbort(id)];
      }
    }

    /** The innermost piece of host code returns, and the controller goes on. */
    method ReturnFromHost()
      requires WellFormed(Now()) && calls != []
      modifies this
      ensures Now() == HostReturns(old(Now())) && WellFormed(Now())
    {
      var top := calls[|calls| - 1];
      var id := top.id;
      var op := operations[id];
      calls := calls[..|calls| - 1];
      match top {
        case AfterPending(_) =>
          operations := operations[id := op.(work := Queued, stage := Racing)];
          reactions := reactions + [Start(id)];
          if op.rejected {
            reactions := reactions + [RaceCancel(id)];
          }
          assert (old(reactions) + [Start(id)]) + [RaceCancel(id)] == old(reactions) + [Start(id), RaceCancel(id)];
        case AfterAbort(_) =>
          PublishState(id, Error(op.kind, Aborted), AfterCancelled(id));
        case AfterCancelled(_) =>
          if !op.rejected {
            operations := operations[id := op.(rejected := true)];
            if !op.stage.Unraced? {
              reactions := reactions + [RaceCancel(id)];
            } else {
              assert reactions + [] == reactions;
            }
          }
        case AfterWorkCall(_) =>
        case AfterSuccess(_) =>
          operations := operations[id := op.(stage := PassQueued)];
          reactions := reactions + [Pass(id)];
        case AfterError(_) =>
          if op.stage.Failing? {
            operations := operations[id := op.(stage := Done(RejectedWith(op.stage.code)))];
            assert reactions + [] == reactions;
          }
      }
    }

    /** Runs the reaction at the head of the queue. */
    method RunReaction()
      requires WellFormed(Now()) && calls == [] && reactions != []
      modifies this
      ensures Now() == Microtask(old(Now())) && WellFormed(Now())
    {
      var job := reactions[0];
      var id := job.id;
      reactions := reactions[1..];
      assert reactions + [] == reactions;
      match job {
        case Start(_) =>
          operations := operations[id := operations[id].(work := Running)];
          calls := calls + [AfterWorkCall(id)];
        case Clear(_) =>
          if activeOperation == Some(id) {
            activeOperation := None;
          }
        case RaceWork(_) =>
          if operations[id].work.Settled? {
            RaceSettles(id, operations[id].work.result);
          }
        case RaceCancel(_) =>
          RaceSettles(id, Rejected(ClientError(Aborted)));
        case Then(_) =>
          OnSettled(id);
        case Catch(_) =>
          OnRejected(id);
        case Pass(_) =>
          operations := operations[id := operations[id].(stage := Done(Resolved))];
      }
    }

    method RaceSettles(id: nat, with: Settlement)
      requires WellFormed(Now()) && id < |operations|
      modifies this
      ensures Now() == SettleRace(old(Now()), id, with)
    {
      if operations[id].stage.Racing? {
        operations := operations[id := operations[id].(stage := ThenQueued(with))];
        reactions := reactions + [Then(id)];
      }
    }

    /** The callback of `then`, or the passing on of a rejection. */
    method OnSettled(id: nat)
      requires WellFormed(Now()) && id < |operations|
      modifies this
      ensures Now() == RunThen(old(Now()), id)
    {
      var op := operations[id];
      if !op.stage.ThenQueued? {
        return;
      }
      match op.stage.settled {
        case Rejected(reason) =>
          operations := operations[id := op.(stage := CatchQueued(reason))];
          reactions := reactions + [Catch(id)];
        case Fulfilled =>
          if op.cancelled {
            operations := operations[id := op.(stage := CatchQueued(ClientError(Aborted)))];
            reactions := reactions + [Catch(id)];
          } else {
            operations := operations[id := op.(stage := Succeeding)];
            assert reactions + [] == reactions;
            PublishState(id, Presentation.Success(op.kind), AfterSuccess(id));
          }
      }
    }

    /** The callback of `catch`. */
    method OnRejected(id: nat)
      requires WellFormed(Now()) && id < |operations|
      modifies this
      ensures Now() == RunCatch(old(Now()), id)
    {
      var op := operations[id];
      if !op.stage.CatchQueued? {
        return;
      }
      assert reactions + [] == reactions;
      if op.cancelled {
        operations := operations[id := op.(stage := Done(RejectedWith(Aborted)))];
      } else {
        var normalized := PresentationCode(op.stage.reason);
        operations := operations[id := op.(stage := Failing(normalized))];
        PublishState(id, Error(op.kind, normalized), AfterError(id));
      }
    }

    /** The work's promise settles: its two reactions are queued in the order they were registered. */
    method WorkSettled(id: nat, result: Settlement)
      requires WellFormed(Now()) && calls == [] && id < |operations| && operations[id].work.Running?
      modifies this
      ensures Now() == Settle(old(Now()), id, result) && WellFormed(Now())
    {
      operations := operations[id := operations[id].(work := Settled(result))];
      reactions := reactions + [Clear(id)];
      reactions := reactions + [RaceWork(id)];
      assert (old(reactions) + [Clear(id)]) + [RaceWork(id)] == old(reactions) + [Clear(id), RaceWork(id)];
    }
  }
}
