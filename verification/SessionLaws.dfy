/**
 The session seen from outside: after any run, what it holds, whether it is
 open and what it answers follow from the calls made and the answers given.
 */
module SessionLaws {
  import opened Common
  import opened Hangul
  import opened Session
  import Utf8

  /** A session as its caller sees it: how it was made, and the calls made on it. */
  datatype Use = Use(policy: InputPolicy, timeout: nat, start: int, ops: seq<Op>)

  function AnswerTo(u: Use, k: nat): Answer
    requires k < |u.ops|
  {
    AnswerAt(u.policy, u.timeout, u.start, u.ops, k)
  }

  function Now(u: Use, n: nat): State
    requires n <= |u.ops|
  {
    StateAt(u.policy, u.timeout, u.start, u.ops, n)
  }

  // ---------------------------------------------------------------------
  // The history

  /** A press, a backspace or a clear that the session accepted. */
  predicate IsAccepted(op: Op, r: Answer) {
    (op.PressKey? || op.Backspace? || op.Clear?) && r == Done
  }

  predicate Accepted(u: Use, k: nat)
    requires k < |u.ops|
  {
    IsAccepted(u.ops[k], AnswerTo(u, k))
  }

  /** What an accepted call leaves: a press adds its key, a backspace undoes the last, a clear undoes all. */
  function Left(policy: InputPolicy, before: seq<ResolvedKey>, op: Op, r: Answer): seq<ResolvedKey> {
    if !IsAccepted(op, r) then before
    else
      match op
      case PressKey(_, keyId, _) =>
        (match Resolve(policy, keyId)
         case Success(key) => before + [key]
         case Failure(_) => before)
      case Backspace(_, _) => if before == [] then [] else before[..|before| - 1]
      case _ => []
  }

  /** The keys that the accepted calls leave. */
  function Typed(u: Use, n: nat): seq<ResolvedKey>
    requires n <= |u.ops|
  {
    if n == 0 then [] else Left(u.policy, Typed(u, n - 1), u.ops[n - 1], AnswerTo(u, n - 1))
  }

  /** When the last accepted call was over, or else when the session was made. */
  function LastAccepted(u: Use, n: nat): int
    requires n <= |u.ops|
  {
    if n == 0 then u.start
    else if Accepted(u, n - 1) then u.ops[n - 1].done
    else LastAccepted(u, n - 1)
  }

  /** Call `k` comes when the timeout since the last accepted call is over. */
  predicate TooLate(u: Use, k: nat)
    requires k < |u.ops|
  {
    !u.ops[k].Cancel? && (u.timeout == 0 || u.ops[k].now >= LastAccepted(u, k) + u.timeout)
  }

  /** After call `k` the session cannot be open. */
  predicate Closes(u: Use, k: nat)
    requires k < |u.ops|
  {
    u.ops[k].Cancel? || AnswerTo(u, k).Submission? || TooLate(u, k)
  }

  ghost predicate NeverClosed(u: Use, n: nat)
    requires n <= |u.ops|
  {
    forall k: nat :: k < n ==> !Closes(u, k)
  }

  /** A submission was made, and no cancellation came after it. */
  ghost predicate SubmittedLast(u: Use, n: nat)
    requires n <= |u.ops|
  {
    exists j: nat :: j < n && AnswerTo(u, j).Submission? && NotCancelledSince(u, j, n)
  }

  ghost predicate NotCancelledSince(u: Use, j: nat, n: nat)
    requires n <= |u.ops|
  {
    forall k: nat :: j < k < n ==> !u.ops[k].Cancel?
  }

  // ---------------------------------------------------------------------
  // One call

  lemma PressOnOpen(policy: InputPolicy, timeout: nat, s: State, op: Op)
    requires s.Open? && op.PressKey? && timeout > 0 && op.now < s.lastActivity + timeout
    ensures var (t, r) := Step(policy, timeout, s, op);
            if |s.keys| >= policy.maxTokens then t == s && r == Error(LimitReached)
            else match Resolve(policy, op.keyId) {
                   case Failure(_) => t == s && r == Error(KeyRejected)
                   case Success(key) => t == Open(s.keys + [key], op.done) && r == Done
                 }
  {
    hide Resolve;
  }

  lemma OthersOnOpen(policy: InputPolicy, timeout: nat, s: State, op: Op)
    requires s.Open? && !op.PressKey? && !op.Cancel? && timeout > 0 && op.now < s.lastActivity + timeout
    ensures var (t, r) := Step(policy, timeout, s, op);
            match op {
              case Backspace(_, done) =>
                t == Open(if s.keys == [] then [] else s.keys[..|s.keys| - 1], done) && r == Done
              case Clear(_, done) => t == Open([], done) && r == Done
              case Refresh(_) => t == s && r == Shown(|Text(s.keys)|, if s.keys == [] then Empty else Masked)
              case Submit(_) =>
                if s.keys == [] then t == s && r == Error(NothingEntered)
                else t == Closed(Submitted) && r == Submission(Utf8.EncodeLossy(Text(s.keys)))
              case _ => true
            }
  {
    hide Text, Utf8.EncodeLossy;
  }

  /** A call on a session that is closed, or whose timeout is over. */
  lemma NotOpen(policy: InputPolicy, timeout: nat, s: State, op: Op)
    requires s.Closed? || op.Cancel? || timeout == 0 || op.now >= s.lastActivity + timeout
    ensures var (t, r) := Step(policy, timeout, s, op);
            && t == (if s.Closed? && !op.Cancel? then s else Closed(Cancelled))
            && r == match op {
                      case Cancel => Done
                      case Refresh(_) => Shown(0, t.display)
                      case _ => Error(Inactive)
                    }
  {
    hide Resolve, Text;
  }

  // ---------------------------------------------------------------------
  // Whole runs

  lemma Unfolds(u: Use, n: nat)
    requires n < |u.ops|
    ensures Now(u, 0) == Open([], u.start)
    ensures (Now(u, n + 1), AnswerTo(u, n)) == Step(u.policy, u.timeout, Now(u, n), u.ops[n])
  {
    hide Step;
  }

  lemma HistoryUnfolds(u: Use, n: nat)
    requires n < |u.ops|
    ensures NeverClosed(u, n + 1) <==> NeverClosed(u, n) && !Closes(u, n)
    ensures SubmittedLast(u, n + 1) <==> AnswerTo(u, n).Submission? || (SubmittedLast(u, n) && !u.ops[n].Cancel?)
  {
    hide AnswerTo, TooLate;
    assert NotCancelledSince(u, n, n + 1);
    if SubmittedLast(u, n) && !u.ops[n].Cancel? {
      var j: nat :| j < n && AnswerTo(u, j).Submission? && NotCancelledSince(u, j, n);
      assert NotCancelledSince(u, j, n + 1);
    }
    if SubmittedLast(u, n + 1) && !AnswerTo(u, n).Submission? {
      var j: nat :| j < n + 1 && AnswerTo(u, j).Submission? && NotCancelledSince(u, j, n + 1);
      assert j < n && NotCancelledSince(u, j, n);
    }
  }

  /** A call in time on an open session leaves it open with what the call leaves of its keys, or submits it. */
  lemma InTime(policy: InputPolicy, timeout: nat, s: State, op: Op)
    requires s.Open? && !op.Cancel? && timeout > 0 && op.now < s.lastActivity + timeout
    ensures var (t, r) := Step(policy, timeout, s, op);
            t == if r.Submission? then Closed(Submitted)
                 else Open(Left(policy, s.keys, op, r), if IsAccepted(op, r) then op.done else s.lastActivity)
  {
    hide Step, Resolve, Text, Utf8.EncodeLossy;
    if op.PressKey? {
      PressOnOpen(policy, timeout, s, op);
    } else {
      OthersOnOpen(policy, timeout, s, op);
    }
  }

  lemma TypedUnfolds(u: Use, n: nat)
    requires n < |u.ops|
    ensures Typed(u, n + 1) == Left(u.policy, Typed(u, n), u.ops[n], AnswerTo(u, n))
    ensures LastAccepted(u, n + 1)
            == if IsAccepted(u.ops[n], AnswerTo(u, n)) then u.ops[n].done else LastAccepted(u, n)
  {
    hide Left, AnswerTo;
  }

  lemma NothingYet(u: Use)
    ensures Now(u, 0) == Open(Typed(u, 0), LastAccepted(u, 0)) && NeverClosed(u, 0) && !SubmittedLast(u, 0)
  {
  }

  lemma ClosesUnfolds(u: Use, k: nat)
    requires k < |u.ops|
    ensures Closes(u, k)
            <==> u.ops[k].Cancel? || AnswerTo(u, k).Submission? || u.timeout == 0
                 || u.ops[k].now >= LastAccepted(u, k) + u.timeout
  {
    hide AnswerTo, LastAccepted;
  }

  /**
   The session is open exactly as long as nobody submitted or cancelled it and no
   call came after its timeout; it then holds the keys that the accepted calls
   leave. Once closed it shows a submission that was not followed by a
   cancellation, and a cancellation otherwise.
   */
  lemma {:induction false} StateFollowsHistory(u: Use, n: nat)
    requires n <= |u.ops|
    ensures Now(u, n) == if NeverClosed(u, n) then Open(Typed(u, n), LastAccepted(u, n))
                         else Closed(if SubmittedLast(u, n) then Submitted else Cancelled)
    ensures NeverClosed(u, n) ==> !SubmittedLast(u, n)
  {
    hide *;
    if n == 0 {
      NothingYet(u);
    } else {
      StateFollowsHistory(u, n - 1);
      Unfolds(u, n - 1);
      HistoryUnfolds(u, n - 1);
      TypedUnfolds(u, n - 1);
      ClosesUnfolds(u, n - 1);
      var s, op := Now(u, n - 1), u.ops[n - 1];
      if s.Closed? || op.Cancel? || u.timeout == 0 || op.now >= s.lastActivity + u.timeout {
        NotOpen(u.policy, u.timeout, s, op);
      } else {
        InTime(u.policy, u.timeout, s, op);
      }
    }
  }

  /** Every answer follows from the history. */
  lemma AnswersFollowHistory(u: Use, n: nat)
    requires n < |u.ops|
    ensures var open, keys, r := NeverClosed(u, n) && !u.ops[n].Cancel? && !TooLate(u, n), Typed(u, n), AnswerTo(u, n);
            match u.ops[n] {
              case PressKey(_, keyId, _) =>
                r == if !open then Error(Inactive)
                     else if |keys| >= u.policy.maxTokens then Error(LimitReached)
                     else if Resolve(u.policy, keyId).Failure? then Error(KeyRejected)
                     else Done
              case Backspace(_, _) => r == if open then Done else Error(Inactive)
              case Clear(_, _) => r == if open then Done else Error(Inactive)
              case Refresh(_) =>
                r == if open then Shown(|Text(keys)|, if keys == [] then Empty else Masked)
                     else Shown(0, if SubmittedLast(u, n) then Submitted else Cancelled)
              case Submit(_) =>
                if !open then r == Error(Inactive)
                else if keys == [] then r == Error(NothingEntered)
                else r.Submission? && Utf8.Decode(r.bytes) == Some(Text(keys))
              case Cancel => r == Done
            }
  {
    StateFollowsHistory(u, n);
    Unfolds(u, n);
    SubmissionDecodes(u, n);
    hide Now, AnswerTo, Step, NeverClosed, SubmittedLast, Resolve, Text, Utf8.Decode, Utf8.EncodeLossy, Typed;
    var s, op := Now(u, n), u.ops[n];
    if s.Closed? || op.Cancel? || u.timeout == 0 || op.now >= s.lastActivity + u.timeout {
      NotOpen(u.policy, u.timeout, s, op);
    } else if op.PressKey? {
      PressOnOpen(u.policy, u.timeout, s, op);
    } else {
      OthersOnOpen(u.policy, u.timeout, s, op);
    }
  }

  lemma SubmissionDecodes(u: Use, n: nat)
    requires n < |u.ops|
    ensures AnswerTo(u, n).Submission? ==>
              Now(u, n).Open? && Utf8.Decode(AnswerTo(u, n).bytes) == Some(Text(Now(u, n).keys))
  {
    hide StateAt, AnswerAt, Text, Utf8.Decode;
    if AnswerTo(u, n).Submission? {
      SubmitsOnce(u.policy, u.timeout, u.start, u.ops, n);
    }
  }

  /** A press that is accepted, and a backspace within the timeout of it, leave the keys as they were. */
  lemma BackspaceUndoesPress(u: Use, n: nat)
    requires n + 1 < |u.ops| && u.ops[n].PressKey? && AnswerTo(u, n) == Done
    requires u.ops[n + 1].Backspace? && u.timeout > 0 && u.ops[n + 1].now < u.ops[n].done + u.timeout
    ensures Now(u, n).Open? && Now(u, n + 1).Open? && Now(u, n + 2).Open?
    ensures exists key :: Resolve(u.policy, u.ops[n].keyId) == Result.Success(key)
                          && Now(u, n + 1).keys == Now(u, n).keys + [key]
    ensures Now(u, n + 2).keys == Now(u, n).keys && AnswerTo(u, n + 1) == Done
  {
    Unfolds(u, n);
    Unfolds(u, n + 1);
    hide Now, AnswerTo, Step, Resolve, Text;
    var s, op := Now(u, n), u.ops[n];
    if s.Closed? || op.Cancel? || u.timeout == 0 || op.now >= s.lastActivity + u.timeout {
      NotOpen(u.policy, u.timeout, s, op);
    } else {
      PressOnOpen(u.policy, u.timeout, s, op);
      OthersOnOpen(u.policy, u.timeout, Now(u, n + 1), u.ops[n + 1]);
    }
  }

  /** An accepted call at `done` keeps the session open for a call before `done + timeout` and for none from then on. */
  lemma AcceptedKeepsOpen(u: Use, n: nat)
    requires n + 1 < |u.ops| && Accepted(u, n) && u.timeout > 0 && !u.ops[n + 1].Cancel?
    ensures Now(u, n + 1).Open?
    ensures u.ops[n + 1].now >= u.ops[n].done + u.timeout <==> Now(u, n + 2) == Closed(Cancelled)
    ensures u.ops[n + 1].now < u.ops[n].done + u.timeout ==>
              Now(u, n + 2).Open? || (u.ops[n + 1].Submit? && Now(u, n + 2) == Closed(Submitted))
  {
    Unfolds(u, n);
    Unfolds(u, n + 1);
    hide Now, AnswerTo, Step, Resolve, Text;
    OneCall(u, n);
    OneCall(u, n + 1);
  }

  lemma OneCall(u: Use, n: nat)
    requires n < |u.ops|
    ensures var s, op, t, r := Now(u, n), u.ops[n], Now(u, n + 1), AnswerTo(u, n);
            if s.Closed? || op.Cancel? || u.timeout == 0 || op.now >= s.lastActivity + u.timeout then
              t == (if s.Closed? && !op.Cancel? then s else Closed(Cancelled)) && !Accepted(u, n)
            else
              && (t.Open? || (op.Submit? && t == Closed(Submitted)))
              && (Accepted(u, n) ==> t.Open? && t.lastActivity == op.done)
  {
    Unfolds(u, n);
    hide Now, AnswerTo, Step, Resolve, Text;
    var s, op := Now(u, n), u.ops[n];
    if s.Closed? || op.Cancel? || u.timeout == 0 || op.now >= s.lastActivity + u.timeout {
      NotOpen(u.policy, u.timeout, s, op);
    } else if op.PressKey? {
      PressOnOpen(u.policy, u.timeout, s, op);
    } else {
      OthersOnOpen(u.policy, u.timeout, s, op);
    }
  }
}
