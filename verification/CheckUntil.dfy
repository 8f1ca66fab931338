/**
 * RunCheckUntil: keep checking until a condition holds. Each poll runs the check and then the
 * condition; Eventually repeats polls until one returns no error, one says stop, or its context ends.
 */
module CheckUntil {
  import opened Common

  datatype Error = ContextCancelled | AssertionFailed(message: string)

  /** One run of an assertion function: was the context already done, which failures did it
      report through its Gomega, and what did it return. */
  datatype Assertion = Assertion(cancelled: bool, failures: seq<string>, result: bool)

  /** One poll, and whether Eventually saw its context done while waiting for the next one. */
  datatype Poll = Poll(check: Assertion, condition: Assertion, cancelledWait: bool)

  datatype PollError = NoError | Cancelled | StopTrying(cause: Error) | NotYet(cause: Error)

  /** How Eventually ends; Unfinished when the history so far has not decided it. */
  datatype Verdict =
    | Succeeded(poll: nat)
    | CheckFailed(poll: nat, cause: Error)
    | ContextEnded(poll: nat)
    | Unfinished

  // ---------- The code ----------

  /** The context was open, and the assertion returned true or had nothing to complain about. */
  predicate Passes(a: Assertion) { !a.cancelled && (a.result || a.failures == []) }

  function ErrorOf(a: Assertion): Option<Error> {
    if a.cancelled then Some(ContextCancelled)
    else if a.result || a.failures == [] then None
    else Some(AssertionFailed(a.failures[|a.failures| - 1]))
  }

  /** A failure matters only if the assertion returns false, and returning false matters only if a
      failure was recorded; the last recorded message wins. */
  method RunAssertion(a: Assertion) returns (err: Option<Error>)
    ensures err == ErrorOf(a)
    ensures err.None? <==> Passes(a)
    ensures err.None? <==> !a.cancelled && (a.result || a.failures == [])
    ensures err == Some(ContextCancelled) <==> a.cancelled
    ensures err.Some? && !a.cancelled ==> err.value == AssertionFailed(a.failures[|a.failures| - 1])
  {
    if a.cancelled {
      return Some(ContextCancelled);
    }
    err := None;
    for k := 0 to |a.failures|
      invariant err == if k == 0 then None else Some(AssertionFailed(a.failures[k - 1]))
    {
      err := Some(AssertionFailed(a.failures[k]));
    }
    if !a.result {
      return err;
    }
    return None;
  }

  /** The four-way decision of one poll. */
  function Decide(checkErr: Option<Error>, conditionErr: Option<Error>): PollError {
    if conditionErr.None? then NoError
    else if conditionErr.value.ContextCancelled? || (checkErr.Some? && checkErr.value.ContextCancelled?) then Cancelled
    else if checkErr.Some? then StopTrying(checkErr.value)
    else NotYet(conditionErr.value)
  }

  /** What the polls from k on lead to. */
  function VerdictOf(polls: seq<Poll>, k: nat): Verdict
    requires k <= |polls|
    decreases |polls| - k
  {
    if k == |polls| then Unfinished
    else
      match Decide(ErrorOf(polls[k].check), ErrorOf(polls[k].condition))
      case NoError => Succeeded(k)
      case StopTrying(cause) => CheckFailed(k, cause)
      case _ => if polls[k].cancelledWait then ContextEnded(k) else VerdictOf(polls, k + 1)
  }

  method RunCheckUntil(polls: seq<Poll>) returns (v: Verdict)
    ensures v == VerdictOf(polls, 0)
  {
    for k := 0 to |polls|
      invariant VerdictOf(polls, 0) == VerdictOf(polls, k)
    {
      var checkErr := RunAssertion(polls[k].check);
      var conditionErr := RunAssertion(polls[k].condition);
      match Decide(checkErr, conditionErr)
      case NoError => return Succeeded(k);
      case StopTrying(cause) => return CheckFailed(k, cause);
      case _ =>
        if polls[k].cancelledWait {
          return ContextEnded(k);
        }
    }
    return Unfinished;
  }

  lemma {:induction false} VerdictWithin(polls: seq<Poll>, k: nat)
    requires k <= |polls|
    ensures VerdictOf(polls, k).Succeeded? ==> VerdictOf(polls, k).poll < |polls|
    ensures VerdictOf(polls, k).ContextEnded? ==> VerdictOf(polls, k).poll < |polls|
    decreases |polls| - k
  {
    if k < |polls| {
      VerdictWithin(polls, k + 1);
    }
  }

  /** Success is at a poll that was made. */
  lemma SucceedsWithin(polls: seq<Poll>, k: nat)
    requires k >= |polls|
    ensures VerdictOf(polls, 0) != Succeeded(k)
  {
    VerdictWithin(polls, 0);
  }

  // ---------- Cancellation is monotone ----------

  /** The moments at which the context is observed, in order of time. */
  function Observed(polls: seq<Poll>, i: nat): bool
    requires i < 3 * |polls|
  {
    var p := polls[i / 3];
    if i % 3 == 0 then p.check.cancelled else if i % 3 == 1 then p.condition.cancelled else p.cancelledWait
  }

  /** Once the context is done, no later assertion finds it open. (Eventually may still pick its
      polling timer over the context, so a later wait can miss it.) */
  ghost predicate Monotone(polls: seq<Poll>) {
    forall i, j :: 0 <= i < j < 3 * |polls| && j % 3 != 2 && Observed(polls, i) ==> Observed(polls, j)
  }

  // ---------- Exactly how it ends ----------

  /** The poll goes on to the next one: the condition fails, the check holds, nobody saw a cancellation. */
  predicate GoesOn(p: Poll) {
    && !Passes(p.condition) && Passes(p.check)
    && !p.condition.cancelled && !p.cancelledWait
  }

  lemma MonotoneStep(polls: seq<Poll>, j: nat, k: nat)
    requires Monotone(polls) && j < k < |polls|
    requires polls[j].check.cancelled || polls[j].condition.cancelled || polls[j].cancelledWait
    ensures polls[k].check.cancelled && polls[k].condition.cancelled
  {
    var i := if polls[j].check.cancelled then 3 * j else if polls[j].condition.cancelled then 3 * j + 1 else 3 * j + 2;
    assert Observed(polls, i);
    assert Observed(polls, 3 * k) && Observed(polls, 3 * k + 1);
  }

  lemma MonotoneWithin(polls: seq<Poll>, k: nat)
    requires Monotone(polls) && k < |polls| && polls[k].check.cancelled
    ensures polls[k].condition.cancelled
  {
    assert Observed(polls, 3 * k);
    assert Observed(polls, 3 * k + 1);
  }

  /** After a cancellation the condition can no longer succeed, so neither can the whole. */
  lemma {:induction false} NoSuccessAfterCancellation(polls: seq<Poll>, k: nat)
    requires Monotone(polls) && k <= |polls|
    requires forall j :: k <= j < |polls| ==> polls[j].condition.cancelled
    ensures VerdictOf(polls, k).ContextEnded? || VerdictOf(polls, k).Unfinished?
    decreases |polls| - k
  {
    if k < |polls| {
      NoSuccessAfterCancellation(polls, k + 1);
    }
  }

  /** Peel off the polls that go on. */
  lemma {:induction false} SkipPrefix(polls: seq<Poll>, k: nat)
    requires k <= |polls| && forall j :: 0 <= j < k ==> GoesOn(polls[j])
    ensures VerdictOf(polls, 0) == VerdictOf(polls, k)
  {
    if k > 0 {
      SkipPrefix(polls, k - 1);
    }
  }

  /** The first poll that does not simply go on, if any. */
  lemma FirstStop(polls: seq<Poll>) returns (k: nat)
    ensures k <= |polls| && forall j :: 0 <= j < k ==> GoesOn(polls[j])
    ensures k < |polls| ==> !GoesOn(polls[k])
  {
    k := 0;
    while k < |polls| && GoesOn(polls[k])
      invariant k <= |polls| && forall j :: 0 <= j < k ==> GoesOn(polls[j])
    {
      k := k + 1;
    }
  }

  /** What happens at the first poll that does not go on settles everything. */
  lemma AtFirstStop(polls: seq<Poll>, k: nat)
    requires Monotone(polls) && k < |polls|
    requires (forall j :: 0 <= j < k ==> GoesOn(polls[j])) && !GoesOn(polls[k])
    ensures var v := VerdictOf(polls, 0);
            if Passes(polls[k].condition) then v == Succeeded(k)
            else if !polls[k].condition.cancelled && !Passes(polls[k].check)
              then v == CheckFailed(k, ErrorOf(polls[k].check).value)
            else v.ContextEnded? || v.Unfinished?
  {
    SkipPrefix(polls, k);
    if polls[k].check.cancelled {
      MonotoneWithin(polls, k);
    }
    if polls[k].condition.cancelled || polls[k].cancelledWait {
      forall j | k + 1 <= j < |polls|
        ensures polls[j].condition.cancelled
      {
        MonotoneStep(polls, k, j);
      }
      NoSuccessAfterCancellation(polls, k + 1);
    }
  }

  /** RunCheckUntil succeeds at poll k exactly when k is the first poll whose condition has no error,
      every earlier check held, and the context was not seen done before; a check that fails in poll k
      itself is forgiven. */
  lemma SucceedsExactly(polls: seq<Poll>, k: nat)
    requires Monotone(polls) && k < |polls|
    ensures VerdictOf(polls, 0) == Succeeded(k)
       <==> && Passes(polls[k].condition)
            && (forall j :: 0 <= j < k ==> !Passes(polls[j].condition) && Passes(polls[j].check))
            && (forall j :: 0 <= j < k ==> !polls[j].condition.cancelled && !polls[j].cancelledWait)
  {
    var n := FirstStop(polls);
    if n == |polls| {
      SkipPrefix(polls, n);
      assert GoesOn(polls[k]);
    } else {
      AtFirstStop(polls, n);
      if n < k {
        assert !GoesOn(polls[n]);
      } else if k < n {
        assert GoesOn(polls[k]);
      }
    }
  }

  /** It fails over the check exactly when, before anything else ended it, a poll had both a failed
      check and a failed condition; the error carries that check's last message. */
  lemma CheckFailsExactly(polls: seq<Poll>, k: nat)
    requires Monotone(polls) && k < |polls|
    ensures VerdictOf(polls, 0).CheckFailed? && VerdictOf(polls, 0).poll == k
       <==> && (forall j :: 0 <= j < k ==> GoesOn(polls[j]))
            && !Passes(polls[k].check) && !Passes(polls[k].condition) && !polls[k].condition.cancelled
    ensures VerdictOf(polls, 0).CheckFailed? && VerdictOf(polls, 0).poll == k ==>
              var c := polls[k].check;
              !c.result && c.failures != [] && VerdictOf(polls, 0).cause == AssertionFailed(c.failures[|c.failures| - 1])
  {
    var n := FirstStop(polls);
    if polls[k].check.cancelled {
      MonotoneWithin(polls, k);
    }
    if n == |polls| {
      SkipPrefix(polls, n);
      assert GoesOn(polls[k]);
    } else {
      AtFirstStop(polls, n);
      if k < n {
        assert GoesOn(polls[k]);
      }
    }
  }

  /** An open context alone never ends a run: with every poll going on it stays undecided. */
  lemma UndecidedExactly(polls: seq<Poll>)
    requires Monotone(polls)
    requires forall p :: p in polls ==> !p.condition.cancelled && !p.cancelledWait
    ensures VerdictOf(polls, 0) == Unfinished
       <==> forall p :: p in polls ==> !Passes(p.condition) && Passes(p.check)
  {
    var n := FirstStop(polls);
    SkipPrefix(polls, n);
    if n < |polls| {
      AtFirstStop(polls, n);
      assert polls[n] in polls;
      if polls[n].check.cancelled {
        MonotoneWithin(polls, n);
      }
    } else {
      assert forall p :: p in polls ==> GoesOn(p);
    }
  }

  /** The poll neither succeeds nor stops the run: its condition fails, and its check holds or the
      context was done. */
  predicate Leaves(p: Poll) { !Passes(p.condition) && (p.condition.cancelled || Passes(p.check)) }

  lemma LeavesExactly(polls: seq<Poll>, k: nat)
    requires Monotone(polls) && k < |polls|
    ensures Leaves(polls[k])
       <==> !Decide(ErrorOf(polls[k].check), ErrorOf(polls[k].condition)).NoError?
            && !Decide(ErrorOf(polls[k].check), ErrorOf(polls[k].condition)).StopTrying?
  {
    if polls[k].check.cancelled {
      MonotoneWithin(polls, k);
    }
  }

  lemma {:induction false} EndsNoEarlier(polls: seq<Poll>, n: nat)
    requires n <= |polls|
    ensures VerdictOf(polls, n).ContextEnded? ==> VerdictOf(polls, n).poll >= n
    decreases |polls| - n
  {
    if n < |polls| {
      EndsNoEarlier(polls, n + 1);
    }
  }

  /** From poll n on, the context ends the run at poll k, or nothing decides. */
  lemma {:induction false} EndsFrom(polls: seq<Poll>, n: nat, k: nat)
    requires Monotone(polls) && n <= k <= |polls|
    ensures k < |polls| ==>
              (VerdictOf(polls, n) == ContextEnded(k)
               <==> polls[k].cancelledWait && Leaves(polls[k])
                    && forall j :: n <= j < k ==> Leaves(polls[j]) && !polls[j].cancelledWait)
    ensures k == |polls| ==>
              (VerdictOf(polls, n) == Unfinished
               <==> forall j :: n <= j < |polls| ==> Leaves(polls[j]) && !polls[j].cancelledWait)
    decreases |polls| - n
  {
    if n < |polls| {
      LeavesExactly(polls, n);
      if n < k {
        EndsFrom(polls, n + 1, k);
      } else {
        EndsNoEarlier(polls, n + 1);
      }
    }
  }

  /** Eventually gives up over its context at poll k exactly when that is the first poll after which it
      sees the context done, and no poll up to k succeeded or was stopped by its check. */
  lemma ContextEndsExactly(polls: seq<Poll>, k: nat)
    requires Monotone(polls)
    ensures VerdictOf(polls, 0) == ContextEnded(k)
       <==> && k < |polls| && polls[k].cancelledWait
            && (forall j :: 0 <= j < k ==> !polls[j].cancelledWait)
            && (forall j :: 0 <= j <= k ==> Leaves(polls[j]))
  {
    if k < |polls| {
      EndsFrom(polls, 0, k);
    } else {
      VerdictWithin(polls, 0);
    }
  }

  /** With the two other endings this accounts for every history: it decides nothing exactly when no
      poll succeeds, none is stopped by its check, and the context is never seen done in between. */
  lemma UnfinishedExactly(polls: seq<Poll>)
    requires Monotone(polls)
    ensures VerdictOf(polls, 0) == Unfinished
       <==> forall j :: 0 <= j < |polls| ==> Leaves(polls[j]) && !polls[j].cancelledWait
  {
    EndsFrom(polls, 0, |polls|);
  }

  /** The code's comment has a failing check end the test before the condition succeeds. A check that
      fails in the poll in which the condition succeeds is forgiven. */
  lemma FailedCheckForgiven(message: string)
    ensures var p := Poll(Assertion(false, [message], false), Assertion(false, [], true), false);
            ErrorOf(p.check) == Some(AssertionFailed(message)) && VerdictOf([p], 0) == Succeeded(0)
  {
  }

  /** A condition that returns false without recording a failure counts as passed, so that the run
      succeeds on it; a check that does so never stops it. */
  lemma SilentFalsePasses(check: Assertion, cancelledWait: bool)
    ensures Passes(Assertion(false, [], false))
    ensures VerdictOf([Poll(check, Assertion(false, [], false), cancelledWait)], 0) == Succeeded(0)
  {
  }
}
