/**
 The future of src/util/future.c: a task that runs in its own thread, reports errors through
 future_notify_error, and ends by storing its result; readers of the status; and one thread that awaits it.

 The sections that hold the mutex are single steps. future_await reads status and result after the join without
 the mutex, each in a step of its own.
 */
module Future {
  type Pointer = int

  const NULL: Pointer := 0

  datatype Status = FuRunning | FuError | FuSuccess

  datatype TaskPc =
    | Executing
    | Returned(value: Pointer)          // the user's function has returned
    | Exited(value: Pointer)            // what pthread_join hands over

  datatype Outcome = Error(result: Pointer) | Success(result: Pointer) | Aborted

  datatype AwaitPc =
    | Waiting
    | Joined(tmp: Pointer)
    | SawError                          // the first comparison has found FU_ERROR
    | SawNoError(tmp: Pointer)
    | Finished(outcome: Outcome)

  datatype State = State(
    status: Status, result: Pointer, task: TaskPc, await_: AwaitPc,
    reported: seq<Pointer>,             // what future_notify_error has been called with
    returned: seq<Pointer>,             // what the user's function has returned
    seen: seq<Status>)                  // what future_status has answered, to any thread

  datatype Label =
    | TaskReports(error: Pointer)       // the task calls future_notify_error
    | OtherReports(error: Pointer)      // another thread does
    | TaskReturns(value: Pointer)
    | TaskFinishes                      // the end of run_thread
    | ReadStatus                        // future_status
    | Join
    | CompareWithError
    | CompareWithSuccess
    | ReadResult

  const INITIAL := State(FuRunning, NULL, Executing, Waiting, [], [], [])

  predicate Enabled(st: State, l: Label)
  {
    match l
    case TaskReports(_) => st.task.Executing?
    case OtherReports(_) => true
    case TaskReturns(_) => st.task.Executing?
    case TaskFinishes => st.task.Returned?
    case ReadStatus => true
    case Join => st.await_.Waiting? && st.task.Exited?
    case CompareWithError => st.await_.Joined?
    case CompareWithSuccess => st.await_.SawNoError?
    case ReadResult => st.await_.SawError?
  }

  function Notified(st: State, error: Pointer): State
  {
    st.(status := FuError, result := error, reported := st.reported + [error])
  }

  function Apply(st: State, l: Label): State
    requires Enabled(st, l)
  {
    match l
    case TaskReports(error) => Notified(st, error)
    case OtherReports(error) => Notified(st, error)
    case TaskReturns(value) => st.(task := Returned(value), returned := st.returned + [value])
    case TaskFinishes =>
      if st.status != FuError then st.(status := FuSuccess, result := st.task.value, task := Exited(st.task.value))
      else st.(task := Exited(st.result))
    case ReadStatus => st.(seen := st.seen + [st.status])
    case Join => st.(await_ := Joined(st.task.value))
    case CompareWithError => st.(await_ := if st.status == FuError then SawError else SawNoError(st.await_.tmp))
    case CompareWithSuccess =>
      st.(await_ := Finished(if st.status == FuSuccess then Success(st.await_.tmp) else Aborted))
    case ReadResult => st.(await_ := Finished(Error(st.result)))
  }

  /** All steps of the run can be taken, one after the other. */
  ghost predicate Possible(run: seq<Label>)
    decreases |run|, 0
  {
    run == [] || (Possible(run[..|run|-1]) && Enabled(After(run[..|run|-1]), run[|run|-1]))
  }

  ghost function After(run: seq<Label>): State
    requires Possible(run)
    decreases |run|, 1
  {
    if run == [] then INITIAL else Apply(After(run[..|run|-1]), run[|run|-1])
  }

  lemma {:induction false} PrefixPossible(run: seq<Label>, k: nat)
    requires Possible(run) && k <= |run|
    ensures Possible(run[..k])
    decreases |run|
  {
    if k < |run| {
      assert run[..|run|-1][..k] == run[..k];
      PrefixPossible(run[..|run|-1], k);
    } else {
      assert run[..k] == run;
    }
  }

  // --------------------------------------- when only the task reports errors

  ghost predicate OnlyTaskReports(run: seq<Label>)
  {
    forall k :: 0 <= k < |run| ==> !run[k].OtherReports?
  }

  /** What the future will settle on, once the task has exited. */
  function Settled(st: State): Outcome
    requires st.returned != [] || st.reported != []
  {
    if st.reported != [] then Error(st.reported[|st.reported|-1]) else Success(st.returned[0])
  }

  ghost predicate TaskOk(st: State)
  {
    && (st.task.Executing? <==> st.returned == [])
    && (!st.task.Executing? ==> |st.returned| == 1)
    && (st.task.Returned? ==> st.returned == [st.task.value])
    && (st.status == FuError <==> st.reported != [])
    && (st.status == FuSuccess <==> st.reported == [] && st.task.Exited?)
    && (st.reported != [] ==> st.result == st.reported[|st.reported|-1])
    && (st.task.Exited? ==> st.task.value == st.result == Settled(st).result)
  }

  ghost predicate AwaitOk(st: State)
  {
    match st.await_
    case Waiting => true
    case Joined(tmp) => st.task == Exited(tmp)
    case SawError => st.task.Exited? && st.status == FuError
    case SawNoError(tmp) => st.task == Exited(tmp) && st.status == FuSuccess
    case Finished(outcome) => st.task.Exited? && st.returned != [] && outcome == Settled(st)
  }

  /** A final status does not change any more. */
  ghost predicate SeenOk(st: State)
  {
    && (forall i, j :: 0 <= i < j < |st.seen| && st.seen[i] != FuRunning ==> st.seen[j] == st.seen[i])
    && (forall i :: 0 <= i < |st.seen| && st.seen[i] != FuRunning ==> st.seen[i] == st.status)
  }

  lemma {:induction false} TaskReportsKeep(run: seq<Label>)
    requires Possible(run) && OnlyTaskReports(run)
    ensures TaskOk(After(run)) && AwaitOk(After(run)) && SeenOk(After(run))
    decreases |run|
  {
    if run != [] {
      var init, l := run[..|run|-1], run[|run|-1];
      assert !l.OtherReports?;
      TaskReportsKeep(init);
    }
  }

  /** If only the task reports errors, future_await never aborts: it returns the last error reported if there was
      one, and otherwise what the task returned. The status that future_status answers never goes backwards. */
  lemma {:induction false} AwaitedOutcome(run: seq<Label>)
    requires Possible(run) && OnlyTaskReports(run)
    ensures var st := After(run);
            && (st.await_.Finished? ==>
                  st.returned != [] && st.await_.outcome == Settled(st) && !st.await_.outcome.Aborted?)
            && (forall i, j :: 0 <= i < j < |st.seen| && st.seen[i] != FuRunning ==> st.seen[j] == st.seen[i])
  {
    TaskReportsKeep(run);
  }

  // -------------------------------------------------- what the state records

  /** The errors reported in a run, by whomever. */
  function ErrorsIn(run: seq<Label>): seq<Pointer>
  {
    if run == [] then []
    else
      var l := run[|run|-1];
      ErrorsIn(run[..|run|-1]) + (match l case TaskReports(e) => [e] case OtherReports(e) => [e] case _ => [])
  }

  /** What the user's function returns in a run. */
  function ReturnsIn(run: seq<Label>): seq<Pointer>
  {
    if run == [] then []
    else ReturnsIn(run[..|run|-1]) + (if run[|run|-1].TaskReturns? then [run[|run|-1].value] else [])
  }

  ghost predicate Occurs(run: seq<Label>, l: Label)
  {
    exists k :: 0 <= k < |run| && run[k] == l
  }

  lemma {:induction false} OccursAppend(run: seq<Label>, l: Label, what: Label)
    ensures Occurs(run + [l], what) <==> Occurs(run, what) || l == what
  {
    if Occurs(run, what) {
      var k :| 0 <= k < |run| && run[k] == what;
      assert (run + [l])[k] == what;
    }
    assert (run + [l])[|run|] == l;
  }

  /** The status is FU_RUNNING until the task finishes or an error is reported, then FU_ERROR if an error has ever been
      reported, and otherwise FU_SUCCESS. */
  lemma {:induction false} StatusIs(run: seq<Label>)
    requires Possible(run)
    ensures After(run).reported == ErrorsIn(run) && After(run).returned == ReturnsIn(run)
    ensures After(run).task.Exited? <==> Occurs(run, TaskFinishes)
    ensures After(run).status == if ErrorsIn(run) != [] then FuError
                                 else if Occurs(run, TaskFinishes) then FuSuccess else FuRunning
    decreases |run|
  {
    if run != [] {
      var init, l := run[..|run|-1], run[|run|-1];
      assert run == init + [l];
      StatusIs(init);
      OccursAppend(init, l, TaskFinishes);
    }
  }

  /** future_status can be asked at any time. What it answers is that, in every interleaving, and it changes nothing. */
  lemma {:induction false} AnswersAreTrue(run: seq<Label>)
    requires Possible(run)
    ensures Possible(run + [ReadStatus])
    ensures var answer := if ErrorsIn(run) != [] then FuError
                          else if Occurs(run, TaskFinishes) then FuSuccess else FuRunning;
            After(run + [ReadStatus]) == After(run).(seen := After(run).seen + [answer])
  {
    assert (run + [ReadStatus])[..|run|] == run;
    StatusIs(run);
  }

  lemma {:induction false} TaskIs(run: seq<Label>)
    requires Possible(run)
    ensures After(run).task.Executing? <==> ReturnsIn(run) == []
    ensures After(run).task.Returned? ==> ReturnsIn(run) != []
    decreases |run|
  {
    if run != [] {
      TaskIs(run[..|run|-1]);
    }
  }

  /** Errors can be reported at any time: by the task until it returns, and by other threads always. A task that has
      returned can finish. */
  lemma {:induction false} ReportsAreTaken(run: seq<Label>, e: Pointer)
    requires Possible(run)
    ensures Possible(run + [OtherReports(e)]) && (ReturnsIn(run) == [] ==> Possible(run + [TaskReports(e)]))
    ensures ReturnsIn(run) != [] && !Occurs(run, TaskFinishes) ==> Possible(run + [TaskFinishes])
  {
    TaskIs(run);
    StatusIs(run);
    assert (run + [OtherReports(e)])[..|run|] == run;
    assert (run + [TaskReports(e)])[..|run|] == run;
    assert (run + [TaskFinishes])[..|run|] == run;
  }

  function AwaitSteps(a: AwaitPc): nat
  {
    match a
    case Waiting => 3
    case Joined(_) => 2
    case SawError => 1
    case SawNoError(_) => 1
    case Finished(_) => 0
  }

  /** Once the task has finished, future_await returns after at most three steps of its own: it can always take the
      next one. */
  lemma {:induction false} AwaitReturns(run: seq<Label>)
    requires Possible(run) && Occurs(run, TaskFinishes) && !After(run).await_.Finished?
    ensures exists l :: Possible(run + [l]) && AwaitSteps(After(run + [l]).await_) < AwaitSteps(After(run).await_)
  {
    StatusIs(run);
    var l := match After(run).await_
             case Waiting => Join
             case Joined(_) => CompareWithError
             case SawError => ReadResult
             case SawNoError(_) => CompareWithSuccess
             case Finished(_) => Join;
    assert (run + [l])[..|run|] == run;
    assert Possible(run + [l]);
  }

  // ------------------------------------------- when other threads report too

  /** The status, once final, stays as it is all along the run. */
  ghost predicate NeverGoesBack(run: seq<Label>)
    requires Possible(run)
  {
    forall k :: 0 <= k < |run| ==> KeepsFinalStatus(run, k)
  }

  ghost predicate KeepsFinalStatus(run: seq<Label>, k: nat)
    requires Possible(run) && k < |run|
  {
    PrefixPossible(run, k);
    PrefixPossible(run, k + 1);
    After(run[..k]).status != FuRunning ==> After(run[..k+1]).status == After(run[..k]).status
  }

  predicate Reports(l: Label)
  {
    l.TaskReports? || l.OtherReports?
  }

  /** No error is reported at a moment when future_status would answer FU_SUCCESS. */
  ghost predicate NoReportAfterSuccess(run: seq<Label>)
    requires Possible(run)
  {
    forall k :: 0 <= k < |run| ==> NotLate(run, k)
  }

  ghost predicate NotLate(run: seq<Label>, k: nat)
    requires Possible(run) && k < |run|
  {
    PrefixPossible(run, k);
    Reports(run[k]) ==> After(run[..k]).status != FuSuccess
  }

  /** Success is the status of tasks that have exited, and a task that has exited has a final status. */
  ghost predicate ExitedHasStatus(st: State)
  {
    (st.status == FuSuccess ==> st.task.Exited?) && (st.task.Exited? ==> st.status != FuRunning)
  }

  lemma {:induction false} StatusAfterExit(run: seq<Label>)
    requires Possible(run)
    ensures ExitedHasStatus(After(run))
    decreases |run|
  {
    if run != [] {
      StatusAfterExit(run[..|run|-1]);
    }
  }

  lemma {:induction false} StepKeepsFinalStatus(run: seq<Label>, k: nat)
    requires Possible(run) && k < |run|
    ensures KeepsFinalStatus(run, k) <==> NotLate(run, k)
  {
    PrefixPossible(run, k);
    PrefixPossible(run, k + 1);
    assert run[..k+1][..k] == run[..k];
    StatusAfterExit(run[..k]);
  }

  /** Whoever reports: the status never goes backwards exactly when no error is reported after success. */
  lemma {:induction false} GoesBackOnlyByLateReport(run: seq<Label>)
    requires Possible(run)
    ensures NeverGoesBack(run) <==> NoReportAfterSuccess(run)
  {
    forall k | 0 <= k < |run|
      ensures KeepsFinalStatus(run, k) <==> NotLate(run, k)
    {
      StepKeepsFinalStatus(run, k);
    }
  }

  // ------------------------------------------------- what is handed out

  /** Step k of the run reads the result, and p is the last error reported until then. */
  ghost predicate ReadsLastReport(run: seq<Label>, k: nat, p: Pointer)
    requires Possible(run) && k < |run|
  {
    PrefixPossible(run, k);
    var reported := After(run[..k]).reported;
    run[k].ReadResult? && reported != [] && p == reported[|reported|-1]
  }

  /** Status and result go with what has been reported and returned, whoever reports. */
  ghost predicate ValuesOk(st: State)
  {
    && ExitedHasStatus(st)
    && (st.status == FuError <==> st.reported != [])
    && (st.reported != [] ==> st.result == st.reported[|st.reported|-1])
    && (st.task.Executing? <==> st.returned == [])
    && (st.task.Returned? ==> st.returned == [st.task.value])
    && (st.task.Exited? && st.reported == [] ==> st.returned == [st.task.value])
    && (st.await_.Joined? ==> st.task == Exited(st.await_.tmp))
    && (st.await_.SawError? ==> st.reported != [])
    && (st.await_.SawNoError? ==> st.returned == [st.await_.tmp])
    && (st.await_.Finished? && st.await_.outcome.Success? ==> st.returned == [st.await_.outcome.result])
  }

  lemma {:induction false} ValuesKept(run: seq<Label>)
    requires Possible(run)
    ensures ValuesOk(After(run))
    decreases |run|
  {
    if run != [] {
      ValuesKept(run[..|run|-1]);
    }
  }

  /** Whoever reports: an error that future_await hands out is the last one reported until it was read, and a success
      hands out what the task returned. */
  lemma {:induction false} WhatIsHandedOut(run: seq<Label>)
    requires Possible(run) && After(run).await_.Finished?
    ensures match After(run).await_.outcome
            case Error(p) => exists k :: 0 <= k < |run| && ReadsLastReport(run, k, p)
            case Success(p) => After(run).returned == [p]
            case Aborted => true
    decreases |run|
  {
    ValuesKept(run);
    var n := |run| - 1;
    var init, outcome := run[..n], After(run).await_.outcome;
    if outcome.Error? {
      ValuesKept(init);
      if run[n].ReadResult? {
        assert ReadsLastReport(run, n, outcome.result);
      } else {
        WhatIsHandedOut(init);
        var k :| 0 <= k < |init| && ReadsLastReport(init, k, outcome.result);
        assert init[..k] == run[..k];
        assert ReadsLastReport(run, k, outcome.result);
      }
    }
  }

  ghost predicate Agrees(st: State)
  {
    && ExitedHasStatus(st)
    && (st.status == FuError <==> st.reported != [])
    && (st.await_.Joined? || st.await_.SawError? || st.await_.SawNoError? || st.await_.Finished? ==> st.task.Exited?)
    && (st.await_.SawError? ==> st.status == FuError)
    && (st.await_.SawNoError? ==> st.status == FuSuccess)
    && (st.await_.Finished? ==> if st.reported != [] then st.await_.outcome.Error? else st.await_.outcome.Success?)
  }

  lemma {:induction false} AgreesWithoutLateReport(run: seq<Label>)
    requires Possible(run) && NoReportAfterSuccess(run)
    ensures Agrees(After(run))
    decreases |run|
  {
    if run != [] {
      var n := |run| - 1;
      var init := run[..n];
      forall k | 0 <= k < n
        ensures NotLate(init, k)
      {
        assert NotLate(run, k);
        assert init[..k] == run[..k];
      }
      AgreesWithoutLateReport(init);
      assert NotLate(run, n);
    }
  }

  /** Unless an error is reported after success, future_await does not abort: it hands out an error, the last one
      reported until it is read, exactly when one has been reported, and otherwise what the task returned. */
  lemma {:induction false} NoAbortWithoutLateReport(run: seq<Label>)
    requires Possible(run) && NoReportAfterSuccess(run) && After(run).await_.Finished?
    ensures var st := After(run);
            if st.reported == [] then st.returned != [] && st.await_.outcome == Success(st.returned[0])
            else st.await_.outcome.Error?
                 && exists k :: 0 <= k < |run| && ReadsLastReport(run, k, st.await_.outcome.result)
  {
    AgreesWithoutLateReport(run);
    WhatIsHandedOut(run);
  }

  // ----------------------------------------------- when the wait aborts

  ghost predicate ReportedSince(run: seq<Label>)
  {
    exists c, r :: 0 <= c < r < |run| && run[c].CompareWithError? && Reports(run[r])
  }

  /** An error is reported between the two comparisons of future_await. */
  ghost predicate ReportedBetween(run: seq<Label>)
  {
    exists c, r, k ::
      0 <= c < r < k < |run| && run[c].CompareWithError? && Reports(run[r]) && run[k].CompareWithSuccess?
  }

  ghost predicate Tracked(st: State, run: seq<Label>)
  {
    && (!st.await_.Waiting? ==> st.task.Exited? && st.status != FuRunning)
    && (st.await_.Waiting? || st.await_.Joined? <==> !Occurs(run, CompareWithError))
    && (Occurs(run, CompareWithSuccess) ==> st.await_.Finished? && !st.await_.outcome.Error?)
    && (st.await_.SawNoError? ==> (st.status == FuError <==> ReportedSince(run)))
    && (st.await_ == Finished(Aborted) <==> ReportedBetween(run))
  }

  lemma {:induction false} SinceAppend(run: seq<Label>, l: Label)
    ensures ReportedSince(run + [l]) <==> ReportedSince(run) || (Reports(l) && Occurs(run, CompareWithError))
  {
    var run' := run + [l];
    assert run'[|run|] == l;
    if ReportedSince(run) {
      var c, r :| 0 <= c < r < |run| && run[c].CompareWithError? && Reports(run[r]);
      assert run'[c].CompareWithError? && Reports(run'[r]);
    }
    if Occurs(run, CompareWithError) && Reports(l) {
      var c :| 0 <= c < |run| && run[c] == CompareWithError;
      assert run'[c].CompareWithError? && Reports(run'[|run|]);
    }
  }

  lemma {:induction false} BetweenAppend(run: seq<Label>, l: Label)
    ensures ReportedBetween(run + [l]) <==> ReportedBetween(run) || (l.CompareWithSuccess? && ReportedSince(run))
  {
    var run' := run + [l];
    assert run'[|run|] == l;
    if ReportedBetween(run) {
      var c, r, k :|
        0 <= c < r < k < |run| && run[c].CompareWithError? && Reports(run[r]) && run[k].CompareWithSuccess?;
      assert run'[c].CompareWithError? && Reports(run'[r]) && run'[k].CompareWithSuccess?;
    }
    if l.CompareWithSuccess? && ReportedSince(run) {
      var c, r :| 0 <= c < r < |run| && run[c].CompareWithError? && Reports(run[r]);
      assert run'[c].CompareWithError? && Reports(run'[r]) && run'[|run|].CompareWithSuccess?;
    }
  }

  lemma {:induction false} StepIsTracked(st: State, run: seq<Label>, l: Label)
    requires Tracked(st, run) && ExitedHasStatus(st) && Enabled(st, l)
    ensures Tracked(Apply(st, l), run + [l])
  {
    hide Occurs, ReportedSince, ReportedBetween;
    OccursAppend(run, l, CompareWithError);
    OccursAppend(run, l, CompareWithSuccess);
    SinceAppend(run, l);
    BetweenAppend(run, l);
    OnlyOnce(run);
  }

  lemma {:induction false} RunIsTracked(run: seq<Label>)
    requires Possible(run)
    ensures Tracked(After(run), run)
    decreases |run|
  {
    if run != [] {
      hide Tracked, ExitedHasStatus, Apply;
      var init, l := run[..|run|-1], run[|run|-1];
      assert run == init + [l];
      RunIsTracked(init);
      StatusAfterExit(init);
      StepIsTracked(After(init), init, l);
    } else {
      assert !Occurs(run, CompareWithError) && !ReportedBetween(run);
    }
  }

  lemma {:induction false} OnlyOnce(run: seq<Label>)
    ensures ReportedSince(run) ==> Occurs(run, CompareWithError)
  {
    if ReportedSince(run) {
      var c, r :| 0 <= c < r < |run| && run[c].CompareWithError? && Reports(run[r]);
      assert run[c] == CompareWithError;
    }
  }

  /** Whoever reports: future_await aborts exactly when an error is reported between its two comparisons, of which
      it makes the second only if the first has found no error. */
  lemma {:induction false} AbortsByReportBetween(run: seq<Label>)
    requires Possible(run)
    ensures After(run).await_ == Finished(Aborted) <==> ReportedBetween(run)
  {
    RunIsTracked(run);
  }

  lemma {:induction false} Extend(run: seq<Label>, l: Label)
    requires Possible(run) && Enabled(After(run), l)
    ensures Possible(run + [l]) && After(run + [l]) == Apply(After(run), l)
  {
    assert (run + [l])[..|run|] == run;
  }

  /** And that does happen: the abort that should not be reached is reached in this run. */
  lemma {:induction false} AbortIsReached(value: Pointer, error: Pointer)
    ensures var run :=
              [TaskReturns(value), TaskFinishes, Join, CompareWithError, OtherReports(error), CompareWithSuccess];
            Possible(run) && After(run).await_ == Finished(Aborted)
  {
    hide Possible, After;
    NothingYet();
    var r1, r2 := [TaskReturns(value)], [TaskReturns(value), TaskFinishes];
    Extend([], TaskReturns(value));
    assert [] + [TaskReturns(value)] == r1;
    Extend(r1, TaskFinishes);
    assert r1 + [TaskFinishes] == r2;
    Extend(r2, Join);
    Extend(r2 + [Join], CompareWithError);
    Extend(r2 + [Join] + [CompareWithError], OtherReports(error));
    Extend(r2 + [Join] + [CompareWithError] + [OtherReports(error)], CompareWithSuccess);
    assert [TaskReturns(value), TaskFinishes, Join, CompareWithError, OtherReports(error), CompareWithSuccess]
        == r2 + [Join] + [CompareWithError] + [OtherReports(error)] + [CompareWithSuccess];
  }

  lemma {:induction false} NothingYet()
    ensures Possible([]) && After([]) == INITIAL
  {
  }
}
