/** The sequence in `run_remote_command` from selected environments to the final report: prepare,
    cut off, run the batch, merge. */
module SshPipeline {
  import opened Common
  import opened Identifiers
  import opened SshTypes
  import opened Capture
  import opened BatchScheduler
  import opened BatchOutcome
  import opened BatchRun
  import opened SshTargets

  /** One run of the captured path for a selection: the coordinates found, what preparation and
      fail-fast made of them, and the state the batch protocol ended in, if anything was ready. */
  datatype Execution = Execution(
    selected: seq<EnvironmentRef>,
    lookups: seq<Option<SshTarget>>,
    failFast: bool,
    jobs: nat,
    remoteCommand: seq<string>,
    prepared: seq<ExecutionTarget>,
    preparedFailures: Failures,
    ready: seq<ExecutionTarget>,
    failures: Failures,
    end: State)

  function BatchOf(x: Execution): Batch {
    Batch(x.ready, x.failFast, if x.jobs < |x.ready| then x.jobs else |x.ready|)
  }

  /** The run is one that can happen: each stage is as its contract allows, the batch ended in a
      state its protocol can reach, and the number of targets is a machine integer. */
  ghost predicate Happens(x: Execution) {
    && |x.lookups| == |x.selected| && x.selected != [] && |x.selected| <= USIZE_MAX
    && Prepared(x.selected, x.lookups, x.prepared, x.preparedFailures)
    && CutOff(x.selected, x.failFast, x.prepared, x.preparedFailures, x.ready, x.failures)
    && Aligned(x.selected, x.ready, x.failures)
    && (x.ready != [] ==>
          && x.jobs > 0 && x.remoteCommand != [] && x.remoteCommand[0] != ""
          && Reachable(BatchOf(x), x.end) && Quiescent(x.end)
          && |x.end.slots| == |x.ready|)
  }

  function Executed(x: Execution): Option<BatchReport>
    requires x.ready != [] ==> |x.end.slots| == |x.ready|
  {
    if x.ready == [] then None else Some(Report(BatchOf(x), x.end))
  }

  function FinalReport(x: Execution): BatchReport
    requires x.ready != [] ==> |x.end.slots| == |x.ready|
  {
    Merged(x.failures, Executed(x))
  }

  function ExecutedResults(x: Execution): seq<TargetExecution>
    requires x.ready != [] ==> |x.end.slots| == |x.ready|
  {
    if x.ready == [] then [] else Report(BatchOf(x), x.end).results
  }

  /** The captured path of `run_remote_command`, from the selected environments to the final report,
      for any completion order of the lookups and any scheduler. What it does is an execution of
      which everything below speaks. */
  method RunCaptured(
    selected: seq<EnvironmentRef>, lookups: seq<Option<SshTarget>>, completion: seq<nat>,
    remoteCommand: seq<string>, jobs: nat, failFast: bool, scheduler: Scheduler)
    returns (result: Result<BatchReport, BatchError>, x: Execution)
    requires |lookups| == |selected| && Permutation(completion, |selected|)
    requires selected != [] && |selected| <= USIZE_MAX
    ensures x.selected == selected && x.lookups == lookups && x.failFast == failFast
    ensures x.jobs == jobs && x.remoteCommand == remoteCommand
    ensures result.Ok? ==> Happens(x) && result.value == FinalReport(x)
    ensures result.Ok? <==>
      NothingReady(lookups, failFast)
      || (jobs > 0 && remoteCommand != [] && remoteCommand[0] != "")
    ensures result == Err(NoJobs) <==> !NothingReady(lookups, failFast) && jobs == 0
    ensures result == Err(NoCommand) <==>
      && !NothingReady(lookups, failFast) && jobs > 0
      && (remoteCommand == [] || remoteCommand[0] == "")
  {
    var targets := PrepareTargets(selected, lookups, completion);
    var prepared, preparedFailures := targets.ready, targets.failures;
    targets.ApplyFailFast(failFast, selected);
    ReadyUnless(selected, lookups, failFast, prepared, preparedFailures,
      targets.ready, targets.failures);
    var nothing := State(0, false, false, [], [], [], [], 0, 0, 0);
    x := Execution(selected, lookups, failFast, jobs, remoteCommand,
      prepared, preparedFailures, targets.ready, targets.failures, nothing);
    var executed: Option<BatchReport> := None;
    if targets.ready != [] {
      var ran, end := RunBatch(targets.ready, remoteCommand, jobs, failFast, scheduler);
      if ran.Err? {
        return Err(ran.error), x;
      }
      executed := Some(ran.value);
      x := x.(end := end);
    }
    var report := targets.Merge(executed);
    result := Ok(report);
  }

  /** No target is left to execute: no environment has coordinates, or under fail-fast the first one
      has none. */
  ghost predicate NothingReady(lookups: seq<Option<SshTarget>>, failFast: bool) {
    || (forall i :: 0 <= i < |lookups| ==> lookups[i].None?)
    || (failFast && lookups != [] && lookups[0].None?)
  }

  lemma ReadyUnless(
    selected: seq<EnvironmentRef>, lookups: seq<Option<SshTarget>>, failFast: bool,
    prepared: seq<ExecutionTarget>, preparedFailures: Failures,
    ready: seq<ExecutionTarget>, failures: Failures)
    requires |lookups| == |selected| && selected != []
    requires Prepared(selected, lookups, prepared, preparedFailures)
    requires CutOff(selected, failFast, prepared, preparedFailures, ready, failures)
    ensures ready == [] <==> NothingReady(lookups, failFast)
  {
    if forall i :: 0 <= i < |lookups| ==> lookups[i].None? {
      NoneEmptyBetween(preparedFailures, 0, |preparedFailures|);
    } else {
      var i :| 0 <= i < |lookups| && lookups[i].Some?;
      assert prepared[EmptyBefore(preparedFailures, i)]
          == ExecutionTarget(selected[i], lookups[i].value);
    }
    if lookups[0].None? {
      assert FirstFailure(preparedFailures, 0);
    }
  }

  /** Where the result of slot `i` comes from: its preparation failure, or the batch result of the
      ready target that stands for it. */
  lemma SlotResult(x: Execution, i: nat)
    requires Happens(x) && i < |x.selected|
    ensures |FinalReport(x).results| == |x.selected|
    ensures |ExecutedResults(x)| == |x.ready| == EmptyBefore(x.failures, |x.failures|)
    ensures match x.failures[i]
      case Some(failure) => FinalReport(x).results[i] == failure
      case None =>
        && EmptyBefore(x.failures, i) < |x.ready|
        && FinalReport(x).results[i] == ExecutedResults(x)[EmptyBefore(x.failures, i)]
        && x.ready[EmptyBefore(x.failures, i)].environment == x.selected[i]
  {
    if x.ready != [] {
      ReportFollowsTargets(BatchOf(x), x.end);
    }
    MergeIsSlotwise(x.failures, ExecutedResults(x), i);
    assert SlotAligned(x.selected, x.ready, x.failures, i);
  }

  /** The final report has one result per selected environment, in selection order, whatever the
      completion order of the lookups and whatever the interleaving of the workers. */
  lemma ReportFollowsSelection(x: Execution)
    requires Happens(x)
    ensures |FinalReport(x).results| == |x.selected|
    ensures forall i :: 0 <= i < |x.selected| ==>
      FinalReport(x).results[i].environment == x.selected[i]
  {
    SlotResult(x, 0);
    forall i | 0 <= i < |x.selected|
      ensures FinalReport(x).results[i].environment == x.selected[i]
    {
      SlotResult(x, i);
      assert SlotAligned(x.selected, x.ready, x.failures, i);
      if x.failures[i].None? {
        ReportFollowsTargets(BatchOf(x), x.end);
      }
    }
  }

  /** The slots left empty are environments with coordinates, in the order of the ready targets. */
  lemma EmptySlotHasCoordinates(x: Execution, i: nat)
    requires Happens(x) && i < |x.selected| && x.failures[i].None?
    ensures x.lookups[i].Some?
    ensures EmptyBefore(x.failures, i) < |x.ready|
    ensures x.ready[EmptyBefore(x.failures, i)] == ExecutionTarget(x.selected[i], x.lookups[i].value)
  {
    assert SlotAligned(x.selected, x.ready, x.failures, i);
    if x.failures != x.preparedFailures {
      var f: nat :| FirstFailure(x.preparedFailures, f)
        && CutAfter(x.selected, f, x.prepared, x.preparedFailures, x.ready, x.failures);
      assert x.failures[i] == x.preparedFailures[i];
      AllEmptyBefore(x.preparedFailures, i);
      AllEmptyBefore(x.failures, i);
    } else if x.failFast && exists f: nat :: FirstFailure(x.preparedFailures, f) {
      var f: nat :| FirstFailure(x.preparedFailures, f)
        && CutAfter(x.selected, f, x.prepared, x.preparedFailures, x.ready, x.failures);
      AllEmptyBefore(x.preparedFailures, i);
    }
  }

  /** Word for word: an environment without coordinates is reported as failed because it is
      unavailable, unless fail-fast skips it, as it does everything behind the first such one. */
  lemma UnavailableIsReported(x: Execution, i: nat)
    requires Happens(x) && i < |x.selected|
    ensures |FinalReport(x).results| == |x.selected|
    ensures var nothing := CapturedStream(Text([]), false, 0);
      var result := FinalReport(x).results[i];
      if x.failFast && exists j :: 0 <= j < i && x.lookups[j].None?
      then result == TargetExecution(x.selected[i], Skipped, None, nothing, nothing, Some(FailFast))
      else x.lookups[i].None? ==>
        result == TargetExecution(x.selected[i], Failed, None, nothing, nothing,
                    Some(TargetUnavailable))
  {
    SlotResult(x, i);
    if x.failFast && exists j :: 0 <= j <= i && x.lookups[j].None? {
      var f := FirstUnavailable(x.lookups);
      assert FirstFailure(x.preparedFailures, f);
    }
  }

  lemma {:induction false} FirstUnavailable(lookups: seq<Option<SshTarget>>) returns (f: nat)
    requires exists j :: 0 <= j < |lookups| && lookups[j].None?
    ensures f < |lookups| && lookups[f].None? && forall j :: 0 <= j < f ==> lookups[j].Some?
  {
    f := 0;
    while lookups[f].Some?
      invariant f < |lookups| && forall j :: 0 <= j < f ==> lookups[j].Some?
      decreases |lookups| - f
    {
      f := f + 1;
    }
  }

  /** The stream limit reported is that of the targets executed, or of all if none was. */
  lemma ReportedLimit(x: Execution)
    requires Happens(x)
    ensures FinalReport(x).streamLimit
      == EffectiveStreamLimit(if x.ready == [] then |x.selected| else |x.ready|)
  {
    SlotResult(x, 0);
  }

  /** A target reported as skipped was held back for a reason the report itself shows: fail-fast
      was on, and another target in it is a failure that is not itself a skip. */
  lemma SkipsAreExplained(x: Execution, i: nat)
    requires Happens(x) && i < |x.selected|
    requires |FinalReport(x).results| == |x.selected|
    requires FinalReport(x).results[i].state == Skipped
    ensures x.failFast
    ensures exists j ::
      && 0 <= j < |x.selected| && j != i
      && FinalReport(x).results[j].state != Skipped && !Success(FinalReport(x).results[j])
  {
    SlotResult(x, i);
    var j: nat;
    if x.failures[i].Some? {
      j := PreparedSkipIsExplained(x, i);
    } else {
      j := ExecutedSkipIsExplained(x, i);
    }
  }

  /** A target held back before execution: the first lookup that failed is the reason. */
  lemma PreparedSkipIsExplained(x: Execution, i: nat) returns (j: nat)
    requires Happens(x) && i < |x.selected|
    requires x.failures[i].Some? && x.failures[i].value.state == Skipped
    ensures x.failFast && j < |x.selected| == |FinalReport(x).results| && j != i
    ensures FinalReport(x).results[j] == Unavailable(x.selected[j])
  {
    j :| FirstFailure(x.preparedFailures, j)
      && CutAfter(x.selected, j, x.prepared, x.preparedFailures, x.ready, x.failures);
    SlotResult(x, j);
  }

  /** A target held back by the batch: an execution that failed is the reason. */
  lemma ExecutedSkipIsExplained(x: Execution, i: nat) returns (j: nat)
    requires Happens(x) && i < |x.selected| == |FinalReport(x).results|
    requires x.failures[i].None? && FinalReport(x).results[i].state == Skipped
    ensures x.failFast && j < |x.selected| && j != i
    ensures FinalReport(x).results[j].state != Skipped && !Success(FinalReport(x).results[j])
  {
    SlotResult(x, i);
    var k := EmptyBefore(x.failures, i);
    SkippedIsExplained(BatchOf(x), x.end, k);
    var m :| 0 <= m < |x.ready| && m != k
      && !Success(ExecutedResults(x)[m]) && ExecutedResults(x)[m].state != Skipped;
    j := SlotOf(x.failures, m);
    SlotResult(x, j);
  }

  /** The m-th empty slot. */
  lemma {:induction false} SlotOf(failures: Failures, m: nat) returns (i: nat)
    requires m < EmptyBefore(failures, |failures|)
    ensures i < |failures| && failures[i].None? && EmptyBefore(failures, i) == m
  {
    i := 0;
    while EmptyBefore(failures, i + 1) <= m
      invariant i < |failures| && EmptyBefore(failures, i) <= m
      decreases |failures| - i
    {
      assert i + 1 < |failures|;
      i := i + 1;
    }
  }

  /** Without fail-fast an environment without coordinates never costs another one its execution:
      uncancelled, every environment with coordinates was really run, and its result is the one its
      execution stored. */
  lemma UnavailableTargetsDoNotSpread(x: Execution, i: nat)
    requires Happens(x) && !x.failFast && i < |x.selected| && x.lookups[i].Some?
    requires x.ready != [] ==> !x.end.cancelled
    ensures |FinalReport(x).results| == |x.selected|
    ensures var k := EmptyBefore(x.failures, i);
      k < |x.ready| && k in x.end.started && x.end.slots[k] == Some(FinalReport(x).results[i])
  {
    SlotResult(x, i);
    assert x.failures[i].None?;
    EverythingRuns(BatchOf(x), x.end);
  }

  lemma SuccessReachesEveryTarget(x: Execution)
    requires Happens(x) && ReportSucceeded(FinalReport(x))
    ensures forall i :: 0 <= i < |x.selected| ==> x.lookups[i].Some?
    ensures x.ready != []
    ensures forall k :: 0 <= k < |x.ready| ==>
      x.end.slots[k].Some? && Success(x.end.slots[k].value)
  {
    SlotResult(x, 0);
    forall i | 0 <= i < |x.selected| ensures x.failures[i].None? && x.lookups[i].Some? {
      SlotResult(x, i);
      assert FinalReport(x).results[i] in FinalReport(x).results;
      PreparedFailureIsFailure(x, i);
      EmptySlotHasCoordinates(x, i);
    }
    assert x.failures[0].None?;
    forall k | 0 <= k < |x.ready| ensures x.end.slots[k].Some? && Success(x.end.slots[k].value) {
      var i := SlotOf(x.failures, k);
      SlotResult(x, i);
      assert FinalReport(x).results[i] in FinalReport(x).results;
    }
  }

  /** The whole command succeeds exactly when every selected environment had coordinates and its
      execution succeeded. */
  lemma SucceedsExactlyWhenAllDo(x: Execution)
    requires Happens(x)
    ensures ReportSucceeded(FinalReport(x)) <==>
      (forall i :: 0 <= i < |x.selected| ==> x.lookups[i].Some?)
      && x.ready != []
      && (forall k :: 0 <= k < |x.ready| ==>
            x.end.slots[k].Some? && x.end.slots[k].value.state == Succeeded)
  {
    if ReportSucceeded(FinalReport(x)) {
      SuccessReachesEveryTarget(x);
    } else {
      FailureShows(x);
    }
  }

  lemma FailureShows(x: Execution)
    requires Happens(x) && !ReportSucceeded(FinalReport(x))
    ensures (exists i :: 0 <= i < |x.selected| && x.lookups[i].None?)
      || (exists k :: 0 <= k < |x.ready|
            && (x.end.slots[k].Some? ==> !Success(x.end.slots[k].value)))
  {
    SlotResult(x, 0);
    var result :| result in FinalReport(x).results && !Success(result);
    var i :| 0 <= i < |x.selected| && FinalReport(x).results[i] == result;
    if x.failures[i].Some? {
      FailureHasCause(x, i);
    } else {
      ExecutedFailure(x, i);
    }
  }

  /** A failure that is not one of preparation is that of an execution. */
  lemma ExecutedFailure(x: Execution, i: nat)
    requires Happens(x) && i < |x.selected| == |FinalReport(x).results| && x.failures[i].None?
    requires !Success(FinalReport(x).results[i])
    ensures var k := EmptyBefore(x.failures, i);
      k < |x.ready| && (x.end.slots[k].Some? ==> !Success(x.end.slots[k].value))
  {
    SlotResult(x, i);
  }

  /** No slot is filled with a success before execution. */
  lemma PreparedFailureIsFailure(x: Execution, i: nat)
    requires Happens(x) && i < |x.selected|
    ensures x.failures[i].Some? ==> !Success(x.failures[i].value)
  {
    if x.failures != x.preparedFailures {
      var f: nat :| FirstFailure(x.preparedFailures, f)
        && CutAfter(x.selected, f, x.prepared, x.preparedFailures, x.ready, x.failures);
    }
  }

  /** A slot filled before execution means that some environment has no coordinates. */
  lemma FailureHasCause(x: Execution, i: nat)
    requires Happens(x) && i < |x.selected| && x.failures[i].Some?
    ensures exists j :: 0 <= j < |x.selected| && x.lookups[j].None?
  {
    if x.failures != x.preparedFailures {
      var f: nat :| FirstFailure(x.preparedFailures, f)
        && CutAfter(x.selected, f, x.prepared, x.preparedFailures, x.ready, x.failures);
      assert x.lookups[f].None?;
    } else {
      assert x.lookups[i].None?;
    }
  }

  /** Over the whole merged report at most 64 MiB of output are retained. */
  lemma ReportWithinBudget(x: Execution)
    requires Happens(x)
    ensures Retained(FinalReport(x).results) <= MAX_BATCH_CAPTURE_BYTES
  {
    forall i | 0 <= i < |x.failures| && x.failures[i].Some?
      ensures WithinLimit(x.failures[i].value, 0)
    {
      if x.failures != x.preparedFailures {
        var f: nat :| FirstFailure(x.preparedFailures, f)
          && CutAfter(x.selected, f, x.prepared, x.preparedFailures, x.ready, x.failures);
      }
    }
    MergeRetains(x.failures, ExecutedResults(x));
    if x.ready != [] {
      ReportFollowsTargets(BatchOf(x), x.end);
      AtMostAllEmpty(x.failures, |x.failures|);
      BatchWithinBudget(ExecutedResults(x));
    }
  }

  lemma {:induction false} AtMostAllEmpty(failures: Failures, i: nat)
    requires i <= |failures|
    ensures EmptyBefore(failures, i) <= i
  {
    if i > 0 {
      AtMostAllEmpty(failures, i - 1);
    }
  }

  /** Merging in failures without output adds nothing to what is retained. */
  lemma {:induction false} MergeRetains(failures: Failures, queue: seq<TargetExecution>)
    requires forall i :: 0 <= i < |failures| && failures[i].Some? ==>
      WithinLimit(failures[i].value, 0)
    ensures Retained(MergeFrom(failures, queue)) <= Retained(queue)
  {
    if failures != [] {
      var rest := failures[1..];
      assert forall i :: 0 <= i < |rest| ==> rest[i] == failures[i + 1];
      if failures[0].None? && queue != [] {
        MergeRetains(rest, queue[1..]);
        assert MergeFrom(failures, queue)[1..] == MergeFrom(rest, queue[1..]);
      } else {
        MergeRetains(rest, queue);
        if failures[0].Some? {
          assert MergeFrom(failures, queue)[1..] == MergeFrom(rest, queue);
        }
      }
    }
  }
}
