/** What every run of the batch protocol guarantees: termination, ownership of indices, the fail-fast
    bounds, and the truth of the report. */
module BatchOutcome {
  import opened Common
  import opened SshTypes
  import opened Capture
  import opened BatchScheduler

  lemma ReachableInv(b: Batch, s: State)
    requires Proper(b) && Reachable(b, s)
    ensures Inv(b, s)
  {
    var schedule :| Legal(b, Initial(b), schedule) && Run(b, Initial(b), schedule) == s;
    InitialInv(b);
    RunKeepsInv(b, Initial(b), schedule);
  }

  // ---------------------------------------------------------------- termination

  /** Steps a worker can still take before it ends or claims again. */
  function Rank(worker: Worker): nat {
    match worker
    case RecheckCancel(_) => 9
    case RecheckStop(_) => 8
    case Ready(_) => 7
    case Running(_) => 6
    case Publish(_, _) => 5
    case Store(_, _) => 4
    case CheckCancel => 3
    case CheckStop => 2
    case Claim => 1
    case Ended(_, _) => 0
  }

  function RankSum(workers: seq<Worker>): nat {
    if workers == [] then 0 else Rank(workers[0]) + RankSum(workers[1..])
  }

  /** Nine steps for each index still unclaimed, the steps of the workers, one cancellation. */
  function Measure(b: Batch, s: State): nat {
    9 * (|b.targets| - Min(s.next, |b.targets|)) + RankSum(s.workers) + if s.cancelled then 0 else 1
  }

  lemma {:induction false} RankSumUpdate(workers: seq<Worker>, w: nat, worker: Worker)
    requires w < |workers|
    ensures RankSum(workers[w := worker]) + Rank(workers[w]) == RankSum(workers) + Rank(worker)
  {
    if w == 0 {
      assert workers[0 := worker][1..] == workers[1..];
    } else {
      assert workers[w := worker][1..] == workers[1..][w - 1 := worker];
      RankSumUpdate(workers[1..], w - 1, worker);
    }
  }

  lemma StepDecreasesMeasure(b: Batch, s: State, choice: Choice)
    requires Enabled(b, s, choice)
    ensures Measure(b, Apply(b, s, choice)) < Measure(b, s)
  {
    if choice.Advance? {
      var worker := s.workers[choice.worker];
      RankSumUpdate(s.workers, choice.worker, Successor(b, s, worker, choice.result));
    }
  }

  lemma {:induction false} RunDecreasesMeasure(b: Batch, s: State, schedule: seq<Choice>)
    requires Legal(b, s, schedule)
    ensures |schedule| + Measure(b, Run(b, s, schedule)) <= Measure(b, s)
    decreases |schedule|
  {
    if schedule != [] {
      StepDecreasesMeasure(b, s, schedule[0]);
      RunDecreasesMeasure(b, Apply(b, s, schedule[0]), schedule[1..]);
    }
  }

  lemma {:induction false} InitialRank(count: nat)
    ensures RankSum(seq(count, _ => CheckCancel)) == 3 * count
  {
    if count > 0 {
      assert seq(count, _ => CheckCancel)[1..] == seq(count - 1, _ => CheckCancel);
      InitialRank(count - 1);
    }
  }

  /** No schedule is longer than this, whatever the interleaving. */
  lemma SchedulesAreBounded(b: Batch, schedule: seq<Choice>)
    requires Legal(b, Initial(b), schedule)
    ensures |schedule| <= 9 * |b.targets| + 3 * b.workers + 1
  {
    RunDecreasesMeasure(b, Initial(b), schedule);
    InitialRank(b.workers);
  }

  /** Until every worker has ended some step is possible: the protocol cannot get stuck. With the
      bound above, every maximal run ends with all workers joined. */
  lemma NeverStuck(b: Batch, s: State)
    requires Proper(b) && Reachable(b, s)
    ensures Quiescent(s) <==>
      forall w: nat, result :: !Enabled(b, s, Advance(w, result))
  {
    ReachableInv(b, s);
    if !Quiescent(s) {
      var w :| 0 <= w < |s.workers| && !s.workers[w].Ended?;
      var target := if s.workers[w].Running? then b.targets[s.workers[w].index] else b.targets[0];
      assert s.workers[w].Running? ==> Held(s.workers[w]) == Some(s.workers[w].index);
      assert Enabled(b, s, Advance(w, FailedExecution(target, SpawnFailed)));
    }
  }

  // ---------------------------------------------------------------- ownership

  /** In every reachable state each index has been claimed at most once, in order, and executed at
      most once and only after its claim; executions in flight are of distinct indices and at most
      `workers` = min(jobs, targets) many. */
  lemma IndicesAreOwned(b: Batch, s: State)
    requires Proper(b) && Reachable(b, s)
    ensures s.claimed == seq(Min(s.next, |b.targets|), k => k)
    ensures Distinct(s.started) && forall i :: i in s.started ==> i in s.claimed
    ensures forall v, w ::
      0 <= v < w < |s.workers| && s.workers[v].Running? && s.workers[w].Running? ==>
        s.workers[v].index != s.workers[w].index
    ensures Count(s.workers, (x: Worker) => x.Running?) <= Min(b.workers, |b.targets|)
    ensures |s.slots| == |b.targets|
    ensures forall i :: 0 <= i < |b.targets| && s.slots[i].Some? ==>
      i in s.started && GenuineAt(b, i, s.slots[i].value, s.cancelled)
  {
    ReachableInv(b, s);
    CountAtMostLength(s.workers, (x: Worker) => x.Running?);
    forall i | i in s.started ensures i in s.claimed {
      assert s.claimed[i] == i;
    }
    forall v, w | 0 <= v < w < |s.workers| && s.workers[v].Running? && s.workers[w].Running?
      ensures s.workers[v].index != s.workers[w].index
    {
      assert Held(s.workers[v]) != Held(s.workers[w]);
    }
  }

  // ---------------------------------------------------------------- the report

  /** One result per target, in target order, for the right environment. */
  lemma ReportFollowsTargets(b: Batch, s: State)
    requires Proper(b) && Reachable(b, s)
    ensures |s.slots| == |b.targets|
    ensures |Report(b, s).results| == |b.targets|
    ensures forall i :: 0 <= i < |b.targets| ==>
      Report(b, s).results[i].environment == b.targets[i].environment
    ensures Report(b, s).streamLimit == EffectiveStreamLimit(|b.targets|)
    ensures forall i :: 0 <= i < |b.targets| ==>
      WithinLimit(Report(b, s).results[i], Report(b, s).streamLimit)
  {
    ReachableInv(b, s);
  }

  /** Word for word: a stored result is reported as it is; a target without one is reported without
      output or exit code, as cancelled if cancellation was requested by then, and otherwise as
      skipped because of fail-fast. */
  lemma ReportTellsWhatHappened(b: Batch, s: State, i: nat)
    requires |s.slots| == |b.targets| && i < |b.targets|
    ensures |Report(b, s).results| == |b.targets|
    ensures s.slots[i].Some? ==> Report(b, s).results[i] == s.slots[i].value
    ensures s.slots[i].None? ==>
      var nothing := CapturedStream(Text([]), false, 0);
      Report(b, s).results[i] ==
        if s.cancelled
        then TargetExecution(b.targets[i].environment, Cancelled, None, nothing, nothing,
               Some(Cancellation))
        else TargetExecution(b.targets[i].environment, Skipped, None, nothing, nothing,
               Some(FailFast))
  {
  }

  /** An empty slot of a finished run that was not cancelled: some worker saw the stop flag. */
  lemma EmptySlotMeansStop(b: Batch, s: State, i: nat)
    requires Inv(b, s) && Quiescent(s) && !s.cancelled
    requires i < |b.targets| && s.slots[i].None?
    ensures b.failFast && s.stop
  {
    if i < s.next {
      assert HeldBySome(s, i);
      var w :| 0 <= w < |s.workers| && Held(s.workers[w]) == Some(i);
      assert s.workers[w].Ended?;
    } else {
      assert s.workers[0].Ended?;
    }
  }

  lemma StopMeansFailure(b: Batch, s: State)
    requires Inv(b, s) && Quiescent(s) && s.stop
    ensures s.culprit < |b.targets| && s.slots[s.culprit].Some?
    ensures !Success(s.slots[s.culprit].value)
  {
    assert s.workers[s.setter].Ended?;
  }

  /** The report tells the truth about targets it calls skipped: fail-fast was on, nothing was
      cancelled, and another target was really executed and failed. */
  lemma SkippedIsExplained(b: Batch, s: State, i: nat)
    requires Proper(b) && Reachable(b, s) && Quiescent(s)
    requires i < |b.targets| && |s.slots| == |b.targets|
    requires Report(b, s).results[i].state == Skipped
    ensures b.failFast && !s.cancelled && i !in s.started
    ensures exists j ::
      && 0 <= j < |b.targets| && j != i && j in s.started
      && s.slots[j] == Some(Report(b, s).results[j])
      && !Success(Report(b, s).results[j]) && Report(b, s).results[j].state != Skipped
  {
    ReachableInv(b, s);
    assert s.slots[i].None?;
    EmptySlotMeansStop(b, s, i);
    StopMeansFailure(b, s);
    var j := s.culprit;
    assert GenuineAt(b, j, s.slots[j].value, s.cancelled);
    assert s.slots[j] == Some(Report(b, s).results[j]);
    if i < s.next {
      assert HeldBySome(s, i);
      var w :| 0 <= w < |s.workers| && Held(s.workers[w]) == Some(i);
      assert !HasStarted(s.workers[w]);
    }
  }

  /** Without fail-fast and without cancellation nothing is left out. */
  lemma EverythingRuns(b: Batch, s: State)
    requires Proper(b) && Reachable(b, s) && Quiescent(s) && !b.failFast && !s.cancelled
    ensures |s.slots| == |b.targets|
    ensures forall i :: 0 <= i < |b.targets| ==> s.slots[i].Some? && i in s.started
  {
    ReachableInv(b, s);
    forall i | 0 <= i < |b.targets| ensures s.slots[i].Some? {
      if s.slots[i].None? {
        EmptySlotMeansStop(b, s, i);
      }
    }
  }

  /** A batch succeeds exactly when every target was executed and succeeded. */
  lemma SucceededMeansAllDid(b: Batch, s: State)
    requires Proper(b) && Reachable(b, s) && Quiescent(s)
    ensures |s.slots| == |b.targets|
    ensures ReportSucceeded(Report(b, s)) <==>
      forall i :: 0 <= i < |b.targets| ==>
        i in s.started && s.slots[i].Some? && s.slots[i].value.state == Succeeded
  {
    ReachableInv(b, s);
    var results := Report(b, s).results;
    if ReportSucceeded(Report(b, s)) {
      forall i | 0 <= i < |b.targets|
        ensures i in s.started && s.slots[i].Some? && s.slots[i].value.state == Succeeded
      {
        assert results[i] in results;
      }
    }
  }

  // ---------------------------------------------------------------- fail-fast bounds

  function HeldSet(workers: seq<Worker>): set<nat> {
    if workers == [] then {}
    else (if Held(workers[0]).Some? then {Held(workers[0]).value} else {}) + HeldSet(workers[1..])
  }

  lemma {:induction false} HeldSetBound(workers: seq<Worker>)
    ensures |HeldSet(workers)| <= Count(workers, (x: Worker) => Held(x).Some?)
    ensures forall w :: 0 <= w < |workers| && Held(workers[w]).Some? ==>
      Held(workers[w]).value in HeldSet(workers)
  {
    if workers != [] {
      HeldSetBound(workers[1..]);
      forall w | 0 <= w < |workers| && Held(workers[w]).Some?
        ensures Held(workers[w]).value in HeldSet(workers)
      {
        if w > 0 {
          assert workers[w] == workers[1..][w - 1];
        }
      }
    }
  }

  /** Once the flag is set, at most `workers - 1` executions still start. */
  lemma LateStartsBounded(b: Batch, s: State)
    requires Proper(b) && Reachable(b, s)
    ensures s.lateStarts <= b.workers - 1
  {
    ReachableInv(b, s);
  }

  /** The claimed indices for which there is no result. */
  function Dropped(b: Batch, s: State): set<nat>
    requires |s.slots| == |b.targets|
  {
    set i: nat | i < |b.targets| && i < s.next && s.slots[i].None?
  }

  /** Whoever claimed an index without storing a result still holds it at the end. */
  lemma DroppedIsHeld(b: Batch, s: State)
    requires Proper(b) && Reachable(b, s) && Quiescent(s) && |s.slots| == |b.targets|
    ensures Dropped(b, s) <= HeldSet(s.workers)
  {
    ReachableInv(b, s);
    HeldSetBound(s.workers);
    forall i | i in Dropped(b, s) ensures i in HeldSet(s.workers) {
      assert HeldBySome(s, i);
    }
  }

  /** In a finished run that was not cancelled at most `workers - 1` claimed indices are never
      executed: each worker gives up at most one, and the one that set the flag none. */
  lemma DroppedBounded(b: Batch, s: State)
    requires Proper(b) && Reachable(b, s) && Quiescent(s) && !s.cancelled
    ensures |s.slots| == |b.targets| && |Dropped(b, s)| <= b.workers - 1
  {
    ReachableInv(b, s);
    if Dropped(b, s) != {} {
      var i :| i in Dropped(b, s);
      EmptySlotMeansStop(b, s, i);
      HeldSetBound(s.workers);
      DroppedIsHeld(b, s);
      SubsetSize(Dropped(b, s), HeldSet(s.workers));
      assert s.workers[s.setter].Ended?;
      CountMissesOne(s.workers, s.setter, (x: Worker) => Held(x).Some?);
    }
  }

  lemma {:induction false} SubsetSize<T>(a: set<T>, b: set<T>)
    requires a <= b
    ensures |a| <= |b|
  {
    if a != {} {
      var x :| x in a;
      SubsetSize(a - {x}, b - {x});
    }
  }

  // ---------------------------------------------------------------- determinism

  /** Executions return what `outcomes` says, target by target. */
  ghost predicate Follows(
    b: Batch, s: State, schedule: seq<Choice>, outcomes: seq<TargetExecution>)
    requires Legal(b, s, schedule) && |outcomes| == |b.targets|
    decreases |schedule|
  {
    schedule == []
    || ((schedule[0].Advance? && s.workers[schedule[0].worker].Running? ==>
           schedule[0].result == outcomes[s.workers[schedule[0].worker].index])
        && Follows(b, Apply(b, s, schedule[0]), schedule[1..], outcomes))
  }

  /** Results in hand and in slots are the outcomes of their own index. */
  ghost predicate Agrees(b: Batch, s: State, outcomes: seq<TargetExecution>)
    requires |outcomes| == |b.targets|
  {
    && |s.slots| == |b.targets|
    && (forall w :: 0 <= w < |s.workers| && Carried(s.workers[w]).Some? ==>
          s.workers[w].index < |b.targets|
          && Carried(s.workers[w]).value == outcomes[s.workers[w].index])
    && (forall i :: 0 <= i < |b.targets| && s.slots[i].Some? ==> s.slots[i].value == outcomes[i])
  }

  lemma {:induction false} RunAgrees(
    b: Batch, s: State, schedule: seq<Choice>, outcomes: seq<TargetExecution>)
    requires Legal(b, s, schedule) && |outcomes| == |b.targets|
    requires Follows(b, s, schedule, outcomes) && Agrees(b, s, outcomes)
    ensures Agrees(b, Run(b, s, schedule), outcomes)
    decreases |schedule|
  {
    if schedule != [] {
      if schedule[0].Advance? {
        assert Carried(s.workers[schedule[0].worker]).Some? ==>
          Carried(s.workers[schedule[0].worker]).value
            == outcomes[s.workers[schedule[0].worker].index];
      }
      RunAgrees(b, Apply(b, s, schedule[0]), schedule[1..], outcomes);
    }
  }

  /** Without fail-fast and cancellation the report is the list of outcomes, for every number of
      jobs and every interleaving. */
  lemma EveryScheduleSameReport(b: Batch, schedule: seq<Choice>, outcomes: seq<TargetExecution>)
    requires Proper(b) && |outcomes| == |b.targets| && !b.failFast
    requires Legal(b, Initial(b), schedule) && Follows(b, Initial(b), schedule, outcomes)
    requires Quiescent(Run(b, Initial(b), schedule)) && !Run(b, Initial(b), schedule).cancelled
    ensures |Run(b, Initial(b), schedule).slots| == |b.targets|
    ensures Report(b, Run(b, Initial(b), schedule)).results == outcomes
  {
    var s := Run(b, Initial(b), schedule);
    assert Reachable(b, s);
    RunAgrees(b, Initial(b), schedule, outcomes);
    EverythingRuns(b, s);
  }

  // ---------------------------------------------------------------- one job

  /** The loop a reader expects of one job: run the targets in order, and after a failure under
      fail-fast skip the rest. */
  function SequentialLoop(b: Batch, outcomes: seq<TargetExecution>, k: nat): seq<TargetExecution>
    requires |outcomes| == |b.targets| && k <= |b.targets|
    decreases |b.targets| - k
  {
    if k == |b.targets| then []
    else if b.failFast && !Success(outcomes[k]) then [outcomes[k]] + SkipFrom(b, k + 1)
    else [outcomes[k]] + SequentialLoop(b, outcomes, k + 1)
  }

  function SkipFrom(b: Batch, k: nat): seq<TargetExecution>
    requires k <= |b.targets|
  {
    seq(|b.targets| - k, i requires 0 <= i < |b.targets| - k =>
      SkippedExecution(b.targets[k + i].environment, false))
  }

  /** With one worker a failure is always the last claimed index. */
  ghost predicate FailureIsLast(b: Batch, s: State)
    requires Shape(b, s)
  {
    b.workers == 1 && b.failFast ==>
      && (Held(s.workers[0]).Some? ==> Held(s.workers[0]).value + 1 == s.next)
      && (s.workers[0].Store? && !Success(s.workers[0].result) ==> s.stop)
      && (forall i :: 0 <= i < |b.targets| && s.slots[i].Some? && !Success(s.slots[i].value) ==>
            s.stop && i + 1 == s.next)
      && (s.stop ==> Leaving(s.workers[0]))
  }

  lemma StepKeepsFailureIsLast(b: Batch, s: State, choice: Choice)
    requires Inv(b, s) && FailureIsLast(b, s) && Enabled(b, s, choice)
    ensures Inv(b, Apply(b, s, choice)) && FailureIsLast(b, Apply(b, s, choice))
  {
    StepKeepsInv(b, s, choice);
    OnlyWorkerKeepsFailureIsLast(b, s, choice);
  }

  lemma OnlyWorkerKeepsFailureIsLast(b: Batch, s: State, choice: Choice)
    requires Enabled(b, s, choice)
    requires Shape(b, s) && FailureIsLast(b, s) && Shape(b, Apply(b, s, choice))
    ensures FailureIsLast(b, Apply(b, s, choice))
  {
  }

  lemma {:induction false} RunKeepsFailureIsLast(b: Batch, s: State, schedule: seq<Choice>)
    requires Inv(b, s) && FailureIsLast(b, s) && Legal(b, s, schedule)
    ensures Inv(b, Run(b, s, schedule)) && FailureIsLast(b, Run(b, s, schedule))
    decreases |schedule|
  {
    if schedule != [] {
      StepKeepsFailureIsLast(b, s, schedule[0]);
      RunKeepsFailureIsLast(b, Apply(b, s, schedule[0]), schedule[1..]);
    }
  }

  /** One worker that was not cancelled has stored a result for every index it claimed, and it
      claimed at least one. If indices are left, the last result is a failure under fail-fast. */
  lemma OneJobFillsClaimed(b: Batch, s: State)
    requires Inv(b, s) && FailureIsLast(b, s) && b.workers == 1 && Quiescent(s) && !s.cancelled
    ensures s.next > 0
    ensures forall i :: 0 <= i < |b.targets| ==> (s.slots[i].Some? <==> i < s.next)
    ensures s.next < |b.targets| ==> b.failFast && !Success(s.slots[s.next - 1].value)
  {
    assert s.workers[0].Ended?;
    if s.workers[0].reason == SawStop {
      StopMeansFailure(b, s);
    }
    assert Held(s.workers[0]).None?;
    assert forall i: nat :: !HeldBySome(s, i);
  }

  /** Behind a result there is another one, unless it is a failure under fail-fast. */
  lemma OneJobAt(b: Batch, s: State, k: nat)
    requires Inv(b, s) && FailureIsLast(b, s) && b.workers == 1 && Quiescent(s) && !s.cancelled
    requires k < |b.targets| && s.slots[k].Some?
    ensures b.failFast && !Success(s.slots[k].value) ==>
      forall i :: k < i < |b.targets| ==> s.slots[i].None?
    ensures !(b.failFast && !Success(s.slots[k].value)) && k + 1 < |b.targets| ==>
      s.slots[k + 1].Some?
  {
    OneJobFillsClaimed(b, s);
  }

  lemma SkippedAfter(b: Batch, s: State, k: nat)
    requires |s.slots| == |b.targets| && k < |b.targets| && !s.cancelled
    requires forall i :: k < i < |b.targets| ==> s.slots[i].None?
    ensures Report(b, s).results[k + 1..] == SkipFrom(b, k + 1)
  {
  }

  /** A finished state of one worker reads as the sequential loop from any index it has filled. */
  lemma {:induction false} ReportFromIsSequential(
    b: Batch, s: State, outcomes: seq<TargetExecution>, k: nat)
    requires Inv(b, s) && FailureIsLast(b, s) && b.workers == 1
    requires Quiescent(s) && !s.cancelled
    requires |outcomes| == |b.targets| && Agrees(b, s, outcomes)
    requires k <= |b.targets| && (k < |b.targets| ==> s.slots[k].Some?)
    ensures Report(b, s).results[k..] == SequentialLoop(b, outcomes, k)
    decreases |b.targets| - k
  {
    var results := Report(b, s).results;
    if k < |b.targets| {
      OneJobAt(b, s, k);
      assert results[k..] == [results[k]] + results[k + 1..];
      if b.failFast && !Success(outcomes[k]) {
        SkippedAfter(b, s, k);
      } else {
        ReportFromIsSequential(b, s, outcomes, k + 1);
      }
    }
  }

  /** With one job the report is that of the sequential loop: successes, then the first failure,
      then everything else skipped. */
  lemma OneJobIsSequential(b: Batch, schedule: seq<Choice>, outcomes: seq<TargetExecution>)
    requires Proper(b) && b.workers == 1 && |outcomes| == |b.targets|
    requires Legal(b, Initial(b), schedule) && Follows(b, Initial(b), schedule, outcomes)
    requires Quiescent(Run(b, Initial(b), schedule)) && !Run(b, Initial(b), schedule).cancelled
    ensures |Run(b, Initial(b), schedule).slots| == |b.targets|
    ensures Report(b, Run(b, Initial(b), schedule)).results == SequentialLoop(b, outcomes, 0)
  {
    var s := Run(b, Initial(b), schedule);
    InitialInv(b);
    RunKeepsFailureIsLast(b, Initial(b), schedule);
    RunAgrees(b, Initial(b), schedule, outcomes);
    OneJobFillsClaimed(b, s);
    ReportFromIsSequential(b, s, outcomes, 0);
    assert Report(b, s).results[0..] == Report(b, s).results;
  }
}
