/** Cancellation in the batch protocol: how much still starts after it, and what the report says
    about targets that were never started. */
module BatchCancellation {
  import opened Common
  import opened SshTypes
  import opened BatchScheduler
  import opened BatchOutcome
  import opened BatchBounds

  // ---------------------------------------------------------------- starts after cancellation

  /** The worker is past its last look at the cancellation flag and has not started yet. */
  predicate MayStillStart(worker: Worker) {
    worker.RecheckStop? || worker.Ready?
  }

  function StartsLeft(s: State): nat {
    Count(s.workers, (x: Worker) => MayStillStart(x))
  }

  lemma StepSpendsStart(b: Batch, s: State, choice: Choice)
    requires s.cancelled && Enabled(b, s, choice)
    ensures var s' := Apply(b, s, choice);
      s'.cancelled && |s'.started| + StartsLeft(s') <= |s.started| + StartsLeft(s)
  {
    if choice.Advance? {
      var w := choice.worker;
      CountUpdate(s.workers, w, Successor(b, s, s.workers[w], choice.result),
        (x: Worker) => MayStillStart(x));
    }
  }

  lemma {:induction false} RunSpendsStarts(b: Batch, s: State, schedule: seq<Choice>)
    requires s.cancelled && Legal(b, s, schedule)
    ensures var s' := Run(b, s, schedule);
      |s'.started| + StartsLeft(s') <= |s.started| + StartsLeft(s)
    decreases |schedule|
  {
    if schedule != [] {
      StepSpendsStart(b, s, schedule[0]);
      RunSpendsStarts(b, Apply(b, s, schedule[0]), schedule[1..]);
    }
  }

  /** Once cancellation is requested, only workers already past their last check of it still start
      an execution, each of them one: never more than there are workers. */
  lemma FewStartsAfterCancellation(b: Batch, s: State, schedule: seq<Choice>)
    requires Proper(b) && Reachable(b, s) && s.cancelled && Legal(b, s, schedule)
    ensures |Run(b, s, schedule).started| <= |s.started| + StartsLeft(s)
    ensures StartsLeft(s) <= b.workers
  {
    ReachableInv(b, s);
    RunSpendsStarts(b, s, schedule);
    CountAtMostLength(s.workers, (x: Worker) => MayStillStart(x));
  }

  /** A worker that can still claim an index although a flag has been set: one past its look at that
      flag. */
  predicate MayStillClaim(b: Batch, cancelled: bool, worker: Worker) {
    worker.Claim? || (cancelled && worker.CheckStop?)
  }

  ghost predicate Flagged(b: Batch, s: State) {
    s.cancelled || (b.failFast && s.stop)
  }

  function ClaimsLeft(b: Batch, s: State): nat {
    var cancelled := s.cancelled && !(b.failFast && s.stop);
    Count(s.workers, (x: Worker) => MayStillClaim(b, cancelled, x))
  }

  lemma StepSpendsClaim(b: Batch, s: State, choice: Choice)
    requires Flagged(b, s) && Enabled(b, s, choice)
    ensures var s' := Apply(b, s, choice);
      Flagged(b, s') && |s'.claimed| + ClaimsLeft(b, s') <= |s.claimed| + ClaimsLeft(b, s)
  {
    var s' := Apply(b, s, choice);
    var before := (x: Worker) => MayStillClaim(b, s.cancelled && !(b.failFast && s.stop), x);
    var after := (x: Worker) => MayStillClaim(b, s'.cancelled && !(b.failFast && s'.stop), x);
    if choice.Advance? {
      var w := choice.worker;
      CountUpdate(s.workers, w, Successor(b, s, s.workers[w], choice.result), before);
    }
    CountFewer(s'.workers, after, before);
  }

  lemma {:induction false} CountFewer<T(!new)>(xs: seq<T>, p: T -> bool, q: T -> bool)
    requires forall x :: p(x) ==> q(x)
    ensures Count(xs, p) <= Count(xs, q)
  {
    if xs != [] {
      CountFewer(xs[1..], p, q);
    }
  }

  /** Once a worker would see a flag in its first look, only those past that look still claim an
      index, each of them one. */
  lemma {:induction false} FewClaimsOnceFlagged(b: Batch, s: State, schedule: seq<Choice>)
    requires Flagged(b, s) && Legal(b, s, schedule)
    ensures |Run(b, s, schedule).claimed| <= |s.claimed| + ClaimsLeft(b, s)
    decreases |schedule|
  {
    if schedule != [] {
      StepSpendsClaim(b, s, schedule[0]);
      FewClaimsOnceFlagged(b, Apply(b, s, schedule[0]), schedule[1..]);
    }
  }

  // ---------------------------------------------------------------- the reason for an empty slot

  predicate EndedBy(worker: Worker, reason: EndReason) {
    worker.Ended? && worker.reason == reason
  }

  /** Some worker left the loop because it saw the cancellation flag. */
  predicate CancellationSeen(s: State) {
    exists w :: 0 <= w < |s.workers| && EndedBy(s.workers[w], SawCancellation)
  }

  /** In a finished run, target `i` has no result of its own. */
  ghost predicate LeftOut(b: Batch, s: State, i: nat) {
    && Reachable(b, s) && Quiescent(s)
    && |s.slots| == |b.targets| && i < |b.targets| && s.slots[i].None?
  }

  /** Another target was executed and failed, and the stop flag was set for it. */
  ghost predicate StoppedByFailure(b: Batch, s: State, i: nat) {
    && b.failFast && s.stop
    && exists j :: 0 <= j < |s.slots| && j != i && j in s.started
         && s.slots[j].Some? && !Success(s.slots[j].value) && s.slots[j].value.state != Skipped
  }

  /** A worker that ended leaves an index without a result for one of two reasons. */
  lemma LeftOutHasReason(b: Batch, s: State, i: nat)
    requires Inv(b, s) && LeftOut(b, s, i)
    ensures CancellationSeen(s) || exists w :: 0 <= w < |s.workers| && EndedBy(s.workers[w], SawStop)
  {
    if i < s.next {
      assert HeldBySome(s, i);
      var w :| 0 <= w < |s.workers| && Held(s.workers[w]) == Some(i);
      assert EndedBy(s.workers[w], SawCancellation) || EndedBy(s.workers[w], SawStop);
    } else {
      assert EndedBy(s.workers[0], SawCancellation) || EndedBy(s.workers[0], SawStop);
    }
  }

  /** Whatever the report says, a target without a result was never started, and either a worker saw
      the cancellation or an executed failure stopped the scheduling. The report says `Cancelled`
      exactly if cancellation was requested before its last look at the flag. */
  lemma LeftOutIsExplained(b: Batch, s: State, i: nat)
    requires Proper(b) && LeftOut(b, s, i)
    ensures i !in s.started
    ensures Report(b, s).results[i].state == if s.cancelled then Cancelled else Skipped
    ensures CancellationSeen(s) ==> s.cancelled
    ensures CancellationSeen(s) || StoppedByFailure(b, s, i)
  {
    ReachableInv(b, s);
    if i < s.next {
      assert HeldBySome(s, i);
      var w :| 0 <= w < |s.workers| && Held(s.workers[w]) == Some(i);
      assert !HasStarted(s.workers[w]);
    }
    LeftOutHasReason(b, s, i);
    if !CancellationSeen(s) {
      StopMeansFailure(b, s);
      assert GenuineAt(b, s.culprit, s.slots[s.culprit].value, s.cancelled);
    }
  }

  /** The report says that target `i` was cancelled, although no worker ever saw the cancellation:
      fail-fast had ended the run before. */
  ghost predicate CancelledInName(b: Batch, s: State, i: nat) {
    && LeftOut(b, s, i) && !CancellationSeen(s)
    && Report(b, s).results[i].state == Cancelled
  }

  // ---------------------------------------------------------------- a run that is cancelled in name

  /** All workers but the first `k` have yet to begin, and those have left because of the flag. */
  ghost predicate StoppedUpTo(b: Batch, s: State, k: nat) {
    && Reachable(b, s) && s.stop && !s.cancelled
    && |s.workers| == b.workers && |s.slots| == |b.targets|
    && (forall i :: 1 <= i < |s.slots| ==> s.slots[i].None?)
    && (forall w :: 0 <= w < k && w < b.workers ==> s.workers[w] == Ended(SawStop, None))
    && (forall w :: k <= w < b.workers ==> s.workers[w] == CheckCancel)
  }

  /** The first worker claims the first target before any other worker begins, and fails. */
  lemma FirstStops(b: Batch) returns (s: State)
    requires Proper(b) && b.failFast
    ensures StoppedUpTo(b, s, 1)
  {
    s := AllReady(b, 1, 1);
    s := FirstFails(b, s);
  }

  /** Every other worker sees the flag in its first round. */
  lemma {:induction false} OthersStop(b: Batch, s: State, k: nat) returns (s': State)
    requires Proper(b) && b.failFast && k <= b.workers && StoppedUpTo(b, s, k)
    ensures StoppedUpTo(b, s', b.workers)
    decreases b.workers - k
  {
    s' := s;
    if k < b.workers {
      var s1 := Advanced(b, s, k);
      var s2 := Advanced(b, s1, k);
      s' := OthersStop(b, s2, k + 1);
    }
  }

  /** When it happens: some run of a batch is reported cancelled in name exactly if the batch is run
      under fail-fast and has more than one target. */
  lemma CancelledInNameExactly(b: Batch)
    requires Proper(b)
    ensures (exists s, i: nat :: CancelledInName(b, s, i)) <==> b.failFast && |b.targets| >= 2
  {
    if b.failFast && |b.targets| >= 2 {
      var stopped := FirstStops(b);
      stopped := OthersStop(b, stopped, 1);
      StepReachable(b, stopped, Cancel);
      assert CancelledInName(b, Apply(b, stopped, Cancel), 1);
    }
    forall s, i: nat | CancelledInName(b, s, i) ensures b.failFast && |b.targets| >= 2 {
      LeftOutIsExplained(b, s, i);
    }
  }

  /** Where the only worker stands after `k` steps, if its execution fails. */
  function LoneWorker(target: ExecutionTarget, k: nat): Worker {
    if k == 0 then CheckCancel else if k == 1 then CheckStop else if k == 2 then Claim
    else if k == 3 then RecheckCancel(0) else if k == 4 then RecheckStop(0)
    else if k == 5 then Ready(0) else if k == 6 then Running(0)
    else if k == 7 then Publish(0, NotSpawned(target))
    else if k == 8 then Store(0, NotSpawned(target))
    else if k == 9 then CheckCancel else if k == 10 then CheckStop
    else Ended(SawStop, None)
  }

  ghost predicate LoneState(target: ExecutionTarget, s: State, k: nat) {
    && s.workers == [LoneWorker(target, k)] && !s.cancelled
    && |s.slots| == 2 && s.slots[1].None?
    && s.next == (if k < 3 then 0 else 1) && (s.stop <==> k >= 8)
  }

  lemma LoneStep(b: Batch, s: State, k: nat)
    requires |b.targets| == 2 && b.failFast && b.workers == 1
    requires k < 11 && LoneState(b.targets[0], s, k)
    ensures var step := Advance(0, NotSpawned(b.targets[0]));
      Enabled(b, s, step) && LoneState(b.targets[0], Apply(b, s, step), k + 1)
  {
  }

  /** A batch of two targets and one job in which it does: the first target fails, the worker stops,
      and cancellation arrives before the report is assembled. */
  lemma CancelledInNameExample(first: ExecutionTarget, second: ExecutionTarget)
    returns (schedule: seq<Choice>)
    ensures var b := Batch([first, second], true, 1);
      && |schedule| == 12 && schedule[11] == Cancel
      && (forall k :: 0 <= k < 11 ==> schedule[k] == Advance(0, NotSpawned(first)))
      && Legal(b, Initial(b), schedule)
      && CancelledInName(b, Run(b, Initial(b), schedule), 1)
  {
    var b := Batch([first, second], true, 1);
    schedule := [];
    var s := Initial(b);
    var step := Advance(0, NotSpawned(first));
    while |schedule| < 11
      invariant |schedule| <= 11 && forall k :: 0 <= k < |schedule| ==> schedule[k] == step
      invariant Legal(b, Initial(b), schedule) && Run(b, Initial(b), schedule) == s
      invariant LoneState(first, s, |schedule|)
      decreases 11 - |schedule|
    {
      LoneStep(b, s, |schedule|);
      RunOneMore(b, Initial(b), schedule, step);
      s := Apply(b, s, step);
      schedule := schedule + [step];
    }
    RunOneMore(b, Initial(b), schedule, Cancel);
    schedule := schedule + [Cancel];
  }
}
