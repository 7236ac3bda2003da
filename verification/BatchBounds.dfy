/** The fail-fast bounds are exact: every number they allow is reached by some run. */
module BatchBounds {
  import opened Common
  import opened SshTypes
  import opened BatchScheduler
  import opened BatchOutcome
  import ChildProcess

  /** What the execution of a target returns if no process can be spawned for it. */
  function NotSpawned(target: ExecutionTarget): TargetExecution {
    FailedExecution(target,
      if target.ssh.workingDirectory.None? then SpawnFailed else InvalidTarget)
  }

  /** It is what `ExecuteCaptured` does return then, for every command the batch accepts. */
  lemma NotSpawnedIsReturned(
    targets: seq<ExecutionTarget>, remoteCommand: seq<string>, jobs: nat, failFast: bool,
    target: ExecutionTarget)
    requires Prepare(targets, remoteCommand, jobs, failFast).Ok?
    ensures NotSpawned(target) == ChildProcess.NeverStarted(target, remoteCommand)
  {
  }

  /** Worker `w` takes one step; an execution it ends is one that could not be started. */
  lemma Advanced(b: Batch, s: State, w: nat) returns (s': State)
    requires Proper(b) && Reachable(b, s)
    requires w < |s.workers| && !s.workers[w].Ended?
    requires s.workers[w].Running? ==> s.workers[w].index < |b.targets|
    ensures var target :=
        if s.workers[w].Running? then b.targets[s.workers[w].index] else b.targets[0];
      && Enabled(b, s, Advance(w, NotSpawned(target)))
      && s' == Apply(b, s, Advance(w, NotSpawned(target)))
    ensures Reachable(b, s')
  {
    var target := if s.workers[w].Running? then b.targets[s.workers[w].index] else b.targets[0];
    s' := Apply(b, s, Advance(w, NotSpawned(target)));
    StepReachable(b, s, Advance(w, NotSpawned(target)));
  }

  // ---------------------------------------------------------------- the first worker fails

  /** The first worker is about to start its execution, and nothing stands in its way. */
  ghost predicate FirstReady(b: Batch, s: State) {
    && Reachable(b, s) && |s.workers| == b.workers > 0 && s.workers[0] == Ready(0)
    && |s.slots| == |b.targets| && !s.stop && !s.cancelled
  }

  /** It runs, fails, and sets the flag. */
  lemma FirstRuns(b: Batch, s: State) returns (s': State)
    requires Proper(b) && b.failFast && FirstReady(b, s)
    ensures Reachable(b, s') && s'.stop && !s'.cancelled
    ensures s'.workers == s.workers[0 := Store(0, NotSpawned(b.targets[0]))]
    ensures s'.slots == s.slots && s'.next == s.next && s'.lateStarts == s.lateStarts
  {
    s' := Advanced(b, s, 0);
    s' := Advanced(b, s', 0);
    s' := Advanced(b, s', 0);
  }

  /** It stores its result and leaves because of the flag it has set. */
  lemma FirstFails(b: Batch, s: State) returns (s': State)
    requires Proper(b) && b.failFast && FirstReady(b, s)
    ensures Reachable(b, s') && s'.stop && !s'.cancelled
    ensures s'.workers == s.workers[0 := Ended(SawStop, None)]
    ensures s'.slots == s.slots[0 := Some(NotSpawned(b.targets[0]))]
    ensures s'.next == s.next && s'.lateStarts == s.lateStarts
  {
    s' := FirstRuns(b, s);
    s' := Advanced(b, s', 0);
    s' := Advanced(b, s', 0);
    s' := Advanced(b, s', 0);
  }

  // ---------------------------------------------------------------- workers in step

  /** The first `k` workers have claimed the index of their own number and stand before the second
      look at the flag, or, the first `ready` of them, behind it. The others have yet to begin. */
  ghost predicate InStep(b: Batch, s: State, k: nat, ready: nat) {
    && Reachable(b, s) && !s.stop && !s.cancelled
    && |s.workers| == b.workers && s.next == k && s.lateStarts == 0
    && s.slots == Initial(b).slots
    && (forall w :: 0 <= w < b.workers ==>
          s.workers[w] == StandsAt(w, k, ready))
  }

  function StandsAt(w: nat, k: nat, ready: nat): Worker {
    if w < ready then Ready(w) else if w < k then RecheckStop(w) else CheckCancel
  }

  lemma NextClaims(b: Batch, s: State, k: nat) returns (s': State)
    requires Proper(b) && k < b.workers && InStep(b, s, k, 0)
    ensures InStep(b, s', k + 1, 0)
  {
    s' := Advanced(b, s, k);
    s' := Advanced(b, s', k);
    s' := Advanced(b, s', k);
    s' := Advanced(b, s', k);
  }

  lemma {:induction false} Claimed(b: Batch, k: nat) returns (s: State)
    requires Proper(b) && k <= b.workers
    ensures InStep(b, s, k, 0)
  {
    if k == 0 {
      s := Initial(b);
      assert Legal(b, s, []) && Run(b, s, []) == s;
    } else {
      s := Claimed(b, k - 1);
      s := NextClaims(b, s, k - 1);
    }
  }

  lemma {:induction false} AllReady(b: Batch, k: nat, ready: nat) returns (s: State)
    requires Proper(b) && ready <= k <= b.workers
    ensures InStep(b, s, k, ready)
  {
    if ready == 0 {
      s := Claimed(b, k);
    } else {
      s := AllReady(b, k, ready - 1);
      s := Advanced(b, s, ready - 1);
    }
  }

  // ---------------------------------------------------------------- late starts

  /** The first worker has failed, the next ones up to `k` were ready and have started nevertheless,
      and those up to `n` are still ready. */
  ghost predicate Late(b: Batch, s: State, k: nat, n: nat) {
    && Reachable(b, s) && s.stop && |s.workers| == b.workers && s.lateStarts + 1 == k
    && n <= b.workers && forall w :: k <= w < n ==> s.workers[w] == Ready(w)
  }

  lemma {:induction false} LateRun(b: Batch, k: nat, n: nat) returns (s: State)
    requires Proper(b) && b.failFast && 1 <= k <= n <= b.workers
    ensures Late(b, s, k, n)
  {
    if k == 1 {
      s := AllReady(b, n, n);
      s := FirstFails(b, s);
    } else {
      s := LateRun(b, k - 1, n);
      s := Advanced(b, s, k - 1);
    }
  }

  /** The number of executions that start after the flag is set can be anything below the number of
      workers, and nothing else; without fail-fast there are none. */
  lemma LateStartsExactly(b: Batch, n: nat)
    requires Proper(b)
    ensures (exists s :: Reachable(b, s) && s.lateStarts == n) <==>
      n == 0 || (b.failFast && n < b.workers)
  {
    if n == 0 {
      var s := Claimed(b, 0);
    } else if b.failFast && n < b.workers {
      var s := LateRun(b, n + 1, n + 1);
    }
    forall s | Reachable(b, s)
      ensures s.lateStarts == 0 || (b.failFast && s.lateStarts < b.workers)
    {
      ReachableInv(b, s);
      LateStartsBounded(b, s);
    }
  }

  // ---------------------------------------------------------------- dropped indices

  /** A finished run that was not cancelled. */
  ghost predicate Finished(b: Batch, s: State) {
    Reachable(b, s) && Quiescent(s) && !s.cancelled && |s.slots| == |b.targets|
  }

  /** The first worker has failed, and the next ones up to `k` have seen the flag: those that had
      claimed an index, up to `c`, keep it. */
  ghost predicate Left(b: Batch, s: State, k: nat, c: nat)
    requires Proper(b) && k <= b.workers
  {
    && Reachable(b, s) && s.stop && !s.cancelled && |s.workers| == b.workers && s.next == c
    && s.slots == Initial(b).slots[0 := Some(NotSpawned(b.targets[0]))]
    && (forall w :: 0 <= w < k ==> s.workers[w].Ended?)
    && (forall w :: k <= w < b.workers ==>
          s.workers[w] == StandsAt(w, c, 0))
  }

  lemma {:induction false} LeftRun(b: Batch, k: nat, c: nat) returns (s: State)
    requires Proper(b) && b.failFast && 1 <= c <= b.workers && 1 <= k <= b.workers
    ensures Left(b, s, k, c)
  {
    if k == 1 {
      s := AllReady(b, c, 1);
      s := FirstFails(b, s);
    } else {
      s := LeftRun(b, k - 1, c);
      s := Leaves(b, s, k - 1, c);
    }
  }

  lemma Leaves(b: Batch, s: State, k: nat, c: nat) returns (s': State)
    requires Proper(b) && b.failFast && k < b.workers && Left(b, s, k, c) && c > 0
    ensures Left(b, s', k + 1, c)
  {
    s' := Advanced(b, s, k);
    if k >= c {
      s' := Advanced(b, s', k);
    }
  }

  lemma LeftDrops(b: Batch, s: State, n: nat)
    requires Proper(b) && n < b.workers && Left(b, s, b.workers, n + 1)
    ensures Finished(b, s) && |Dropped(b, s)| == n
  {
    assert Dropped(b, s) == Between(1, n + 1);
  }

  /** Any run can be brought to its end without cancelling it. */
  lemma {:induction false} CanFinish(b: Batch, s: State) returns (end: State)
    requires Proper(b) && Reachable(b, s) && !s.cancelled
    ensures Finished(b, end)
    decreases Measure(b, s)
  {
    ReachableInv(b, s);
    if Quiescent(s) {
      end := s;
    } else {
      var w :| 0 <= w < |s.workers| && !s.workers[w].Ended?;
      assert s.workers[w].Running? ==> Held(s.workers[w]) == Some(s.workers[w].index);
      var target := if s.workers[w].Running? then b.targets[s.workers[w].index] else b.targets[0];
      end := Advanced(b, s, w);
      StepDecreasesMeasure(b, s, Advance(w, NotSpawned(target)));
      end := CanFinish(b, end);
    }
  }

  /** The number of claimed indices left without a result by a finished run that was not cancelled
      can be anything below the number of workers, and nothing else; without fail-fast there are
      none. */
  lemma DroppedExactly(b: Batch, n: nat)
    requires Proper(b)
    ensures (exists s :: Finished(b, s) && |Dropped(b, s)| == n) <==>
      n == 0 || (b.failFast && n < b.workers)
  {
    if b.failFast && n < b.workers {
      var s := LeftRun(b, b.workers, n + 1);
      LeftDrops(b, s, n);
    } else if n == 0 {
      var s := Claimed(b, 0);
      s := CanFinish(b, s);
      NoneDropped(b, s);
    }
    forall s | Finished(b, s)
      ensures |Dropped(b, s)| == 0 || (b.failFast && |Dropped(b, s)| < b.workers)
    {
      if b.failFast {
        DroppedBounded(b, s);
      } else {
        NoneDropped(b, s);
      }
    }
  }

  lemma NoneDropped(b: Batch, s: State)
    requires Proper(b) && Finished(b, s) && !b.failFast
    ensures Dropped(b, s) == {}
  {
    EverythingRuns(b, s);
  }
}
