/** `OpenSsh::run_batch` as one call: the checks before the workers start, a run of the protocol to
    its end, and the report. Which step comes next is up to a scheduler the code has no say in. */
module BatchRun {
  import opened Common
  import opened SshTypes
  import opened BatchScheduler
  import opened BatchOutcome
  import opened BatchBounds

  /** What a scheduler wishes for at its n-th turn. */
  type Scheduler = nat -> Choice

  /** There is still something to do: a worker has not ended, or the scheduler's wish is possible. */
  predicate GoesOn(b: Batch, s: State, wish: Choice) {
    !Quiescent(s) || Enabled(b, s, wish)
  }

  /** The schedule does what the scheduler wishes wherever that is possible, and no more than is
      still to be done. */
  ghost predicate Obeys(
    b: Batch, s: State, schedule: seq<Choice>, scheduler: Scheduler, turn: nat)
    requires Legal(b, s, schedule)
    decreases |schedule|
  {
    schedule == []
    || (GoesOn(b, s, scheduler(turn))
        && (Enabled(b, s, scheduler(turn)) ==> schedule[0] == scheduler(turn))
        && Obeys(b, Apply(b, s, schedule[0]), schedule[1..], scheduler, turn + 1))
  }

  lemma {:induction false} ObeysOneMore(
    b: Batch, s: State, schedule: seq<Choice>, scheduler: Scheduler, turn: nat, choice: Choice)
    requires Legal(b, s, schedule) && Obeys(b, s, schedule, scheduler, turn)
    requires var end, wish := Run(b, s, schedule), scheduler(turn + |schedule|);
      GoesOn(b, end, wish) && Enabled(b, end, choice) && (Enabled(b, end, wish) ==> choice == wish)
    ensures Legal(b, s, schedule + [choice])
    ensures Obeys(b, s, schedule + [choice], scheduler, turn)
    decreases |schedule|
  {
    RunOneMore(b, s, schedule, choice);
    var longer := schedule + [choice];
    if schedule == [] {
      assert longer[1..] == [];
    } else {
      assert longer[1..] == schedule[1..] + [choice];
      ObeysOneMore(b, Apply(b, s, schedule[0]), schedule[1..], scheduler, turn + 1, choice);
    }
  }

  /** A step that is possible in an unfinished run. */
  method SomeStep(b: Batch, s: State) returns (choice: Choice)
    requires Proper(b) && Reachable(b, s) && !Quiescent(s)
    ensures Enabled(b, s, choice)
  {
    var w := 0;
    AtLeastOneWorker(b, s);
    while s.workers[w].Ended?
      invariant w < |s.workers| && forall v :: 0 <= v < w ==> s.workers[v].Ended?
      decreases |s.workers| - w
    {
      w := w + 1;
    }
    CanAdvance(b, s, w);
    choice := Advance(w, NotSpawned(TargetOf(b, s.workers[w])));
  }

  /** The target a worker is running, or any other. */
  function TargetOf(b: Batch, worker: Worker): ExecutionTarget
    requires Proper(b)
  {
    if worker.Running? && worker.index < |b.targets| then b.targets[worker.index] else b.targets[0]
  }

  lemma AtLeastOneWorker(b: Batch, s: State)
    requires Proper(b) && Reachable(b, s)
    ensures |s.workers| == b.workers
  {
    ReachableInv(b, s);
  }

  lemma CanAdvance(b: Batch, s: State, w: nat)
    requires Proper(b) && Reachable(b, s) && w < |s.workers| && !s.workers[w].Ended?
    ensures Enabled(b, s, Advance(w, NotSpawned(TargetOf(b, s.workers[w]))))
  {
    ReachableInv(b, s);
    assert s.workers[w].Running? ==> Held(s.workers[w]) == Some(s.workers[w].index);
  }

  /** Workers run until all have ended; cancellation may still come before the last look at it. */
  method RunWorkers(b: Batch, scheduler: Scheduler) returns (end: State, schedule: seq<Choice>)
    requires Proper(b)
    ensures Legal(b, Initial(b), schedule) && Run(b, Initial(b), schedule) == end
    ensures Obeys(b, Initial(b), schedule, scheduler, 0)
    ensures !GoesOn(b, end, scheduler(|schedule|))
  {
    end, schedule := Initial(b), [];
    while GoesOn(b, end, scheduler(|schedule|))
      invariant Legal(b, Initial(b), schedule) && Run(b, Initial(b), schedule) == end
      invariant Obeys(b, Initial(b), schedule, scheduler, 0)
      decreases Measure(b, end)
    {
      var choice := scheduler(|schedule|);
      if !Enabled(b, end, choice) {
        choice := SomeStep(b, end);
      }
      ObeysOneMore(b, Initial(b), schedule, scheduler, 0, choice);
      RunOneMore(b, Initial(b), schedule, choice);
      StepDecreasesMeasure(b, end, choice);
      end := Apply(b, end, choice);
      schedule := schedule + [choice];
    }
  }

  /** `run_batch`: refused without targets, jobs or a command, and for no other reason; otherwise run
      to its end by `jobs` workers, or by one for each target if these are fewer. */
  method RunBatch(
    targets: seq<ExecutionTarget>, remoteCommand: seq<string>, jobs: nat, failFast: bool,
    scheduler: Scheduler)
    returns (result: Result<BatchReport, BatchError>, end: State)
    ensures result.Ok? <==>
      targets != [] && jobs > 0 && remoteCommand != [] && remoteCommand[0] != ""
    ensures result == Err(NoTargets) <==> targets == []
    ensures result == Err(NoJobs) <==> targets != [] && jobs == 0
    ensures result == Err(NoCommand) <==>
      targets != [] && jobs > 0 && (remoteCommand == [] || remoteCommand[0] == "")
    ensures result.Ok? ==>
      var b := Batch(targets, failFast, if jobs < |targets| then jobs else |targets|);
      && Proper(b) && Reachable(b, end) && Quiescent(end)
      && |end.slots| == |targets| && |end.workers| == b.workers
      && result.value == Report(b, end)
  {
    var prepared := Prepare(targets, remoteCommand, jobs, failFast);
    if prepared.Err? {
      return Err(prepared.error), Initial(Batch([], failFast, 0));
    }
    var b := prepared.value;
    var schedule;
    end, schedule := RunWorkers(b, scheduler);
    ReachableInv(b, end);
    result := Ok(Report(b, end));
  }

  lemma {:induction false} WishIsGranted(
    b: Batch, s: State, wanted: seq<Choice>, schedule: seq<Choice>, scheduler: Scheduler, turn: nat)
    requires Legal(b, s, wanted) && Legal(b, s, schedule)
    requires forall k :: 0 <= k < |wanted| ==> scheduler(turn + k) == wanted[k]
    requires !GoesOn(b, Run(b, s, wanted), scheduler(turn + |wanted|))
    requires Obeys(b, s, schedule, scheduler, turn)
    requires !GoesOn(b, Run(b, s, schedule), scheduler(turn + |schedule|))
    ensures schedule == wanted
    decreases |wanted|
  {
    assert scheduler(turn + 0) == scheduler(turn);
    if wanted != [] && schedule != [] {
      assert schedule[0] == wanted[0] == scheduler(turn);
      var s' := Apply(b, s, wanted[0]);
      forall k | 0 <= k < |wanted[1..]| ensures scheduler(turn + 1 + k) == wanted[1..][k] {
        assert scheduler(turn + (k + 1)) == wanted[k + 1];
      }
      WishIsGranted(b, s', wanted[1..], schedule[1..], scheduler, turn + 1);
    }
  }

  /** The scheduler that wants one schedule and then nothing more. */
  function Wanting(b: Batch, wanted: seq<Choice>): Scheduler
    requires Proper(b)
  {
    (turn: nat) =>
      if turn < |wanted| then wanted[turn] else Advance(b.workers, NotSpawned(b.targets[0]))
  }

  /** Running the workers loses nothing the protocol can do: for every complete schedule there is a
      scheduler under which it, and no other, is run. */
  lemma EveryScheduleIsRun(b: Batch, wanted: seq<Choice>, schedule: seq<Choice>)
    requires Proper(b) && Legal(b, Initial(b), wanted) && Quiescent(Run(b, Initial(b), wanted))
    requires Legal(b, Initial(b), schedule) && Obeys(b, Initial(b), schedule, Wanting(b, wanted), 0)
    requires !GoesOn(b, Run(b, Initial(b), schedule), Wanting(b, wanted)(|schedule|))
    ensures schedule == wanted
  {
    ReachableInv(b, Run(b, Initial(b), wanted));
    WishIsGranted(b, Initial(b), wanted, schedule, Wanting(b, wanted), 0);
  }
}
