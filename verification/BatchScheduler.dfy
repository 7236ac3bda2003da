/** The worker protocol of `OpenSsh::run_batch` as a transition system. Every atomic access of a
    worker is one step, steps of different workers interleave freely, cancellation may be requested
    at any time, and what an execution returns is chosen by the schedule. */
module BatchScheduler {
  import opened Common
  import opened SshTypes
  import opened Capture

  datatype Batch = Batch(targets: seq<ExecutionTarget>, failFast: bool, workers: nat)

  datatype EndReason = Exhausted | SawCancellation | SawStop

  /** Where a worker stands in its loop, with the index it holds. */
  datatype Worker =
    | CheckCancel
    | CheckStop
    | Claim
    | RecheckCancel(index: nat)
    | RecheckStop(index: nat)
    | Ready(index: nat)
    | Running(index: nat)
    | Publish(index: nat, result: TargetExecution)
    | Store(index: nat, result: TargetExecution)
    | Ended(reason: EndReason, dropped: Option<nat>)

  /** The shared state, and what the history variables record of the run: the claimed and the
      started indices in order, the executions started after `stop` was first set, and the worker
      (`setter`) and the index (`culprit`) that set it. */
  datatype State = State(
    next: nat,
    stop: bool,
    cancelled: bool,
    slots: seq<Option<TargetExecution>>,
    workers: seq<Worker>,
    claimed: seq<nat>,
    started: seq<nat>,
    lateStarts: nat,
    setter: nat,
    culprit: nat)

  datatype BatchError = NoTargets | NoJobs | NoCommand

  /** The checks before any worker is spawned, and the number of workers. */
  function Prepare(
    targets: seq<ExecutionTarget>, remoteCommand: seq<string>, jobs: nat, failFast: bool)
    : Result<Batch, BatchError>
  {
    if targets == [] then Err(NoTargets)
    else if jobs == 0 then Err(NoJobs)
    else if remoteCommand == [] || remoteCommand[0] == "" then Err(NoCommand)
    else Ok(Batch(targets, failFast, Min(jobs, |targets|)))
  }

  predicate Proper(b: Batch) {
    1 <= b.workers <= |b.targets|
  }

  function Initial(b: Batch): State {
    State(0, false, false, seq(|b.targets|, _ => None), seq(b.workers, _ => CheckCancel),
          [], [], 0, 0, 0)
  }

  /** A schedule decides what happens next: cancellation is requested, or a worker takes its next
      step. `result` is what its execution returns, and matters only to a running worker. */
  datatype Choice = Cancel | Advance(worker: nat, result: TargetExecution)

  predicate Enabled(b: Batch, s: State, choice: Choice) {
    match choice
    case Cancel => !s.cancelled
    case Advance(w, result) =>
      && w < |s.workers| && !s.workers[w].Ended?
      && (s.workers[w].Running? ==>
            && s.workers[w].index < |b.targets|
            && Genuine(result, b.targets[s.workers[w].index], s.cancelled,
                       EffectiveStreamLimit(|b.targets|)))
  }

  /** Where a worker stands after its next step. */
  function Successor(b: Batch, s: State, worker: Worker, result: TargetExecution): Worker {
    match worker
    case CheckCancel => if s.cancelled then Ended(SawCancellation, None) else CheckStop
    case CheckStop => if b.failFast && s.stop then Ended(SawStop, None) else Claim
    case Claim => if s.next >= |b.targets| then Ended(Exhausted, None) else RecheckCancel(s.next)
    case RecheckCancel(i) =>
      if s.cancelled then Ended(SawCancellation, Some(i)) else RecheckStop(i)
    case RecheckStop(i) => if b.failFast && s.stop then Ended(SawStop, Some(i)) else Ready(i)
    case Ready(i) => Running(i)
    case Running(i) => Publish(i, result)
    case Publish(i, r) => Store(i, r)
    case Store(_, _) => CheckCancel
    case Ended(_, _) => worker
  }

  /** The worker is about to set `stop_scheduling`. */
  predicate SetsStop(b: Batch, worker: Worker) {
    worker.Publish? && b.failFast && !Success(worker.result)
  }

  function Apply(b: Batch, s: State, choice: Choice): State
    requires Enabled(b, s, choice)
  {
    match choice
    case Cancel => s.(cancelled := true)
    case Advance(w, result) =>
      var worker := s.workers[w];
      var claims := worker.Claim? && s.next < |b.targets|;
      var fills := worker.Store? && worker.index < |s.slots|;
      var setsFirst := SetsStop(b, worker) && !s.stop;
      State(
        if worker.Claim? then s.next + 1 else s.next,
        s.stop || SetsStop(b, worker),
        s.cancelled,
        if fills then s.slots[worker.index := Some(worker.result)] else s.slots,
        s.workers[w := Successor(b, s, worker, result)],
        if claims then s.claimed + [s.next] else s.claimed,
        if worker.Ready? then s.started + [worker.index] else s.started,
        if worker.Ready? && s.stop then s.lateStarts + 1 else s.lateStarts,
        if setsFirst then w else s.setter,
        if setsFirst then worker.index else s.culprit)
  }

  /** A schedule every choice of which is possible when it is taken. */
  ghost predicate Legal(b: Batch, s: State, schedule: seq<Choice>)
    decreases |schedule|
  {
    schedule == []
    || (Enabled(b, s, schedule[0]) && Legal(b, Apply(b, s, schedule[0]), schedule[1..]))
  }

  ghost function Run(b: Batch, s: State, schedule: seq<Choice>): State
    requires Legal(b, s, schedule)
    decreases |schedule|
  {
    if schedule == [] then s else Run(b, Apply(b, s, schedule[0]), schedule[1..])
  }

  ghost predicate Reachable(b: Batch, s: State) {
    exists schedule :: Legal(b, Initial(b), schedule) && Run(b, Initial(b), schedule) == s
  }

  lemma {:induction false} RunOneMore(b: Batch, s: State, schedule: seq<Choice>, choice: Choice)
    requires Legal(b, s, schedule) && Enabled(b, Run(b, s, schedule), choice)
    ensures Legal(b, s, schedule + [choice])
    ensures Run(b, s, schedule + [choice]) == Apply(b, Run(b, s, schedule), choice)
    decreases |schedule|
  {
    var longer := schedule + [choice];
    if schedule == [] {
      assert longer[1..] == [];
    } else {
      assert longer[1..] == schedule[1..] + [choice];
      RunOneMore(b, Apply(b, s, schedule[0]), schedule[1..], choice);
    }
  }

  lemma StepReachable(b: Batch, s: State, choice: Choice)
    requires Reachable(b, s) && Enabled(b, s, choice)
    ensures Reachable(b, Apply(b, s, choice))
  {
    var schedule :| Legal(b, Initial(b), schedule) && Run(b, Initial(b), schedule) == s;
    RunOneMore(b, Initial(b), schedule, choice);
  }

  /** `thread::scope` has joined every worker. */
  predicate Quiescent(s: State) {
    forall w :: 0 <= w < |s.workers| ==> s.workers[w].Ended?
  }

  /** The report assembled after the join, when cancellation is read one last time. */
  function Report(b: Batch, s: State): BatchReport
    requires |s.slots| == |b.targets|
  {
    BatchReport(
      seq(|b.targets|, i requires 0 <= i < |b.targets| =>
        if s.slots[i].Some? then s.slots[i].value
        else SkippedExecution(b.targets[i].environment, s.cancelled)),
      EffectiveStreamLimit(|b.targets|))
  }

  // ---------------------------------------------------------------- the inductive invariant

  /** The index a worker has claimed and not yet stored a result for. */
  function Held(worker: Worker): Option<nat> {
    match worker
    case CheckCancel => None
    case CheckStop => None
    case Claim => None
    case RecheckCancel(i) => Some(i)
    case RecheckStop(i) => Some(i)
    case Ready(i) => Some(i)
    case Running(i) => Some(i)
    case Publish(i, _) => Some(i)
    case Store(i, _) => Some(i)
    case Ended(_, dropped) => dropped
  }

  /** The worker has started the execution of the index it holds. */
  predicate HasStarted(worker: Worker) {
    worker.Running? || worker.Publish? || worker.Store?
  }

  ghost predicate Shape(b: Batch, s: State) {
    && |s.slots| == |b.targets| && |s.workers| == b.workers
    && |s.claimed| == Min(s.next, |b.targets|)
    && (forall k :: 0 <= k < |s.claimed| ==> s.claimed[k] == k)
  }

  /** Held indices are claimed, unfilled, and held by one worker each. */
  ghost predicate Exclusive(b: Batch, s: State)
    requires Shape(b, s)
  {
    && (forall w :: 0 <= w < |s.workers| && Held(s.workers[w]).Some? ==>
          var i := Held(s.workers[w]).value;
          i < |b.targets| && i < s.next && s.slots[i].None?)
    && (forall v, w :: 0 <= v < w < |s.workers| && Held(s.workers[v]).Some? ==>
          Held(s.workers[v]) != Held(s.workers[w]))
    && (forall i :: s.next <= i < |b.targets| ==> s.slots[i].None?)
  }

  ghost predicate HeldBySome(s: State, i: nat) {
    exists w :: 0 <= w < |s.workers| && Held(s.workers[w]) == Some(i)
  }

  /** Every claimed index is stored or still in some worker's hands. */
  ghost predicate Accounted(b: Batch, s: State)
    requires Shape(b, s)
  {
    forall i :: 0 <= i < |b.targets| && i < s.next ==> s.slots[i].Some? || HeldBySome(s, i)
  }

  /** Started indices are distinct, and are exactly the stored ones and those being executed. */
  ghost predicate StartedOnce(b: Batch, s: State)
    requires Shape(b, s)
  {
    && Distinct(s.started)
    && (forall i :: i in s.started ==> i < |b.targets|)
    && (forall w :: 0 <= w < |s.workers| && Held(s.workers[w]).Some? ==>
          (Held(s.workers[w]).value in s.started <==> HasStarted(s.workers[w])))
    && (forall i :: 0 <= i < |b.targets| && s.slots[i].Some? ==> i in s.started)
    && (forall i :: i in s.started ==> i < s.next)
  }

  /** The finished result a worker carries to its slot. */
  function Carried(worker: Worker): Option<TargetExecution> {
    match worker
    case Publish(_, r) => Some(r)
    case Store(_, r) => Some(r)
    case _ => None
  }

  predicate GenuineAt(b: Batch, i: nat, result: TargetExecution, cancelled: bool) {
    i < |b.targets|
    && Genuine(result, b.targets[i], cancelled, EffectiveStreamLimit(|b.targets|))
  }

  /** Results, in hand or stored, are genuine results of the target they are stored for. */
  ghost predicate ResultsGenuine(b: Batch, s: State)
    requires Shape(b, s)
  {
    && (forall w :: 0 <= w < |s.workers| && Carried(s.workers[w]).Some? ==>
          GenuineAt(b, s.workers[w].index, Carried(s.workers[w]).value, s.cancelled))
    && (forall i :: 0 <= i < |b.targets| && s.slots[i].Some? ==>
          GenuineAt(b, i, s.slots[i].value, s.cancelled))
  }

  /** A worker stops only for a reason that holds from then on. */
  ghost predicate EndsJustified(b: Batch, s: State) {
    forall w :: 0 <= w < |s.workers| && s.workers[w].Ended? ==>
      match s.workers[w].reason
      case Exhausted => s.next > |b.targets| && s.workers[w].dropped.None?
      case SawCancellation => s.cancelled
      case SawStop => b.failFast && s.stop
  }

  /** The worker is on its way out of the loop: it takes no further index. */
  predicate Leaving(worker: Worker) {
    worker.Store? || worker.CheckCancel? || worker.CheckStop?
    || (worker.Ended? && worker.dropped.None?)
  }

  /** The worker that set the flag has stored, or is about to store, the failure that made it do
      so, and takes no further index. */
  ghost predicate StopJustified(b: Batch, s: State)
    requires Shape(b, s)
  {
    s.stop ==>
      && b.failFast && s.setter < |s.workers| && s.culprit < |b.targets|
      && Leaving(s.workers[s.setter])
      && (match s.slots[s.culprit]
          case Some(r) => !Success(r)
          case None => s.workers[s.setter].Store? && s.workers[s.setter].index == s.culprit
                       && !Success(s.workers[s.setter].result))
  }

  /** Only workers past their second check can still start once the flag is set. */
  ghost predicate FewLateStarts(b: Batch, s: State) {
    if s.stop then s.lateStarts + Count(s.workers, (x: Worker) => x.Ready?) <= b.workers - 1
    else s.lateStarts == 0
  }

  ghost predicate Inv(b: Batch, s: State) {
    && Proper(b) && Owned(b, s) && StartedOnce(b, s) && ResultsGenuine(b, s)
    && EndsJustified(b, s) && StopJustified(b, s) && FewLateStarts(b, s)
  }

  lemma InitialInv(b: Batch)
    requires Proper(b)
    ensures Inv(b, Initial(b))
  {
  }

  /** Worker `w` is the only one to move between `s` and `s'`. */
  ghost predicate OnlyMoves(s: State, s': State, w: nat) {
    && w < |s.workers| == |s'.workers| && s'.workers == s.workers[w := s'.workers[w]]
    && s'.cancelled == s.cancelled
  }

  ghost predicate Owned(b: Batch, s: State) {
    Shape(b, s) && Exclusive(b, s) && Accounted(b, s)
  }

  lemma HandsUnchanged(s: State, s': State, w: nat, i: nat)
    requires OnlyMoves(s, s', w) && HeldBySome(s, i)
    requires Held(s.workers[w]) == Some(i) ==> Held(s'.workers[w]) == Some(i)
    ensures HeldBySome(s', i)
  {
    var v :| 0 <= v < |s.workers| && Held(s.workers[v]) == Some(i);
    assert Held(s'.workers[v]) == Some(i);
  }

  /** A step that keeps what the worker holds. */
  lemma MoveKeepsOwned(b: Batch, s: State, s': State, w: nat)
    requires Owned(b, s) && OnlyMoves(s, s', w)
    requires s'.slots == s.slots && s'.next == s.next && s'.claimed == s.claimed
    requires Held(s'.workers[w]) == Held(s.workers[w])
    ensures Owned(b, s')
  {
    forall i | 0 <= i < |b.targets| && i < s'.next && HeldBySome(s, i) ensures HeldBySome(s', i) {
      HandsUnchanged(s, s', w, i);
    }
  }

  /** `fetch_add` hands out an index nobody has had. */
  lemma ClaimKeepsOwned(b: Batch, s: State, s': State, w: nat)
    requires Owned(b, s) && OnlyMoves(s, s', w)
    requires s'.slots == s.slots && s'.next == s.next + 1 && Held(s.workers[w]).None?
    requires if s.next < |b.targets|
             then Held(s'.workers[w]) == Some(s.next) && s'.claimed == s.claimed + [s.next]
             else Held(s'.workers[w]).None? && s'.claimed == s.claimed
    ensures Owned(b, s')
  {
    forall i | 0 <= i < |b.targets| && i < s'.next
      ensures s'.slots[i].Some? || HeldBySome(s', i)
    {
      if i == s.next {
        assert Held(s'.workers[w]) == Some(i);
      } else if s.slots[i].None? {
        HandsUnchanged(s, s', w, i);
      }
    }
  }

  /** Storing empties the worker's hands into its own slot. */
  lemma StoreKeepsOwned(b: Batch, s: State, s': State, w: nat, i: nat, result: TargetExecution)
    requires Owned(b, s) && OnlyMoves(s, s', w)
    requires Held(s.workers[w]) == Some(i) && Held(s'.workers[w]).None?
    requires i < |s.slots| && s'.slots == s.slots[i := Some(result)]
    requires s'.next == s.next && s'.claimed == s.claimed
    ensures Owned(b, s')
  {
    forall j | 0 <= j < |b.targets| && j < s'.next && s'.slots[j].None? ensures HeldBySome(s', j) {
      HandsUnchanged(s, s', w, j);
    }
  }

  lemma StepKeepsOwned(b: Batch, s: State, choice: Choice)
    requires Owned(b, s) && Enabled(b, s, choice)
    ensures Owned(b, Apply(b, s, choice))
  {
    var s' := Apply(b, s, choice);
    if choice.Advance? {
      var w := choice.worker;
      match s.workers[w] {
        case Claim => ClaimKeepsOwned(b, s, s', w);
        case Store(i, result) => StoreKeepsOwned(b, s, s', w, i, result);
        case _ => MoveKeepsOwned(b, s, s', w);
      }
    } else {
      forall i: nat | HeldBySome(s, i) ensures HeldBySome(s', i) {
        var v :| 0 <= v < |s.workers| && Held(s.workers[v]) == Some(i);
        assert Held(s'.workers[v]) == Some(i);
      }
    }
  }

  /** A step that starts nothing. Whatever it newly holds has not been started. */
  lemma MoveKeepsStartedOnce(b: Batch, s: State, s': State, w: nat)
    requires Owned(b, s) && StartedOnce(b, s) && Owned(b, s')
    requires OnlyMoves(s, s', w) && s'.started == s.started && s.next <= s'.next
    requires s'.slots == s.slots
    requires Held(s'.workers[w]).Some? ==>
      if Held(s.workers[w]) == Held(s'.workers[w])
      then HasStarted(s'.workers[w]) == HasStarted(s.workers[w])
      else Held(s'.workers[w]).value == s.next && !HasStarted(s'.workers[w])
    ensures StartedOnce(b, s')
  {
  }

  lemma StartKeepsStartedOnce(b: Batch, s: State, s': State, w: nat, i: nat)
    requires Owned(b, s) && StartedOnce(b, s) && Owned(b, s')
    requires OnlyMoves(s, s', w) && s'.next == s.next && s'.slots == s.slots
    requires s.workers[w] == Ready(i) && s'.workers[w] == Running(i) && s'.started == s.started + [i]
    ensures StartedOnce(b, s')
  {
    assert Held(s.workers[w]) == Some(i);
    assert i !in s.started;
    forall v | 0 <= v < |s'.workers| && Held(s'.workers[v]).Some?
      ensures Held(s'.workers[v]).value in s'.started <==> HasStarted(s'.workers[v])
    {
      if v != w {
        assert s'.workers[v] == s.workers[v];
        assert Held(s'.workers[v]) != Some(i) by {
          assert Held(s'.workers[w]) == Some(i);
        }
      }
    }
  }

  lemma StoreKeepsStartedOnce(
    b: Batch, s: State, s': State, w: nat, i: nat, result: TargetExecution)
    requires Owned(b, s) && StartedOnce(b, s) && Owned(b, s')
    requires OnlyMoves(s, s', w) && s'.next == s.next && s'.started == s.started
    requires s.workers[w] == Store(i, result) && Held(s'.workers[w]).None?
    requires i < |s.slots| && s'.slots == s.slots[i := Some(result)]
    ensures StartedOnce(b, s')
  {
    assert Held(s.workers[w]) == Some(i);
  }

  lemma StepKeepsStartedOnce(b: Batch, s: State, choice: Choice)
    requires Owned(b, s) && StartedOnce(b, s) && Enabled(b, s, choice)
    ensures var s' := Apply(b, s, choice); Owned(b, s') && StartedOnce(b, s')
  {
    var s' := Apply(b, s, choice);
    StepKeepsOwned(b, s, choice);
    if choice.Advance? {
      var w := choice.worker;
      match s.workers[w] {
        case Ready(i) => StartKeepsStartedOnce(b, s, s', w, i);
        case Store(i, result) => StoreKeepsStartedOnce(b, s, s', w, i, result);
        case _ =>
          OtherMove(b, s, choice);
          MoveKeepsStartedOnce(b, s, s', w);
      }
    }
  }

  /** Any step but starting and storing: the worker keeps what it holds, or claims the next index. */
  lemma OtherMove(b: Batch, s: State, choice: Choice)
    requires Enabled(b, s, choice) && choice.Advance?
    requires !s.workers[choice.worker].Ready? && !s.workers[choice.worker].Store?
    ensures var s', w := Apply(b, s, choice), choice.worker;
      && OnlyMoves(s, s', w) && s'.started == s.started && s.next <= s'.next && s'.slots == s.slots
      && (Held(s'.workers[w]).Some? ==>
            if Held(s.workers[w]) == Held(s'.workers[w])
            then HasStarted(s'.workers[w]) == HasStarted(s.workers[w])
            else Held(s'.workers[w]).value == s.next && !HasStarted(s'.workers[w]))
  {
  }

  /** Any step other than storing: a result newly in hand is genuine. */
  lemma MoveKeepsResults(b: Batch, s: State, s': State, w: nat)
    requires Shape(b, s) && ResultsGenuine(b, s) && Shape(b, s')
    requires OnlyMoves(s, s', w) && s'.slots == s.slots
    requires Carried(s'.workers[w]).Some? ==>
      GenuineAt(b, s'.workers[w].index, Carried(s'.workers[w]).value, s'.cancelled)
    ensures ResultsGenuine(b, s')
  {
  }

  lemma StepKeepsResults(b: Batch, s: State, choice: Choice)
    requires Owned(b, s) && ResultsGenuine(b, s) && Enabled(b, s, choice)
    ensures var s' := Apply(b, s, choice); Owned(b, s') && ResultsGenuine(b, s')
  {
    var s' := Apply(b, s, choice);
    StepKeepsOwned(b, s, choice);
    if choice.Advance? {
      var w := choice.worker;
      match s.workers[w] {
        case Store(i, result) =>
          assert GenuineAt(b, s.workers[w].index, Carried(s.workers[w]).value, s.cancelled);
        case Publish(i, result) =>
          assert GenuineAt(b, s.workers[w].index, Carried(s.workers[w]).value, s.cancelled);
          MoveKeepsResults(b, s, s', w);
        case _ => MoveKeepsResults(b, s, s', w);
      }
    }
  }

  lemma StepKeepsEndsJustified(b: Batch, s: State, choice: Choice)
    requires EndsJustified(b, s) && Enabled(b, s, choice)
    ensures EndsJustified(b, Apply(b, s, choice))
  {
  }

  lemma StepKeepsStopJustified(b: Batch, s: State, choice: Choice)
    requires Owned(b, s) && StopJustified(b, s) && Enabled(b, s, choice)
    ensures var s' := Apply(b, s, choice); Owned(b, s') && StopJustified(b, s')
  {
    StepKeepsOwned(b, s, choice);
    if choice.Advance? {
      assert Held(s.workers[choice.worker]).Some? ==>
        Held(s.workers[choice.worker]).value < |b.targets|;
    }
  }

  function ReadyCount(worker: Worker): nat {
    if worker.Ready? then 1 else 0
  }

  /** The late starts spent and those still possible never grow once the flag is set; when it is
      set, the worker that sets it is not among those that can still start. */
  lemma MoveKeepsFewLateStarts(b: Batch, s: State, s': State, w: nat)
    requires Owned(b, s) && FewLateStarts(b, s) && OnlyMoves(s, s', w)
    requires if s.stop
             then s'.stop && s'.lateStarts + ReadyCount(s'.workers[w])
                             <= s.lateStarts + ReadyCount(s.workers[w])
             else s'.lateStarts == 0 && (s'.stop ==> !s'.workers[w].Ready?)
    ensures FewLateStarts(b, s')
  {
    var ready := (x: Worker) => x.Ready?;
    CountUpdate(s.workers, w, s'.workers[w], ready);
    if s'.stop && !s.stop {
      CountMissesOne(s'.workers, w, ready);
    }
  }

  lemma StepKeepsFewLateStarts(b: Batch, s: State, choice: Choice)
    requires Owned(b, s) && StopJustified(b, s) && FewLateStarts(b, s) && Enabled(b, s, choice)
    ensures FewLateStarts(b, Apply(b, s, choice))
  {
    if choice.Advance? {
      MoveKeepsFewLateStarts(b, s, Apply(b, s, choice), choice.worker);
    }
  }

  lemma StepKeepsInv(b: Batch, s: State, choice: Choice)
    requires Inv(b, s) && Enabled(b, s, choice)
    ensures Inv(b, Apply(b, s, choice))
  {
    StepKeepsStartedOnce(b, s, choice);
    StepKeepsResults(b, s, choice);
    StepKeepsEndsJustified(b, s, choice);
    StepKeepsStopJustified(b, s, choice);
    StepKeepsFewLateStarts(b, s, choice);
  }

  lemma {:induction false} RunKeepsInv(b: Batch, s: State, schedule: seq<Choice>)
    requires Inv(b, s) && Legal(b, s, schedule)
    ensures Inv(b, Run(b, s, schedule))
    decreases |schedule|
  {
    if schedule != [] {
      StepKeepsInv(b, s, schedule[0]);
      RunKeepsInv(b, Apply(b, s, schedule[0]), schedule[1..]);
    }
  }
}
