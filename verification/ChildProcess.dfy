/** One captured SSH execution: spawn, capture, poll, and reap or release the child. The operating
    system's answers are parameters, so every statement holds for every behaviour of a child. */
module ChildProcess {
  import opened Common
  import opened Base64
  import opened SshTypes
  import opened Capture

  datatype ExitStatus = Code(code: int) | Signalled

  datatype Poll = Running | Exit(status: ExitStatus) | PollError

  /** What one turn of the polling loop can observe. */
  datatype Tick = Tick(poll: Poll, cancelled: bool, elapsed: nat, captureFailed: bool)

  datatype ProcessOutcome = Exited(status: ExitStatus) | OverTime | Interruption | LostCapture

  datatype WaitResult = StillPolling | WaitError | Done(outcome: ProcessOutcome)

  /** How one turn ends the loop, if it does. */
  datatype Verdict = SeenExit(status: ExitStatus) | BrokenPoll | Stop(why: ProcessOutcome)

  /** What is done to the child process. */
  datatype Event = Kill | Wait(reaped: bool) | Release

  function ExitCode(status: ExitStatus): Option<int> {
    if status.Code? then Some(status.code) else None
  }

  predicate ExitSuccess(status: ExitStatus) {
    status == Code(0)
  }

  function ProcessExitCode(outcome: ProcessOutcome): Option<int> {
    if outcome.Exited? then ExitCode(outcome.status) else None
  }

  function OverLimit(timeout: Option<nat>, elapsed: nat): bool {
    timeout.Some? && elapsed >= timeout.value
  }

  /** The verdict of one turn. An observed exit outranks cancellation, cancellation a timeout, and
      a timeout a failed capture. */
  function Decide(tick: Tick, timeout: Option<nat>): Option<Verdict> {
    match tick.poll
    case Exit(status) => Some(SeenExit(status))
    case PollError => Some(BrokenPoll)
    case Running =>
      if tick.cancelled then Some(Stop(Interruption))
      else if OverLimit(timeout, tick.elapsed) then Some(Stop(OverTime))
      else if tick.captureFailed then Some(Stop(LostCapture))
      else None
  }

  /** The verdict of the first turn that has one. */
  function FirstVerdict(ticks: seq<Tick>, timeout: Option<nat>): Option<Verdict> {
    if ticks == [] then None
    else if Decide(ticks[0], timeout).Some? then Decide(ticks[0], timeout)
    else FirstVerdict(ticks[1..], timeout)
  }

  /** The verdict belongs to one turn, and every turn before it decided nothing: the child was
      running, not cancelled, within its time and with working captures. */
  lemma {:induction false} FirstVerdictIsFirst(ticks: seq<Tick>, timeout: Option<nat>)
    ensures FirstVerdict(ticks, timeout).Some? <==>
      exists k :: 0 <= k < |ticks| && Decide(ticks[k], timeout).Some?
    ensures FirstVerdict(ticks, timeout).Some? ==>
      exists k :: 0 <= k < |ticks| && Decide(ticks[k], timeout) == FirstVerdict(ticks, timeout)
        && forall j :: 0 <= j < k ==>
             ticks[j].poll == Running && !ticks[j].cancelled && !ticks[j].captureFailed
             && !OverLimit(timeout, ticks[j].elapsed)
    ensures FirstVerdict(ticks, timeout) == Some(Stop(Interruption)) ==> CancelSeen(ticks)
    ensures FirstVerdict(ticks, timeout).Some? ==> IsOwnReason(FirstVerdict(ticks, timeout).value)
  {
    if ticks != [] {
      FirstVerdictIsFirst(ticks[1..], timeout);
      if FirstVerdict(ticks, timeout).Some? {
        var k := FirstVerdictAt(ticks, timeout);
      }
      if CancelSeen(ticks[1..]) {
        var j :| 0 <= j < |ticks[1..]| && ticks[1..][j].cancelled;
        assert ticks[j + 1].cancelled;
      }
    }
  }

  lemma {:induction false} FirstVerdictAt(ticks: seq<Tick>, timeout: Option<nat>)
    returns (k: nat)
    requires FirstVerdict(ticks, timeout).Some?
    ensures k < |ticks| && Decide(ticks[k], timeout) == FirstVerdict(ticks, timeout)
    ensures forall j :: 0 <= j < k ==>
      ticks[j].poll == Running && !ticks[j].cancelled && !ticks[j].captureFailed
      && !OverLimit(timeout, ticks[j].elapsed)
  {
    if Decide(ticks[0], timeout).Some? {
      k := 0;
    } else {
      k := FirstVerdictAt(ticks[1..], timeout);
      k := k + 1;
      forall j | 1 <= j < k ensures ticks[j] == ticks[1..][j - 1] {
      }
    }
  }

  /** Some turn saw the cancellation flag raised. */
  ghost predicate CancelSeen(ticks: seq<Tick>) {
    exists k :: 0 <= k < |ticks| && ticks[k].cancelled
  }

  /** Nothing happens to a child once it is reaped or released, and kills and waits come in pairs. */
  ghost predicate Orderly(events: seq<Event>) {
    && (forall i :: 0 <= i < |events| - 1 ==> events[i] != Wait(true) && events[i] != Release)
    && (forall i :: 0 <= i < |events| && events[i] == Kill ==>
          i + 1 < |events| && events[i + 1].Wait?)
    && (forall i :: 0 <= i < |events| && events[i].Wait? ==> i > 0 && events[i - 1] == Kill)
  }

  ghost predicate Settled(events: seq<Event>) {
    events != [] && (events[|events| - 1] == Wait(true) || events[|events| - 1] == Release)
  }

  /** `ManagedChildGroup`: kills and reaps its child unless released. */
  class ManagedChildGroup {
    // The answer of the n-th wait on the child.
    const waitSucceeds: nat -> bool
    var waits: nat
    var cleanupRequired: bool
    var events: seq<Event>  // what was done to the child so far

    ghost predicate Valid()
      reads this
    {
      Orderly(events) && (cleanupRequired <==> !Settled(events))
    }

    constructor (waitSucceeds: nat -> bool)
      ensures Valid() && cleanupRequired && events == []
      ensures waits == 0 && this.waitSucceeds == waitSucceeds
    {
      this.waitSucceeds := waitSucceeds;
      waits := 0;
      cleanupRequired := true;
      events := [];
    }

    method Release()
      requires Valid() && cleanupRequired
      modifies this
      ensures Valid() && events == old(events) + [Event.Release] && !cleanupRequired
    {
      cleanupRequired := false;
      events := events + [Event.Release];
    }

    method TerminateAndReap() returns (ok: bool)
      requires Valid()
      modifies this
      ensures Valid() && ok == !cleanupRequired
      ensures ok == (old(cleanupRequired) ==> waitSucceeds(old(waits)))
      ensures events == old(events) + (if old(cleanupRequired) then [Kill, Wait(ok)] else [])
    {
      if !cleanupRequired {
        return true;
      }
      ok := waitSucceeds(waits);
      waits := waits + 1;
      events := events + [Kill, Wait(ok)];
      if ok {
        cleanupRequired := false;
      }
    }

    /** `Drop`: a last attempt that nobody can report on. */
    method Drop()
      requires Valid()
      modifies this
      ensures Orderly(events)
      ensures if old(cleanupRequired) then exists ok :: events == old(events) + [Kill, Wait(ok)]
              else events == old(events)
    {
      if cleanupRequired {
        var ok := waitSucceeds(waits);
        waits := waits + 1;
        events := events + [Kill, Wait(ok)];
      }
    }
  }

  /** What waiting comes to: stopping a child is no more than a wait error if it cannot be reaped. */
  function Waited(verdict: Option<Verdict>, reaped: bool): WaitResult {
    match verdict
    case None => StillPolling
    case Some(SeenExit(status)) => Done(Exited(status))
    case Some(BrokenPoll) => WaitError
    case Some(Stop(why)) => if reaped then Done(why) else WaitError
  }

  /** `wait_for_child`: poll until the first turn with a verdict. The source loops until there is
      one; after a finite number of turns without any it is still polling. */
  method WaitForChild(child: ManagedChildGroup, timeout: Option<nat>, ticks: seq<Tick>)
    returns (result: WaitResult)
    requires child.Valid() && child.cleanupRequired && child.events == [] && child.waits == 0
    modifies child
    ensures child.Valid()
    ensures result == Waited(FirstVerdict(ticks, timeout), child.waitSucceeds(0))
    ensures child.events ==
      if result == StillPolling || (result.Done? && result.outcome.Exited?) then []
      else [Kill, Wait(child.waitSucceeds(0))]
  {
    var turn := 0;
    while turn < |ticks|
      invariant turn <= |ticks|
      invariant FirstVerdict(ticks[turn..], timeout) == FirstVerdict(ticks, timeout)
      invariant child.Valid() && child.cleanupRequired && child.events == [] && child.waits == 0
    {
      var tick := ticks[turn];
      match tick.poll {
        case Exit(status) =>
          return Done(Exited(status));
        case PollError =>
          var _ := child.TerminateAndReap();
          return WaitError;
        case Running =>
      }
      if tick.cancelled {
        var ok := child.TerminateAndReap();
        return if ok then Done(Interruption) else WaitError;
      }
      if OverLimit(timeout, tick.elapsed) {
        var ok := child.TerminateAndReap();
        return if ok then Done(OverTime) else WaitError;
      }
      if tick.captureFailed {
        var ok := child.TerminateAndReap();
        return if ok then Done(LostCapture) else WaitError;
      }
      turn := turn + 1;
    }
    return StillPolling;
  }

  /** One pipe of the child: whether it could be taken, what it delivers, and whether its reader
      finishes before the drain deadline. */
  datatype Pipe = Pipe(present: bool, answers: seq<ReadAnswer>, drains: bool)

  /** A turn at which there is nothing to decide: the child runs, nobody has cancelled it, its time
      is not up and its output is being captured. */
  predicate Quiet(tick: Tick, timeout: Option<nat>) {
    && tick.poll == Running && !tick.cancelled && !tick.captureFailed
    && (timeout.Some? ==> tick.elapsed < timeout.value)
  }

  /** The first turn at which there is. */
  ghost predicate FirstLoud(ticks: seq<Tick>, timeout: Option<nat>, k: nat) {
    k < |ticks| && !Quiet(ticks[k], timeout) && forall j :: 0 <= j < k ==> Quiet(ticks[j], timeout)
  }

  /** Word for word, what a turn that decides makes of an execution. `reaped` is whether the child
      can be waited for after it was killed, `complete` whether both streams were read to the end. */
  predicate Tells(
    tick: Tick, timeout: Option<nat>, reaped: bool, complete: bool,
    state: ExecutionState, exitCode: Option<int>, failure: Option<FailureCode>)
  {
    match tick.poll
    case Exit(Code(code)) =>
      && exitCode == Some(code)
      && (if !complete then state == Failed && failure == Some(CaptureFailed)
          else if code == 0 then state == Succeeded && failure == None
          else state == Failed && failure == Some(RemoteExit))
    case Exit(Signalled) =>
      && exitCode == None && state == Failed
      && failure == Some(if complete then RemoteExit else CaptureFailed)
    case PollError => exitCode == None && state == Failed && failure == Some(WaitFailed)
    case Running =>
      && exitCode == None
      && (if !reaped then state == Failed && failure == Some(WaitFailed)
          else if !complete then state == Failed && failure == Some(CaptureFailed)
          else if tick.cancelled then state == Cancelled && failure == Some(Cancellation)
          else if timeout.Some? && timeout.value <= tick.elapsed
          then state == TimedOut && failure == Some(TimeLimit)
          else state == Failed && failure == Some(CaptureFailed))
  }

  /** The turn that decides is the first one that is not quiet. */
  lemma {:induction false} FirstLoudDecides(ticks: seq<Tick>, timeout: Option<nat>, k: nat)
    requires FirstLoud(ticks, timeout, k)
    ensures FirstVerdict(ticks, timeout) == Decide(ticks[k], timeout)
    ensures FirstVerdict(ticks, timeout).Some?
  {
    if k > 0 {
      assert Quiet(ticks[0], timeout);
      assert forall j :: 0 <= j < k ==> ticks[1..][j] == ticks[j + 1];
      FirstLoudDecides(ticks[1..], timeout, k - 1);
    }
  }

  lemma {:induction false} AllQuiet(ticks: seq<Tick>, timeout: Option<nat>)
    ensures FirstVerdict(ticks, timeout).None? <==>
      forall j :: 0 <= j < |ticks| ==> Quiet(ticks[j], timeout)
  {
    if ticks != [] {
      AllQuiet(ticks[1..], timeout);
      assert forall j :: 1 <= j < |ticks| ==> ticks[j] == ticks[1..][j - 1];
    }
  }

  lemma {:induction false} SomeTurnIsLoud(ticks: seq<Tick>, timeout: Option<nat>) returns (k: nat)
    requires FirstVerdict(ticks, timeout).Some?
    ensures FirstLoud(ticks, timeout, k)
  {
    k := 0;
    while Quiet(ticks[k], timeout)
      invariant k < |ticks| && forall j :: 0 <= j < k ==> Quiet(ticks[j], timeout)
      decreases |ticks| - k
    {
      if k + 1 == |ticks| {
        AllQuiet(ticks, timeout);
      }
      k := k + 1;
    }
  }

  lemma JudgementTells(
    ticks: seq<Tick>, timeout: Option<nat>, k: nat, reaped: bool, complete: bool)
    requires FirstLoud(ticks, timeout, k)
    ensures FirstVerdict(ticks, timeout).Some?
    ensures var judged := Judgement(Waited(FirstVerdict(ticks, timeout), reaped), complete);
      Tells(ticks[k], timeout, reaped, complete, judged.0, judged.1, judged.2)
  {
    FirstLoudDecides(ticks, timeout, k);
  }

  /** Everything the operating system answers during one execution. */
  datatype Surroundings = Surroundings(
    spawns: bool, stdout: Pipe, stderr: Pipe, ticks: seq<Tick>, waitSucceeds: nat -> bool)

  /** `build_arguments` rejects an empty command, an empty command name and a working directory. */
  predicate ArgumentsBuild(target: ExecutionTarget, remoteCommand: seq<string>) {
    remoteCommand != [] && remoteCommand[0] != "" && target.ssh.workingDirectory.None?
  }

  /** What a pipe yields in time: nothing if it is missing or its reader is late, and otherwise what
      was delivered, up to an error if there is one. */
  function Yield(pipe: Pipe): seq<Byte> {
    if pipe.present && pipe.drains then Delivered(pipe.answers) else []
  }

  /** `finish_capture`: a missing pipe or a reader past the deadline is a failed capture. */
  method FinishCapture(pipe: Pipe, limit: nat) returns (capture: RawCapture)
    ensures pipe.present && pipe.drains ==>
      && capture.bytes == Delivered(pipe.answers)[..Min(limit, |Delivered(pipe.answers)|)]
      && (capture.truncated <==> |Delivered(pipe.answers)| > limit)
      && (capture.readFailed <==> BreaksOff(pipe.answers))
    ensures !pipe.present || !pipe.drains ==>
      capture.bytes == [] && !capture.truncated && capture.readFailed
  {
    if pipe.present && pipe.drains {
      capture := ReadBounded(pipe.answers, limit);
    } else {
      capture := FAILED_CAPTURE;
    }
  }

  /** A stream read to its end in time. */
  predicate Complete(pipe: Pipe) {
    pipe.present && pipe.drains && !BreaksOff(pipe.answers)
  }

  /** The state, exit code and failure reported for what was observed. */
  function Judgement(
    waited: WaitResult, complete: bool): (ExecutionState, Option<int>, Option<FailureCode>)
    requires waited != StillPolling
  {
    if waited.WaitError? then (Failed, None, Some(WaitFailed))
    else
      var outcome := waited.outcome;
      if outcome == LostCapture || !complete
      then (Failed, ProcessExitCode(outcome), Some(CaptureFailed))
      else if outcome == OverTime then (TimedOut, None, Some(TimeLimit))
      else if outcome == Interruption then (Cancelled, None, Some(Cancellation))
      else if ExitSuccess(outcome.status) then (Succeeded, ExitCode(outcome.status), None)
      else (Failed, ExitCode(outcome.status), Some(RemoteExit))
  }

  /** When a failure code is the right one for a child that was started: `reaped` tells whether
      waiting for it after a kill succeeds, `complete` whether both streams were read to the end. */
  predicate Causes(code: FailureCode, verdict: Verdict, reaped: bool, complete: bool) {
    match code
    case WaitFailed => verdict.BrokenPoll? || (verdict.Stop? && !reaped)
    case CaptureFailed =>
      if verdict.Stop? then reaped && (verdict.why == LostCapture || !complete)
      else verdict.SeenExit? && !complete
    case TimeLimit => verdict == Stop(OverTime) && reaped && complete
    case Cancellation => verdict == Stop(Interruption) && reaped && complete
    case RemoteExit => verdict.SeenExit? && !ExitSuccess(verdict.status) && complete
    case _ => false
  }

  /** No turn stops the loop with an exit that it did not see. */
  predicate IsOwnReason(verdict: Verdict) {
    verdict.Stop? ==> !verdict.why.Exited?
  }

  lemma JudgementNamesTheCause(verdict: Verdict, reaped: bool, complete: bool, code: FailureCode)
    requires IsOwnReason(verdict)
    ensures var judged := Judgement(Waited(Some(verdict), reaped), complete);
      && (judged.2 == Some(code) <==> Causes(code, verdict, reaped, complete))
      && (judged.2.None? <==> verdict.SeenExit? && ExitSuccess(verdict.status) && complete)
      && CodeExplains(judged.0, judged.2)
      && judged.1 == if verdict.SeenExit? then ExitCode(verdict.status) else None
  {
  }

  /** What is the matter with an execution that reports a failure code. */
  predicate Explains(
    code: FailureCode, target: ExecutionTarget, remoteCommand: seq<string>,
    surroundings: Surroundings, timeout: Option<nat>)
  {
    match code
    case InvalidTarget => !ArgumentsBuild(target, remoteCommand)
    case SpawnFailed => ArgumentsBuild(target, remoteCommand) && !surroundings.spawns
    case _ =>
      && Starts(target, remoteCommand, surroundings)
      && FirstVerdict(surroundings.ticks, timeout).Some?
      && Causes(code, FirstVerdict(surroundings.ticks, timeout).value,
           surroundings.waitSucceeds(0),
           Complete(surroundings.stdout) && Complete(surroundings.stderr))
  }

  /** The result of an execution whose process is not started. */
  function NeverStarted(target: ExecutionTarget, remoteCommand: seq<string>): TargetExecution {
    FailedExecution(target,
      if ArgumentsBuild(target, remoteCommand) then SpawnFailed else InvalidTarget)
  }

  /** The process is started at all. */
  predicate Starts(target: ExecutionTarget, remoteCommand: seq<string>, surroundings: Surroundings) {
    ArgumentsBuild(target, remoteCommand) && surroundings.spawns
  }

  /** A clean exit: the child was seen to exit and both streams were read to their end. */
  predicate CleanExit(surroundings: Surroundings, timeout: Option<nat>) {
    && Complete(surroundings.stdout) && Complete(surroundings.stderr)
    && FirstVerdict(surroundings.ticks, timeout).Some?
    && FirstVerdict(surroundings.ticks, timeout).value.SeenExit?
  }

  lemma JudgementExplains(
    target: ExecutionTarget, remoteCommand: seq<string>, surroundings: Surroundings,
    timeout: Option<nat>)
    requires Starts(target, remoteCommand, surroundings)
    requires FirstVerdict(surroundings.ticks, timeout).Some?
    ensures var judged := Judgement(
        Waited(FirstVerdict(surroundings.ticks, timeout), surroundings.waitSucceeds(0)),
        Complete(surroundings.stdout) && Complete(surroundings.stderr));
      && (forall code :: judged.2 == Some(code) <==>
            Explains(code, target, remoteCommand, surroundings, timeout))
      && judged.1 == SeenCode(target, remoteCommand, surroundings, timeout)
      && CodeExplains(judged.0, judged.2)
  {
    FirstVerdictIsFirst(surroundings.ticks, timeout);
    forall code {
      JudgementNamesTheCause(FirstVerdict(surroundings.ticks, timeout).value,
        surroundings.waitSucceeds(0),
        Complete(surroundings.stdout) && Complete(surroundings.stderr), code);
    }
  }

  /** The exit code that was seen, whatever else went wrong. */
  function SeenCode(
    target: ExecutionTarget, remoteCommand: seq<string>, surroundings: Surroundings,
    timeout: Option<nat>): Option<int>
  {
    match FirstVerdict(surroundings.ticks, timeout)
    case Some(SeenExit(status)) =>
      if Starts(target, remoteCommand, surroundings) then ExitCode(status) else None
    case _ => None
  }

  /** The end of `execute_captured` as far as the child is concerned, its drop included. */
  method ReclaimChild(child: ManagedChildGroup, waited: WaitResult, complete: bool)
    requires child.Valid() && waited != StillPolling
    requires child.cleanupRequired ==> child.events == [] || child.events == [Kill, Wait(false)]
    requires !child.cleanupRequired ==> child.events == [Kill, Wait(true)]
    requires waited.Done? ==>
      if waited.outcome.Exited? then child.events == [] else !child.cleanupRequired
    requires waited == WaitError ==> child.events != []
    modifies child
    ensures Orderly(child.events)
    ensures Release in child.events <==> waited.Done? && waited.outcome.Exited? && complete
    ensures Release !in child.events ==>
      Kill in child.events && child.events[|child.events| - 1].Wait?
  {
    if waited.Done? {
      if waited.outcome == LostCapture || !complete {
        var _ := child.TerminateAndReap();
      } else if waited.outcome.Exited? {
        child.Release();
      }
    }
    child.Drop();
  }

  /** A reader of the reported stream gets the bytes the pipe yields up to the limit, marked as cut
      exactly if there were more. */
  predicate Reports(stream: CapturedStream, pipe: Pipe, limit: nat) {
    && Recover(stream) == Some(Yield(pipe)[..Min(limit, |Yield(pipe)|)])
    && stream.truncated == (|Yield(pipe)| > limit)
    && stream.capturedBytes == Min(limit, |Yield(pipe)|)
  }

  /** Drain one pipe and encode what was kept of it. */
  method TakeStream(pipe: Pipe, limit: nat, isUtf8: seq<Byte> -> bool)
    returns (stream: CapturedStream, complete: bool)
    ensures Reports(stream, pipe, limit) && complete == Complete(pipe)
  {
    var raw := FinishCapture(pipe, limit);
    stream, complete := FromRaw(raw, isUtf8), !raw.readFailed;
    FromRawIsLossless(raw, isUtf8);
  }

  /** The first turn that is not quiet tells the outcome. There is one. */
  ghost predicate FirstLoudTells(
    surroundings: Surroundings, timeout: Option<nat>, result: TargetExecution)
  {
    exists k: nat :: FirstLoud(surroundings.ticks, timeout, k)
      && Tells(surroundings.ticks[k], timeout, surroundings.waitSucceeds(0),
           Complete(surroundings.stdout) && Complete(surroundings.stderr),
           result.state, result.exitCode, result.failure)
  }

  /** The first turn that is not quiet sees the child exit with a given status. */
  ghost predicate ExitsFirst(ticks: seq<Tick>, timeout: Option<nat>, status: ExitStatus) {
    exists k: nat :: FirstLoud(ticks, timeout, k) && ticks[k].poll == Exit(status)
  }

  lemma ObservedTells(surroundings: Surroundings, timeout: Option<nat>, result: TargetExecution)
    requires FirstVerdict(surroundings.ticks, timeout).Some?
    requires (result.state, result.exitCode, result.failure)
      == Judgement(
           Waited(FirstVerdict(surroundings.ticks, timeout), surroundings.waitSucceeds(0)),
           Complete(surroundings.stdout) && Complete(surroundings.stderr))
    ensures FirstLoudTells(surroundings, timeout, result)
    ensures result.state == Succeeded <==>
      && Complete(surroundings.stdout) && Complete(surroundings.stderr)
      && ExitsFirst(surroundings.ticks, timeout, Code(0))
  {
    var k := SomeTurnIsLoud(surroundings.ticks, timeout);
    JudgementTells(surroundings.ticks, timeout, k, surroundings.waitSucceeds(0),
      Complete(surroundings.stdout) && Complete(surroundings.stderr));
  }

  /** What `execute_captured` does once the child is started. */
  method ObserveChild(
    target: ExecutionTarget, timeout: Option<nat>, streamLimit: nat, surroundings: Surroundings,
    isUtf8: seq<Byte> -> bool)
    returns (result: Option<TargetExecution>, events: seq<Event>)
    ensures result.None? <==> FirstVerdict(surroundings.ticks, timeout).None?
    ensures result.Some? ==>
      && result.value.environment == target.environment
      && (result.value.state, result.value.exitCode, result.value.failure)
           == Judgement(
                Waited(FirstVerdict(surroundings.ticks, timeout), surroundings.waitSucceeds(0)),
                Complete(surroundings.stdout) && Complete(surroundings.stderr))
      && Reports(result.value.stdout, surroundings.stdout, streamLimit)
      && Reports(result.value.stderr, surroundings.stderr, streamLimit)
    ensures Orderly(events)
    ensures Release in events <==> CleanExit(surroundings, timeout)
    ensures result.Some? && Release !in events ==>
      Kill in events && events[|events| - 1].Wait?
  {
    FirstVerdictIsFirst(surroundings.ticks, timeout);
    var child := new ManagedChildGroup(surroundings.waitSucceeds);
    var waited := WaitForChild(child, timeout, surroundings.ticks);
    if waited == StillPolling {
      return None, child.events;
    }
    var stdout, stdoutComplete := TakeStream(surroundings.stdout, streamLimit, isUtf8);
    var stderr, stderrComplete := TakeStream(surroundings.stderr, streamLimit, isUtf8);
    var complete := stdoutComplete && stderrComplete;
    ReclaimChild(child, waited, complete);
    events := child.events;
    var judged := Judgement(waited, complete);
    result := Some(TargetExecution(
      target.environment, judged.0, judged.1, stdout, stderr, judged.2));
  }

  /** `execute_captured`. None stands for an execution that is still polling. */
  method ExecuteCaptured(
    target: ExecutionTarget, remoteCommand: seq<string>, timeout: Option<nat>, streamLimit: nat,
    surroundings: Surroundings, isUtf8: seq<Byte> -> bool)
    returns (result: Option<TargetExecution>, events: seq<Event>)
    ensures result.None? <==>
      && Starts(target, remoteCommand, surroundings)
      && forall k :: 0 <= k < |surroundings.ticks| ==> Quiet(surroundings.ticks[k], timeout)
    // Every result is honest about its target, and a cancelled one was told to stop.
    ensures result.Some? ==>
      Genuine(result.value, target, CancelSeen(surroundings.ticks), streamLimit)
    // A command that cannot be built or started fails without any output.
    ensures result.Some? && result.value.failure == Some(InvalidTarget) <==>
      remoteCommand == [] || remoteCommand[0] == "" || target.ssh.workingDirectory.Some?
    ensures result.Some? && result.value.failure == Some(SpawnFailed) <==>
      && remoteCommand != [] && remoteCommand[0] != "" && target.ssh.workingDirectory.None?
      && !surroundings.spawns
    ensures !Starts(target, remoteCommand, surroundings) ==>
      && result.Some? && result.value.state == Failed && result.value.exitCode == None
      && result.value.stdout == CapturedStream(Text([]), false, 0) == result.value.stderr
    // Of one that is started the first turn tells that is not quiet.
    ensures Starts(target, remoteCommand, surroundings) && result.Some? ==>
      FirstLoudTells(surroundings, timeout, result.value)
    // Success is exit status zero with both streams read to their end.
    ensures result.Some? && result.value.state == Succeeded <==>
      && Starts(target, remoteCommand, surroundings)
      && Complete(surroundings.stdout) && Complete(surroundings.stderr)
      && ExitsFirst(surroundings.ticks, timeout, Code(0))
    // A failure code is given exactly for what it stands for.
    ensures result.Some? ==> forall code ::
      result.value.failure == Some(code) <==>
        Explains(code, target, remoteCommand, surroundings, timeout)
    ensures result.Some? ==>
      result.value.exitCode == SeenCode(target, remoteCommand, surroundings, timeout)
    // The streams are what the pipes yield up to the limit, also where the execution failed, and
    // empty where it never started.
    ensures Starts(target, remoteCommand, surroundings) && result.Some? ==>
      && Reports(result.value.stdout, surroundings.stdout, streamLimit)
      && Reports(result.value.stderr, surroundings.stderr, streamLimit)
    ensures !Starts(target, remoteCommand, surroundings) ==>
      result == Some(NeverStarted(target, remoteCommand))
    // The child is released exactly after a clean exit; otherwise it is killed and waited for.
    ensures Orderly(events)
    ensures Release in events <==>
      Starts(target, remoteCommand, surroundings) && CleanExit(surroundings, timeout)
    ensures Starts(target, remoteCommand, surroundings) && result.Some? && Release !in events ==>
      Kill in events && events[|events| - 1].Wait?
    ensures !Starts(target, remoteCommand, surroundings) ==> events == []
  {
    FirstVerdictIsFirst(surroundings.ticks, timeout);
    AllQuiet(surroundings.ticks, timeout);
    if !ArgumentsBuild(target, remoteCommand) {
      return Some(FailedExecution(target, InvalidTarget)), [];
    }
    if !surroundings.spawns {
      return Some(FailedExecution(target, SpawnFailed)), [];
    }
    result, events := ObserveChild(target, timeout, streamLimit, surroundings, isUtf8);
    if result.Some? {
      JudgementExplains(target, remoteCommand, surroundings, timeout);
      ObservedTells(surroundings, timeout, result.value);
    }
  }
}
