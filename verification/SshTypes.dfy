/** The result vocabulary of the SSH transport. Curated message texts and durations are left out. */
module SshTypes {
  import opened Common
  import opened Identifiers
  import opened Base64

  datatype SshTarget =
    SshTarget(host: string, port: nat, user: string, workingDirectory: Option<string>)

  datatype ExecutionTarget = ExecutionTarget(environment: EnvironmentRef, ssh: SshTarget)

  datatype ExecutionState = Succeeded | Failed | TimedOut | Cancelled | Skipped

  datatype FailureCode =
    | TargetUnavailable | InvalidTarget | SpawnFailed | WaitFailed | CaptureFailed | RemoteExit
    | TimeLimit | Cancellation | FailFast

  /** `encoding` and `data` of a captured stream. A text is its UTF-8 bytes. */
  datatype StreamData = Text(utf8: seq<Byte>) | InBase64(text: string)

  datatype CapturedStream =
    CapturedStream(data: StreamData, truncated: bool, capturedBytes: nat)

  const EMPTY_STREAM := CapturedStream(Text([]), false, 0)

  datatype TargetExecution = TargetExecution(
    environment: EnvironmentRef,
    state: ExecutionState,
    exitCode: Option<int>,
    stdout: CapturedStream,
    stderr: CapturedStream,
    failure: Option<FailureCode>)

  datatype BatchReport = BatchReport(results: seq<TargetExecution>, streamLimit: nat)

  predicate Success(result: TargetExecution) {
    result.state == Succeeded
  }

  predicate ReportSucceeded(report: BatchReport) {
    forall result | result in report.results :: Success(result)
  }

  /** A report succeeds exactly if every result in it says so. */
  lemma SucceededThroughout(report: BatchReport)
    ensures ReportSucceeded(report) <==>
      forall i :: 0 <= i < |report.results| ==> report.results[i].state == Succeeded
  {
    assert forall i :: 0 <= i < |report.results| ==> report.results[i] in report.results;
  }

  function Unavailable(environment: EnvironmentRef): TargetExecution {
    TargetExecution(environment, Failed, None, EMPTY_STREAM, EMPTY_STREAM, Some(TargetUnavailable))
  }

  /** `failed_execution`: an execution that failed before there was any output. */
  function FailedExecution(target: ExecutionTarget, code: FailureCode): TargetExecution {
    TargetExecution(target.environment, Failed, None, EMPTY_STREAM, EMPTY_STREAM, Some(code))
  }

  function SkippedExecution(environment: EnvironmentRef, cancelled: bool): TargetExecution {
    if cancelled
    then TargetExecution(environment, Cancelled, None, EMPTY_STREAM, EMPTY_STREAM, Some(Cancellation))
    else TargetExecution(environment, Skipped, None, EMPTY_STREAM, EMPTY_STREAM, Some(FailFast))
  }

  /** The failure code that goes with a state: success has none, and each other state its own. */
  predicate CodeExplains(state: ExecutionState, failure: Option<FailureCode>) {
    match state
    case Succeeded => failure.None?
    case Failed => failure in {
      Some(TargetUnavailable), Some(InvalidTarget), Some(SpawnFailed), Some(WaitFailed),
      Some(CaptureFailed), Some(RemoteExit) }
    case TimedOut => failure == Some(TimeLimit)
    case Cancelled => failure == Some(Cancellation)
    case Skipped => failure == Some(FailFast)
  }

  /** What a process execution can honestly report for a target: its own environment, never
      `Skipped`, cancelled only once cancellation was requested, and streams within the limit. */
  predicate Genuine(
    result: TargetExecution, target: ExecutionTarget, cancelled: bool, streamLimit: nat)
  {
    && result.environment == target.environment
    && result.state != Skipped
    && CodeExplains(result.state, result.failure)
    && (result.state == Cancelled ==> cancelled)
    && result.stdout.capturedBytes <= streamLimit
    && result.stderr.capturedBytes <= streamLimit
  }
}
