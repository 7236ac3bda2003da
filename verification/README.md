# HostBraid in Dafny

A model of the parts of HostBraid where several pieces of state have to agree, and proofs of what
they promise together. All properties are stated for every input, every answer of the operating
system, the keyring or the provider, every interleaving, and every point at which a process may
crash.

- **SSH fan-out.** `BatchScheduler` is the worker protocol of `run_batch` as a transition system:
  one step per atomic access, one program counter per worker, cancellation at any time, execution
  results chosen by the schedule. `BatchOutcome` draws from its inductive invariant what the report
  says about the run, `BatchBounds` shows its fail-fast bounds to be exact, and `BatchCancellation`
  is what cancellation does to run and report. `BatchRun` runs the protocol under any scheduler, to
  the end and to a report. `ChildProcess` and `Capture` are what
  happens inside one execution: polling, killing, reaping, bounded reading. `Base64` is the encoding
  of binary output. `SshTargets` and `SshPipeline` wrap the batch: preparation, fail-fast before
  execution, merging, and the whole captured path as one method. The set of results an execution may
  return in `BatchScheduler` (`Genuine`) contains what `ChildProcess.ExecuteCaptured` is proved to
  return; the runs constructed in `BatchBounds` and `BatchCancellation` use only a result it does
  return, that of a child that cannot be spawned (`BatchBounds.NotSpawnedIsReturned`).
- **Profiles.** `ProfileModel` is the configuration and its validation, `ProfileStore` its
  crash-safe replacement over three file names, `ProfileService` the four operations as a
  transaction over the file and the OS keyring. Every system call of a `Machine` appends the
  durable state to a history; a crash leaves any state of that history. `ProfileRuns` lifts the
  contract of one operation to serial runs of any length, and `ProfileSessions` is the code whose
  runs these are: one process after the other, each performing an operation that may crash.
  `ProfileEffects` says word for word which default, record, token and reason an operation leaves.
  `Identifiers` is the `provider:name` grammar.
- **Inventory.** `InventoryPaging` is the paging loop against a server that may answer anything,
  `InventoryGuarantees` its soundness and completeness, `Catalog` the environment index and order,
  `InventoryMapping` the join with the catalog, `InventoryResult` all of `component_inventory`.
- **Selection.** `Selection` proves the nested loops of `select_environments` equal to a query.
- **Arguments.** The hand-written scanners used on command lines that clap rejects:
  `ArgumentOptions` looks at one argument, `CommandPath` compares how they read the path to a
  subcommand, and `ArgumentScan` holds their loops and the choice of the output mode.
  `OptionGrammar` and `CommandGrammar` spell out, without any scanner, the command lines these loops
  are to recognise, and prove that they recognise exactly these.

Where a contract is stated by a function that the code mirrors, a lemma beside it says in literal
words what that function gives: which exit codes, results, errors, defaults, orders and spellings.
`Common` and `Ordering` hold facts about sequences and sorting. Code that changes state in place is
a class or a method with loops, proved against a function or a predicate; pure code is a function.

Four findings are worth knowing:

- The scanners are meant to let nothing from the remote command decide the local output mode. The
  *first* remote argument can: after `hb ssh run --color --output`, the boundary scan takes
  `--output` for the value of `--color`, the output scan takes the remote command for the value of
  `--output`. `ArgumentScan.FirstRemoteArgumentMatters` says exactly when this happens, and
  `ArgumentScan.MisreadCommandLine` is an instance.
- Replacing a keyring token by another keyring token is not atomic across a crash: the new token is
  stored while the configuration is still the old one. `ProfileRuns.OnlyRotationIsTorn` proves that
  nothing else has such a state, `ProfileRuns.RotationIsTornExactly` that every successful rotation
  does, and `ProfileRuns.HalfWayExactly` that this can be told from both the state before and the
  state after exactly if the rotation is one that changes the configuration as well. `ProfileSessions.RotationExample` runs
  one.
- A target that fail-fast kept from starting can be reported as cancelled although cancellation kept
  nothing from running: it is enough that it is requested between the end of the workers and the last
  look at the flag. `BatchCancellation.CancelledInNameExactly` proves that a batch can end like this
  if and only if fail-fast is on and there are two or more targets,
  `BatchCancellation.LeftOutIsExplained` what is true whatever the report says, and
  `BatchCancellation.CancelledInNameExample` is a schedule on which it happens.
- The two hand-written readings of a command path do not treat unknown options alike. In
  `hb --x ssh run uptime` only the boundary scan goes on to find a remote command
  (`ArgumentScan.BrokenCommandPath`). `CommandPath.BoundaryFollowsCommandPath` proves that the
  boundary scan reads every command line as the other reading would with each unknown option replaced
  by a known one without a value, and `CommandPath.ReadingsPartExactly` where the two readings part.

`dafny verify dfyconfig.toml` checks the project.

## Model

| member | source | states |
|---|---|---|
| `BatchScheduler.StepKeepsInv` | crates/hostbraid-cli/src/ssh/mod.rs:660-691 | every atomic step of every worker, and a cancellation request, keeps the invariant: exclusive ownership of indices, every claimed index stored or held, results genuine and in their own slot, every exit and the stop flag justified, few late starts |
| `BatchScheduler.RunKeepsInv` | crates/hostbraid-cli/src/ssh/mod.rs:657-694 | the invariant holds after any schedule |
| `BatchOutcome.SchedulesAreBounded` | crates/hostbraid-cli/src/ssh/mod.rs:657-694 | no schedule is longer than a bound computed from the numbers of targets and workers, so every run ends |
| `BatchOutcome.NeverStuck` | crates/hostbraid-cli/src/ssh/mod.rs:657-694 | in every reachable state that is not finished some worker can take a step |
| `BatchOutcome.IndicesAreOwned` | crates/hostbraid-cli/src/ssh/mod.rs:655-690 | in every reachable state indices are claimed once and in order, executed at most once and only after the claim; executions in flight have distinct indices and number at most min(jobs, targets); a stored result is a genuine result of the target of its own slot |
| `BatchOutcome.ReportFollowsTargets` | crates/hostbraid-cli/src/ssh/mod.rs:696-713 | the report has one result per target, in target order, naming that target, within the stream limit |
| `BatchOutcome.ReportTellsWhatHappened` | crates/hostbraid-cli/src/ssh/mod.rs:696-713 | a stored result is reported as it is, and a target without one without output and exit code: cancelled with code cancelled if cancellation was requested by then, otherwise skipped with code fail-fast |
| `BatchOutcome.SkippedIsExplained` | crates/hostbraid-cli/src/ssh/mod.rs:661-712 | if the report calls a target skipped, it was never started, fail-fast was on, nothing was cancelled, and another target was really executed, is reported as it was, and did not succeed |
| `BatchOutcome.EverythingRuns` | crates/hostbraid-cli/src/ssh/mod.rs:660-691 | without fail-fast and cancellation every target is executed and its result stored |
| `BatchOutcome.SucceededMeansAllDid` | crates/hostbraid-cli/src/ssh/mod.rs:374-377 | a finished batch succeeds if and only if every target was executed and succeeded |
| `SshTypes.SucceededThroughout` | crates/hostbraid-cli/src/ssh/mod.rs:353-376 | a report succeeds if and only if every result in it has succeeded |
| `BatchOutcome.LateStartsBounded` | crates/hostbraid-cli/src/ssh/mod.rs:661-686 | at most workers - 1 executions start after the stop flag is first set |
| `BatchOutcome.DroppedBounded` | crates/hostbraid-cli/src/ssh/mod.rs:666-686 | in a finished run that was not cancelled at most workers - 1 claimed indices are left unexecuted |
| `BatchOutcome.EveryScheduleSameReport` | crates/hostbraid-cli/src/ssh/mod.rs:650-714 | without fail-fast and cancellation the report is the list of outcomes, whatever the jobs and the interleaving |
| `BatchOutcome.OneJobIsSequential` | crates/hostbraid-cli/src/ssh/mod.rs:655-713 | with one job the report is that of a sequential loop: results up to the first failure under fail-fast, everything after it skipped |
| `BatchBounds.LateStartsExactly` | crates/hostbraid-cli/src/ssh/mod.rs:661-686 | the number of executions that start after the stop flag is set can be any number below that of the workers under fail-fast, is zero otherwise, and is nothing else |
| `BatchBounds.DroppedExactly` | crates/hostbraid-cli/src/ssh/mod.rs:666-686 | the same of the claimed indices that a finished, uncancelled run leaves unexecuted |
| `BatchBounds.CanFinish` | crates/hostbraid-cli/src/ssh/mod.rs:657-694 | from every reachable uncancelled state the run can come to its end without cancellation |
| `BatchBounds.NotSpawnedIsReturned` | crates/hostbraid-cli/src/ssh/mod.rs:726-757 | the failure these runs are built from is what an execution returns, for every command a batch accepts, if no process is started |
| `BatchCancellation.FewStartsAfterCancellation` | crates/hostbraid-cli/src/ssh/mod.rs:660-679 | after cancellation is requested every further start is that of a worker already past its last check, one each, so at most one per worker |
| `BatchCancellation.FewClaimsOnceFlagged` | crates/hostbraid-cli/src/ssh/mod.rs:660-669 | once cancellation is requested, or fail-fast has stopped the scheduling, only workers past their look at that flag still claim a target, one each |
| `BatchCancellation.LeftOutIsExplained` | crates/hostbraid-cli/src/ssh/mod.rs:660-712 | in a finished run a target without a result was never started; a worker saw the cancellation, or fail-fast was on and another target was executed and failed; the report says cancelled exactly if cancellation was requested by then |
| `BatchCancellation.CancelledInNameExactly` | crates/hostbraid-cli/src/ssh/mod.rs:696-712 | some run reports a target as cancelled although no worker saw a cancellation, if and only if the batch is fail-fast and has at least two targets, for any number of jobs |
| `BatchCancellation.CancelledInNameExample` | crates/hostbraid-cli/src/ssh/mod.rs:660-712 | a complete schedule of two targets and one job on which it happens |
| `BatchRun.RunWorkers` | crates/hostbraid-cli/src/ssh/mod.rs:657-694 | under any scheduler the workers come to their end by legal steps, granting every wish that is possible |
| `BatchRun.RunBatch` | crates/hostbraid-cli/src/ssh/mod.rs:613-714 | a batch is refused if and only if it has no targets, no jobs or no command, each with its own error in that order; otherwise it is run to its end by as many workers as jobs or targets, whichever are fewer, under the fail-fast asked for, and reported |
| `BatchRun.EveryScheduleIsRun` | crates/hostbraid-cli/src/ssh/mod.rs:657-694 | for every complete schedule of the protocol there is a scheduler under which the workers take it and no other |
| `ChildProcess.FirstVerdictIsFirst` | crates/hostbraid-cli/src/ssh/mod.rs:1035-1057 | waiting ends at the first poll that saw an exit, an error, cancellation, the time limit or a failed capture, and at all earlier ones the child was running and nothing was wrong |
| `ChildProcess.JudgementTells` | crates/hostbraid-cli/src/ssh/mod.rs:771-865 | word for word, what the first turn at which something is the matter makes of state, exit code and failure code: exit status, poll error, cancellation, time limit and capture failure, each with a child that can be reaped or not and streams that are complete or not |
| `ChildProcess.ManagedChildGroup.constructor` | crates/hostbraid-cli/src/ssh/mod.rs:954-959 | a new child is to be cleaned up, and nothing was done to it yet |
| `ChildProcess.ManagedChildGroup.Release` | crates/hostbraid-cli/src/ssh/mod.rs:971-973 | a released child is left alone from then on |
| `ChildProcess.ManagedChildGroup.TerminateAndReap` | crates/hostbraid-cli/src/ssh/mod.rs:975-989 | kills and waits once unless already reaped or released, and only a wait that succeeds ends the need for cleanup |
| `ChildProcess.ManagedChildGroup.Drop` | crates/hostbraid-cli/src/ssh/mod.rs:992-999 | a last kill and wait, and only for a child that was neither reaped nor released |
| `ChildProcess.WaitForChild` | crates/hostbraid-cli/src/ssh/mod.rs:1028-1058 | the result is that of the first poll with a verdict; the child is killed and waited for unless its exit was seen, and a child that cannot be reaped is a wait error |
| `ChildProcess.JudgementExplains` | crates/hostbraid-cli/src/ssh/mod.rs:771-865 | state and failure code agree, each code is given exactly under its own cause, and the exit code is the one that was seen |
| `ChildProcess.ExecuteCaptured` | crates/hostbraid-cli/src/ssh/mod.rs:716-867 | the first turn that is not quiet tells the outcome, word for word; success if and only if it sees exit code 0 and both streams were read to their end; a command that cannot be built or spawned fails without output; every failure code if and only if its cause; the streams exactly what the pipes yielded up to the limit; the child released if and only if its exit was seen and both captures succeeded, otherwise killed and waited for, and never touched again once reaped |
| `ChildProcess.FinishCapture` | crates/hostbraid-cli/src/ssh/mod.rs:1191-1207 | a capture is good exactly if the pipe was there, its reader finished in time and did not break off; it holds what was delivered up to the limit, also before a read error, and nothing if the pipe is missing or its reader late |
| `Capture.LimitIsLargestFair` | crates/hostbraid-cli/src/ssh/mod.rs:1251-1254 | the per-stream limit keeps both streams of all targets within 64 MiB and each stream within 1 MiB, and no larger limit does |
| `Capture.BatchWithinBudget` | crates/hostbraid-cli/src/ssh/mod.rs:1251-1254 | the bytes retained over a batch of any size never exceed 64 MiB |
| `Capture.ReadBounded` | crates/hostbraid-cli/src/ssh/mod.rs:1142-1165 | for any chunking with any interruptions: exactly the first bytes delivered up to the limit are kept, and truncation is reported exactly if there were more |
| `Capture.DeliveredUpToTheEnd` | crates/hostbraid-cli/src/ssh/mod.rs:1142-1165 | what is delivered are all chunks before the first error or empty read, in order, interruptions or not, and reading breaks off exactly if that end is an error |
| `Capture.FromRawIsLossless` | crates/hostbraid-cli/src/ssh/mod.rs:275-291 | the captured bytes can be recovered from the report, as text exactly if they are UTF-8 and as base64 otherwise |
| `Base64.RoundTrip` | crates/hostbraid-cli/src/ssh/mod.rs:1256-1281 | a decoder of section 4 of RFC 4648 recovers exactly the input, for every length |
| `Base64.AlphabetIsStandard` | crates/hostbraid-cli/src/ssh/mod.rs:1257-1257 | the 64 characters are those of table 1 of RFC 4648 |
| `Base64.TestVectors` | crates/hostbraid-cli/src/ssh/mod.rs:1256-1281 | three test vectors of section 10 of RFC 4648 |
| `Base64.EncodedShape` | crates/hostbraid-cli/src/ssh/mod.rs:1258-1279 | four characters per three bytes or part of them, padding only at the end and as much as the last group lacks |
| `Base64.EncodeBase64` | crates/hostbraid-cli/src/ssh/mod.rs:1256-1281 | the loop over chunks produces the encoding, and it decodes to the input |
| `SshTargets.PrepareTargets` | crates/hostbraid-cli/src/commands/provider.rs:805-841 | for every completion order of the lookups, environments with coordinates are ready with exactly those, the others are reported unavailable, and the k-th ready target belongs to the k-th empty slot |
| `SshTargets.PreparedSshTargets.ApplyFailFast` | crates/hostbraid-cli/src/commands/provider.rs:744-773 | after the first preparation failure everything is skipped, before it nothing changes, the ready targets are those before it, and the alignment is kept, so that its `expect` and assertion cannot fail |
| `SshTargets.PreparedSshTargets.Merge` | crates/hostbraid-cli/src/commands/provider.rs:775-802 | the merged report with its stream limit, computed by one walk over the slots |
| `SshTargets.MergeIsSlotwise` | crates/hostbraid-cli/src/commands/provider.rs:775-802 | failures stay in their slots and the k-th executed result lands in the k-th empty slot; none is dropped, left over or moved |
| `SshPipeline.RunCaptured` | crates/hostbraid-cli/src/commands/provider.rs:609-678 | preparation, fail-fast, batch and merge, run for any completion order and any scheduler, end in an execution of which the following rows speak, with its final report; refused if and only if some target is left to execute and there are no jobs or no command |
| `SshPipeline.ReportFollowsSelection` | crates/hostbraid-cli/src/commands/provider.rs:609-678 | the final report has one result per selected environment, in selection order |
| `SshPipeline.EmptySlotHasCoordinates` | crates/hostbraid-cli/src/commands/provider.rs:609-617 | what is executed for a slot is executed with the coordinates looked up for that very environment |
| `SshPipeline.UnavailableIsReported` | crates/hostbraid-cli/src/commands/provider.rs:744-802 | word for word: an environment without coordinates is reported failed as unavailable, and under fail-fast everything behind the first such one is reported skipped |
| `SshPipeline.ReportedLimit` | crates/hostbraid-cli/src/commands/provider.rs:775-802 | the stream limit reported is that of the executed targets, or of all if none was executed |
| `SshPipeline.SkipsAreExplained` | crates/hostbraid-cli/src/commands/provider.rs:609-678 | a skip in the final report implies fail-fast, and another result in it that is a failure and no skip |
| `SshPipeline.UnavailableTargetsDoNotSpread` | crates/hostbraid-cli/src/commands/provider.rs:653-678 | without fail-fast and cancellation every environment with coordinates is really run and reported with its own result |
| `SshPipeline.SucceedsExactlyWhenAllDo` | crates/hostbraid-cli/src/commands/provider.rs:678-679 | the command succeeds if and only if every selected environment had coordinates and its execution succeeded |
| `SshPipeline.ReportWithinBudget` | crates/hostbraid-cli/src/commands/provider.rs:653-678 | the final report retains at most 64 MiB of output |
| `ProfileModel.NormalizeDecidesSoundness` | crates/hostbraid-cli/src/profiles/model.rs:72-136 | sorting and comparing neighbours accepts a configuration if and only if all references are distinct, all fields valid and the default exists; the result has the same profiles in order |
| `ProfileModel.NormalizeErrors` | crates/hostbraid-cli/src/profiles/model.rs:72-136 | each error if and only if what it names is the matter and nothing checked before it is; of several profiles with invalid fields the first in the order decides |
| `ProfileModel.NormalizedOrder` | crates/hostbraid-cli/src/profiles/model.rs:83-88 | the profiles are written in the order of a dictionary, by provider and then by name |
| `ProfileModel.FieldsShape` | crates/hostbraid-cli/src/profiles/model.rs:174-181 | environment variables are 1 to 128 letters, digits and underscores not beginning with a digit; expiry metadata is at most 128 bytes without control characters |
| `ProfileEffects.StartsEmpty` | crates/hostbraid-cli/src/profiles/model.rs:55-63 | without any file the store stands for an empty configuration of the current schema without a default |
| `ProfileModel.NormalizeIdempotent` | crates/hostbraid-cli/src/profiles/model.rs:72-136 | normalizing twice is normalizing once |
| `ProfileModel.NormalizeCanonical` | crates/hostbraid-cli/src/profiles/model.rs:83-88 | the same profiles in any order are written the same way |
| `ProfileModel.ProfileConfig.NormalizeAndValidate` | crates/hostbraid-cli/src/profiles/model.rs:72-136 | the in-place loops give the normal form, or the first error in the order of the checks |
| `ProfileModel.LookupAfterChange` | crates/hostbraid-cli/src/profiles/service.rs:94-197 | each mutation changes what is found under its target only, and to what was asked for |
| `ProfileModel.ChangesStaySound` | crates/hostbraid-cli/src/profiles/service.rs:94-197 | from a sound configuration a mutation with valid input is never rejected by the validation after it |
| `ProfileStore.ProfileStore.ReplaceFile` | crates/hostbraid-cli/src/profiles/store.rs:469-511 | under any failures and at every crash point the files stand for the old configuration up to one commit and for the new one from it on; an error means there was no commit |
| `ProfileStore.ProfileStore.ReplaceThroughBackup` | crates/hostbraid-cli/src/profiles/store.rs:481-505 | the same of the Windows fallback over three names |
| `ProfileStore.ProfileStore.RecoverInterrupted` | crates/hostbraid-cli/src/profiles/store.rs:524-546 | recovery never changes what the files stand for, so a stale backup never replaces a newer destination; after an undisturbed recovery no backup is left, and without a backup recovery changes nothing |
| `ProfileStore.ProfileStore.BeginUpdate` | crates/hostbraid-cli/src/profiles/store.rs:155-169 | loads exactly the configuration the files stand for, in normal form, and changes nothing that shows |
| `ProfileStore.ProfileStore.WriteUnlocked` | crates/hostbraid-cli/src/profiles/store.rs:254-280 | one commit or none, and a failed sync of the directory after the rename is not an error |
| `ProfileStore.ProfileStore.FinishUpdate` | crates/hostbraid-cli/src/profiles/store.rs:169-173 | commits the normal form of the changed configuration, or reports why not and commits nothing |
| `ProfileService.ProfileService.Add` | crates/hostbraid-cli/src/profiles/service.rs:79-121 | every state a crash can leave is one side of the commit with the keyring never behind; success, errors and rollback leave exactly the states promised; refusals are justified |
| `ProfileService.ProfileService.SetDefault` | crates/hostbraid-cli/src/profiles/service.rs:123-132 | the same contract, with the keyring untouched throughout; a success makes the profile the default (`ProfileEffects.DefaultAfterSuccess`) |
| `ProfileService.ProfileService.Remove` | crates/hostbraid-cli/src/profiles/service.rs:134-155 | the same contract: the entry goes after the commit, and a failed cleanup is reported and changes nothing else |
| `ProfileService.ProfileService.SetCredential` | crates/hostbraid-cli/src/profiles/service.rs:157-224 | the same contract, with the previous token restored on failure and an obsolete entry removed after the commit; another company is always refused |
| `ProfileEffects.DefaultAfterSuccess` | crates/hostbraid-cli/src/profiles/service.rs:94-197 | after a success the default is the profile it was set to or that was added as default, none if the default was removed, and otherwise the one before |
| `ProfileEffects.RecordAfterSuccess` | crates/hostbraid-cli/src/profiles/service.rs:94-197 | field by field, the record found before and after a success and the one reported; an added profile was not there before, any other was, and a new credential belongs to the same company |
| `ProfileEffects.KeyringAfterSuccess` | crates/hostbraid-cli/src/profiles/service.rs:93-224 | the whole keyring after a success: a token brought along is stored, one no longer needed removed unless that fails, and nothing else changes |
| `ProfileEffects.RefusedExactly` | crates/hostbraid-cli/src/profiles/service.rs:84-180 | an operation is refused as already configured, not found or of another company if and only if it is, by the record stored |
| `ProfileEffects.RefusalsAreTrue` | crates/hostbraid-cli/src/profiles/service.rs:84-180 | these refusals are only given when true, and always when true and nothing else goes wrong |
| `ProfileEffects.FailuresAreTrue` | crates/hostbraid-cli/src/profiles/service.rs:79-224 | every other failure names a fault that happened, or the error in the stored configuration or in the input |
| `ProfileEffects.GoodRequestsSucceed` | crates/hostbraid-cli/src/profiles/service.rs:79-224 | a request that fits what is stored, with valid input, succeeds when nothing goes wrong |
| `ProfileRuns.RunsStayConsistent` | crates/hostbraid-cli/src/profiles/service.rs:79-224 | over any serial run with any failures and a crash between any two steps, every configured profile backed by the keyring has an entry in it |
| `ProfileRuns.RunsStaySound` | crates/hostbraid-cli/src/profiles/store.rs:155-173 | over any such run the stored configuration can always be loaded again |
| `ProfileRuns.RunsLeaveOthersAlone` | crates/hostbraid-cli/src/profiles/service.rs:79-224 | a profile no operation of a run names keeps its record and its token |
| `ProfileRuns.ErrorChangesNothing` | crates/hostbraid-cli/src/profiles/service.rs:93-224 | an error other than a failed rollback leaves the configuration and the token of every keyring-backed profile as they were |
| `ProfileRuns.FailedRollbackLeavesNewToken` | crates/hostbraid-cli/src/profiles/service.rs:199-214 | after a failed rollback the configuration is unchanged and the entry is the new token; a token in use differs exactly if it was replaced by a different one |
| `ProfileRuns.SuccessIsComplete` | crates/hostbraid-cli/src/profiles/service.rs:79-224 | success commits the requested change with its token, reports the right record, and leaves all other profiles and entries alone |
| `ProfileRuns.KeyringNeverBehind` | crates/hostbraid-cli/src/profiles/service.rs:106-119 | no crash shows a new configuration without its staged token |
| `ProfileRuns.OnlyRotationIsTorn` | crates/hostbraid-cli/src/profiles/service.rs:184-192 | the only crash that shows a changed token under the old configuration interrupts the replacement of a keyring token by a different one, succeed or fail |
| `ProfileRuns.RotationIsTornExactly` | crates/hostbraid-cli/src/profiles/service.rs:184-192 | a successful operation passes through a state with a changed relied-on token under the old configuration if and only if it replaces a keyring token by a different one |
| `ProfileRuns.HalfWayExactly` | crates/hostbraid-cli/src/profiles/service.rs:157-197 | a successful operation passes through a state that readers can tell from both the first and the last one if and only if it is such a replacement and is to change the configuration, both of which can be told before it |
| `ProfileSessions.Perform` | crates/hostbraid-cli/src/profiles/service.rs:79-224 | performing any of the four operations yields an episode of the runs above, justified by what failed |
| `ProfileSessions.RunProcess` | crates/hostbraid-cli/src/profiles/service.rs:79-224 | a process that finds what the last one left, and crashes after any number of system calls, is such an episode too |
| `ProfileSessions.RunSession` | crates/hostbraid-cli/src/profiles/service.rs:79-224 | any sequence of such processes is a valid run, and from a consistent start every state in which one of them can crash is consistent |
| `ProfileSessions.RotationExample` | crates/hostbraid-cli/src/profiles/service.rs:184-197 | a concrete rotation, run without any failure: between its first and its last state there is one with the new token under the old configuration |
| `ProfileRuns.UpdateIsLocal` | crates/hostbraid-cli/src/profiles/service.rs:94-197 | a committed configuration is sound and differs from the one before in the target alone |
| `ProfileRuns.ApplicableCanCommit` | crates/hostbraid-cli/src/profiles/service.rs:94-197 | an operation that finds what it needs and brings valid input is never refused by the final validation |
| `Identifiers.ParseAfterFormat` | crates/hostbraid-cli/src/profiles/model.rs:160-172 | parsing a formatted valid reference gives it back |
| `Identifiers.ParseAcceptsExactlyFormatted` | crates/hostbraid-cli/src/profiles/model.rs:160-172 | a text is accepted if and only if it is a formatted valid reference, and formatting the result gives the text back |
| `Identifiers.FormatInjective` | crates/hostbraid-core/src/model.rs:33-89 | two valid references are never formatted alike |
| `Identifiers.ComponentShape` | crates/hostbraid-core/src/model.rs:5-25 | a text of visible characters is valid if and only if it is not empty and not too long; a control character anywhere or a blank at an end makes it invalid |
| `Identifiers.ByteLengthOfOne` | crates/hostbraid-core/src/model.rs:12-12 | lengths count the one to four bytes a character takes |
| `Identifiers.NamesShape` | crates/hostbraid-core/src/model.rs:32-89 | provider IDs are 1 to 64 small letters, digits and hyphens, profile names also capitals and underscores, other IDs up to 512 bytes |
| `InventoryPaging.FetchPages` | crates/hostbraid-provider-kinsta/src/lib.rs:502-588 | against any server: every request needed and at the right offset, success exactly the accepted whole, every error with a cause in the last page or the page limit |
| `InventoryPaging.TakePage` | crates/hostbraid-provider-kinsta/src/lib.rs:539-586 | a page passes the checks if and only if it fits what was received before it and all limits, and the running totals stay true |
| `InventoryPaging.AddNames` | crates/hostbraid-provider-kinsta/src/lib.rs:556-562 | reports a duplicate if and only if a name repeats within the page or was held before |
| `InventoryGuarantees.FetchIsSound` | crates/hostbraid-provider-kinsta/src/lib.rs:502-588 | against any server a result is the concatenation of pages with one total and one time stamp, has exactly that many items with distinct names, and respects every budget |
| `InventoryGuarantees.FetchErrorsAreTrue` | crates/hostbraid-provider-kinsta/src/lib.rs:502-588 | the call is unreachable if and only if its last request was not answered, and otherwise the contract is broken |
| `InventoryGuarantees.HonestProgress` | crates/hostbraid-provider-kinsta/src/lib.rs:502-588 | with an honest server the items held are always a prefix of its list, and pages and bytes spent and still needed add up to the whole |
| `InventoryGuarantees.FetchIsComplete` | crates/hostbraid-provider-kinsta/src/lib.rs:502-588 | against an honest server the call succeeds if and only if the list, its pages and its bytes are within the limits, and returns the whole list in order |
| `InventoryGuarantees.FullPagesAlwaysFit` | crates/hostbraid-provider-kinsta/src/lib.rs:502-588 | with full pages of 100 the call succeeds if and only if there are at most 100,000 items of at most 128 MiB, so the page limit never cuts off such a list |
| `InventoryResult.ComponentInventory` | crates/hostbraid-provider-kinsta/src/lib.rs:464-484 | an error of the paging loop is passed on, and what it accepts is joined with the catalogs |
| `InventoryResult.InventoryIsComplete` | crates/hostbraid-provider-kinsta/src/lib.rs:464-484 | against an honest server the call succeeds if and only if the list is within the limits and the catalog that decides is there, unambiguous, and knows every installation; within the limits its outcome is the join of the whole list |
| `InventoryResult.PagingIsInvisible` | crates/hostbraid-provider-kinsta/src/lib.rs:464-484 | the same items in any order, each with its installations in any order, cut into pages in any way, have the same outcome of the whole call, inventory or error, as long as they are within the limits |
| `Catalog.EnvironmentIndex` | crates/hostbraid-provider-kinsta/src/lib.rs:833-844 | the index fails if and only if two environments share an ID, and otherwise answers as linear search does |
| `Catalog.EnvironmentOrderCanonical` | crates/hostbraid-provider-kinsta/src/lib.rs:781-793 | the order of environments forgets the order they came in if and only if no two different ones share kind, label and ID |
| `Catalog.EnvironmentOrderIs` | crates/hostbraid-provider-kinsta/src/lib.rs:781-793 | production before staging before development before the rest, then by display name and by ID, in the order of a dictionary |
| `Catalog.CatalogOrder` | crates/hostbraid-cli/src/commands/catalog.rs:229-238 | the environments of a catalog are those of its first site in order, then those of its second, and so on |
| `InventoryMapping.MapSucceedsIffAllKnown` | crates/hostbraid-provider-kinsta/src/lib.rs:846-875 | mapping fails if and only if some installation is in an unknown environment |
| `InventoryMapping.MappedItemIsJoined` | crates/hostbraid-provider-kinsta/src/lib.rs:854-898 | a component has the name, title and latest version of its item, all of its installations and no others, each with the reference of its own ID, its status and its version, in canonical order |
| `InventoryMapping.ComponentsAreItems` | crates/hostbraid-provider-kinsta/src/lib.rs:846-912 | the components are the items, all of them and no others, in canonical order, with the total and the time stamp of the fetch |
| `InventoryMapping.InstallationsAreOfTheCatalog` | crates/hostbraid-provider-kinsta/src/lib.rs:833-912 | every installation in the result carries the catalog's reference with its own ID, and belongs to the item of its component |
| `InventoryMapping.InstallationOrderIrrelevant` | crates/hostbraid-provider-kinsta/src/lib.rs:876-887 | with distinct installations an item maps the same in whatever order they came |
| `InventoryMapping.ItemOrderIrrelevant` | crates/hostbraid-provider-kinsta/src/lib.rs:900-904 | with distinct slugs the inventory does not depend on the order of the items |
| `InventoryMapping.InventoryOrderIs` | crates/hostbraid-provider-kinsta/src/lib.rs:876-904 | installations are ordered by site and environment ID, components by title and slug, as in a dictionary |
| `InventoryMapping.JoinInventory` | crates/hostbraid-provider-kinsta/src/lib.rs:470-484 | the catalog is fetched again exactly if it could be fetched, is unambiguous and lacks an environment; the last catalog alone decides the result, and an error is that of its fetch or a broken contract |
| `InventoryMapping.JoinsExactly` | crates/hostbraid-provider-kinsta/src/lib.rs:470-484 | in words: the first catalog decides unless it has no shared ID and lacks an installation, and then the second; the one that decides gives its own error, a broken contract if it shares an ID or lacks an installation, and otherwise a success |
| `Selection.ResolvingIsUnambiguous` | crates/hostbraid-cli/src/commands/catalog.rs:42-67 | a well-formed ID resolves if it occurs exactly once in the catalog, and to that environment; it is not found if and only if it occurs nowhere, and ambiguous if and only if it occurs twice |
| `Selection.SiteResolvingIsUnambiguous` | crates/hostbraid-cli/src/commands/catalog.rs:20-40 | the same of site IDs |
| `Selection.AnswerableExactly` | crates/hostbraid-cli/src/commands/catalog.rs:134-195 | a request can be answered if and only if it has a selector, every ID in it is well-formed and occurs exactly once, and every label is well-formed and in use |
| `Selection.ValidateEnvironmentIds` | crates/hostbraid-cli/src/commands/catalog.rs:162-170 | passes if and only if every requested ID resolves, in whatever order a hash set yields them, and an error is that of a requested ID |
| `Selection.SelectEnvironments` | crates/hostbraid-cli/src/commands/catalog.rs:69-170 | an answerable request gets exactly the subsequence of the catalog that has any value of every non-empty category, called broad exactly if it names more than environment IDs; it is refused if and only if it is not answerable or matches nothing, without selector exactly if it has none, as malformed exactly if something in it is, and as not found or ambiguous only if something is |
| `Selection.TargetsAreTheMatches` | crates/hostbraid-cli/src/commands/catalog.rs:78-113 | an environment is a target if and only if it is in the catalog and matches every category |
| `Selection.AllSelectsAll` | crates/hostbraid-cli/src/commands/catalog.rs:69-132 | a request for everything alone is answerable and gets every environment in catalog order |
| `Selection.IdSelectionIsExact` | crates/hostbraid-cli/src/commands/catalog.rs:42-132 | a selection by environment IDs alone has exactly one target for each distinct ID |
| `ArgumentOptions.ScanShortOptions` | crates/hostbraid-cli/src/cli.rs:919-958 | the loop over a cluster gives the meaning `FirstOtherDecides` characterises |
| `ArgumentOptions.FirstOtherDecides` | crates/hostbraid-cli/src/cli.rs:927-957 | the first character of a cluster that is no flag decides what the cluster means, and where the value of an output option is taken from |
| `OptionGrammar.ClusterSpelled` | crates/hostbraid-cli/src/cli.rs:919-958 | what `-`, flags, `o` and a rest mean, for any flags and any rest |
| `OptionGrammar.WidthsSpelled` | crates/hostbraid-cli/src/cli.rs:821-1080 | which options there are, globally and under `ssh run`, and exactly which of them take the next argument for their value |
| `OptionGrammar.StepSpelled` | crates/hostbraid-cli/src/cli.rs:821-1080 | which arguments each scanner steps over, with or without a value, and what it stops at |
| `ArgumentScan.RemoteBoundary` | crates/hostbraid-cli/src/cli.rs:960-1000 | finds where the remote command of a root-level `ssh run` begins |
| `ArgumentScan.RemoteBoundaryFrom` | crates/hostbraid-cli/src/cli.rs:1002-1080 | the same from `ssh` on, with the two stages as two scans |
| `CommandGrammar.RemoteCommandSpelled` | crates/hostbraid-cli/src/cli.rs:960-1080 | on any command line the remote command begins at an argument if and only if there are `ssh` and `run` before it, nothing but options with their values before, between and behind these, and the argument is no option of `ssh run` |
| `CommandGrammar.SubcommandSpelled` | crates/hostbraid-cli/src/cli.rs:821-856 | the next subcommand is the first argument that does not look like an option, with nothing but known options and their values before it |
| `ArgumentScan.RemoteCommandWithin` | crates/hostbraid-cli/src/cli.rs:960-1080 | a boundary lies inside the arguments, after `ssh` and a later `run`, at an argument that is no option of `ssh run` |
| `ArgumentScan.RemoteTailIrrelevant` | crates/hostbraid-cli/src/cli.rs:870-910 | command lines that agree up to and including the boundary have the same boundary and the same output mode |
| `ArgumentScan.FirstRemoteArgumentMatters` | crates/hostbraid-cli/src/cli.rs:870-910 | replacing the first remote argument can change the output mode if and only if the output scan is waiting for a value there |
| `ArgumentScan.MisreadCommandLine` | crates/hostbraid-cli/src/cli.rs:870-910 | a command line on which it does |
| `ArgumentScan.MachineOutputRequested` | crates/hostbraid-cli/src/cli.rs:870-910 | what clap says, if it accepts the arguments; otherwise the last choice before the boundary, or the environment's |
| `CommandGrammar.OutputModeSpelled` | crates/hostbraid-cli/src/cli.rs:870-910 | without clap, JSON is chosen if and only if the last argument that asks for an output asks for it, among those the scan comes by before the remote command, or none asks and the environment does; in any spelling, with or without `=`, in a cluster or with the next argument |
| `CommandGrammar.AwaitsSpelled` | crates/hostbraid-cli/src/cli.rs:870-910 | the output scan waits for a value at an argument exactly if it comes by an output option right before it |
| `ArgumentScan.LastChoiceWins` | crates/hostbraid-cli/src/cli.rs:875-908 | a later output choice overrides every earlier one, and without a later one the earlier stands |
| `ArgumentScan.NextSubcommandCandidate` | crates/hostbraid-cli/src/cli.rs:821-856 | the next argument that names a subcommand, found past global options only |
| `ArgumentScan.BrokenCommandPath` | crates/hostbraid-cli/src/cli.rs:821-1080 | a command line on which only the boundary scan gets past an unknown option |
| `CommandPath.BoundaryFollowsCommandPath` | crates/hostbraid-cli/src/cli.rs:821-1080 | on any command line the boundary scan follows the path that reading the subcommands gives once unknown options are replaced by known ones, and seeks the remote command right after its `ssh run` |
| `CommandPath.ReadingsPartExactly` | crates/hostbraid-cli/src/cli.rs:821-1080 | on any command line the two hand-written readings of a command path differ if and only if unknown options are all that keeps the subcommands from being `ssh run` and an argument that is no option of it follows |
| `CommandPath.BoundaryGoesOn` | crates/hostbraid-cli/src/cli.rs:960-1080 | where the reading of subcommands gives up at an unknown option, in the place of `ssh` or behind it, the boundary is what it would be if the command line began behind that option |

## Left out

- Real threads, processes, pipes, signals and clocks: atomics are sequentially consistent steps, a child is any sequence of poll answers, elapsed time any number, a pipe any sequence of read answers.
- Message texts, hints, durations, and the mapping of errors to exit codes.
- ChildProcess.WaitForChild: does not model waiting without end; after finitely many polls without a verdict the model of waiting is still polling, as the source would be.
- A poisoned mutex and a panicking worker or reader thread; a reader that dies is a pipe that does not drain.
- The size of the read buffer: a read may deliver any number of bytes.
- Bit operations in the base64 encoder, which are written as division and remainder.
- UTF-8 itself: which byte strings are valid is a parameter of `Capture.FromRaw`.
- The inherited single-target path of `run_remote_command`, its confirmation and its output.
- Whether the serialized configuration exceeds the size limit, and whether a file can be opened, read or renamed, which are parameters of the calls; permission, ownership and symlink checks are among the reasons a call may fail.
- ProfileRuns.RunsStayConsistent: covers serial runs only, not two HostBraid processes interleaving inside one profile operation; rollback and cleanup run after the file lock is released.
- Power loss that undoes an unsynced rename: a crash here keeps every rename that was completed, while a lost rename after a keyring entry was deleted could leave the old configuration without its token.
- A keyring call that fails after changing the entry: a failed call changes nothing.
- Entries of the keyring that no configured profile uses: a rollback may remove one that an earlier failed cleanup left behind.
- Prompting for credentials and validating them with the provider.
- HTTP, JSON decoding and the overall timeout of paging: the server is a function from request number and offset to a decoded page with its length, or to a failure of the transport.
- The fields of sites, environments and components that are copied unchanged and decide nothing, and the order of sites.
- The sort of the standard library, which sorts in place: `Ordering.Sort` is a function, and only its result is used.
- Parsing by clap, the table of parse errors, and completion; clap's answer is a parameter of `ArgumentScan.MachineOutputRequested`.
- The environment variable for the output mode, which is a parameter.
- Terminal rendering, `doctor`, `guide`, `search`, `welcome` and the machine envelope.
