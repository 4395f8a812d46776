# SummitAI autonomous executor — a verified model of its core

`tools/autonomous_executor.py` drives a scripted app build as 400 steps:
20 phases of 20 steps each. Every step is executed, validated and
committed, and a failed action is retried with error recovery. The run
controller walks the steps in (phase, step) order from the position it
restored from `progress.json`. It checkpoints every 10 completions,
checks system health every 50, and finishes with a final validation and
a final save.

This project models that core in Dafny:

- **Collaborators** (`collaborators.dfy`). The executor's environment is
  one `Env` value of oracles:
  - the outcome of the two real step actions on each attempt;
  - the state of the file system and the answer of every shell command at
    each moment the executor asks (`Moment`);
  - the clock;
  - whether an exception escapes while a step runs.
- **Decision policies** (`policies.dfy`). Pure functions over those answers:
  - step dispatch (only 1.1 and 1.2 are real, every other step is a
    placeholder);
  - the step-description fallback;
  - the validator;
  - the recovery policy;
  - the health-check verdict;
  - the commit message.
- **Retry machine** (`step_machine.dfy`). `_execute_step_with_recovery` is a
  specification function (`AttemptsFrom`) and a method with a loop
  (`ExecuteStepWithRecovery`) proved equal to it. The retry bound and the
  success conditions are lemmas about the function. A step's history is a
  list of collaborator calls tagged with their attempt number.
- **Progress file** (`progress_store.dfy`). What `_save_progress` writes and
  what `_load_progress` reads back, with the save/load round trip.
- **Run controller** (`run_controller.dfy`). `execute_all_phases` as
  specification functions, one per loop level:
  - the body of the inner loop (`StepTurn`, `AfterSuccess`);
  - the inner loop (`StepsFrom`);
  - the outer loop (`PhasesFrom`);
  - the whole run (`RunAll`, `Finish`).

  Over these, lemmas prove the ordering, fail-fast, counter, cadence and
  resume properties. The controller sees its collaborators through a
  `Responses` value. `ResponsesOf` builds that value from an `Env` using the
  retry machine and the policies.
- **Executor object** (`executor.dfy`). The class `AutonomousExecutor` with
  the fields the source updates in place:
  - the counters and the run flag;
  - the phase-description table;
  - the progress file, as an optional document.

  `ExecuteAllPhases`, `LoadProgress` and `SaveProgress` are methods that
  assign those fields. Their contracts tie the new state and the event log
  to the specification functions. The two nested `for` loops of
  `execute_all_phases` are the methods `RunPhases` and `RunPhase`, and the
  loop body is `RunTurn`/`RecordSuccess`. Each of these is proved equal to
  its specification function.

Behaviour of the code that the model keeps as written:

- **Validation is never retried.** A validation or commit failure after a
  successful action ends the step at once. There is no recovery and no
  further attempt.
- **The final snapshot of a full run records phase 20, step 1, 400
  completions and the status "running".** The step counter is reset to 1
  after every phase (line 734), and the run flag is never cleared on
  normal completion (lines 156, 745). The run does not end one past the
  last step and is not marked stopped (`FreshRun`,
  `FreshRunLeavesFinalSnapshot`).
- **Resuming from that final snapshot replays phase 20.** Counters saved
  between a phase's reset and the next success have the form (p, 1, 20·p).
  They do not match the schedule (`Consistent`). A run resumed from them
  re-runs phase p, and a successful run then reports 20 more completions
  than there are steps (`ResumeBetweenPhases`, `RerunAfterCompletion`). The
  resume guarantee `ResumeFromCheckpoint` is stated for consistent
  counters. In a run that starts from consistent counters, the counters
  after every in-loop update (each successful step and each checkpoint)
  are consistent again; the phase reset at line 734 is the one update
  that leaves them otherwise.

## Model

| member | source | states |
|---|---|---|
| Policies.Dispatch | tools/autonomous_executor.py:608-622 | Steps 1.1 and 1.2 return their action's outcome. Every other step succeeds with the placeholder message and no changed files. |
| Policies.PlaceholderMessageIdentifiesStep | tools/autonomous_executor.py:622 | Two steps with the same placeholder message are the same step. |
| Policies.StepDescription | tools/autonomous_executor.py:224 | A step in the description table gets its entry; any other step gets the generated `Phase <p> Step <s> implementation` label. |
| Policies.FallbackIdentifiesStep | tools/autonomous_executor.py:224 | Two steps with the same generated label are the same step. |
| Policies.Validate | tools/autonomous_executor.py:291-357 | Computes the validator's verdict and the commands it issued. Its properties are stated by `FoundationValidation`, `LaterStepValidation` and `PassEndsWithWorkspaceStatus`. |
| Policies.FoundationValidation | tools/autonomous_executor.py:298-330 | Steps 1.1 and 1.2: a missing SummitAI directory or `.git` fails before any command runs. Otherwise `git status` is the only command. The step passes exactly when that succeeds and, for step 2, both Swift sources exist. |
| Policies.LaterStepValidation | tools/autonomous_executor.py:332-357 | Other steps: the build probe runs exactly when the Xcode project exists. The step passes exactly when the probe (if run) and `git status` both succeed. |
| Policies.PassEndsWithWorkspaceStatus | tools/autonomous_executor.py:291-357 | Every validation that passes ended with a successful workspace `git status`. |
| Policies.Recover | tools/autonomous_executor.py:402-420 | Computes the recovery report and its cleanup commands. `RecoveryCommands` states what it issues. |
| Policies.RecoveryCommands | tools/autonomous_executor.py:402-420 | Recovery always reports success and always clears DerivedData first. It resets hard exactly when attempt > 1 and the SummitAI directory exists, cleans the project exactly when the Xcode project exists, and issues nothing else. |
| Policies.HealthCheck | tools/autonomous_executor.py:658-682 | Computes the health verdict and the probes issued. `HealthVerdict` states when it is healthy. |
| Policies.HealthVerdict | tools/autonomous_executor.py:658-682 | Healthy exactly when the root `git status` succeeds or its error output contains "not a git repository". Only a healthy check runs the disk and memory probes, which never change the verdict. |
| Policies.Bullets | tools/autonomous_executor.py:377 | There is one `- <file>` line per changed file, in order. |
| Policies.CommitMessage | tools/autonomous_executor.py:366-382 | Builds the commit message from the title, the fixed body, the file list and the footer. `CommitMessageLayout` states its layout. |
| Policies.CommitMessageLayout | tools/autonomous_executor.py:366-382 | The message starts with `[Cursor] Phase p.s: description`, carries the file list between the fixed header and footer, and ends with the timestamp and a line break. |
| Policies.FileListRoundTrip | tools/autonomous_executor.py:376-377 | Reading the file list back out of the message gives exactly the reported files, in order, when no name contains a line break. |
| Policies.Commit | tools/autonomous_executor.py:359-400 | Builds the audit record: the message and whether the `CommitAll` command succeeded. `CommitRecordsStep` states both. |
| Policies.CommitRecordsStep | tools/autonomous_executor.py:359-400 | The recorded message opens with the step's title, lists exactly the reported files between the fixed header and footer, and ends with the timestamp. The commit counts exactly when the `CommitAll` command succeeded. |
| StepMachine.Attempt | tools/autonomous_executor.py:629-654 | An attempt that does not end the step is a failed action with attempts remaining. |
| StepMachine.TryAttempt | tools/autonomous_executor.py:629-654 | One pass of the loop body: act, then validate and commit, or recover while attempts remain. The result is that of `Attempt`. |
| StepMachine.ExecuteStepWithRecovery | tools/autonomous_executor.py:624-656 | The loop's verdict and its collaborator calls are those of the specification `RunStep`. |
| StepMachine.AttemptsFrom | tools/autonomous_executor.py:628-654 | The retry loop from a given attempt: that attempt, then the rest when it does not end the step. `AttemptsFromShape`, `AllFailFrom` and `FirstSuccessFrom` state what it does. |
| StepMachine.RunStep | tools/autonomous_executor.py:624-656 | The retry loop from attempt 1. `RunStepShape`, `RetryBound` and `SucceedsIffRecordedOnFirstSuccess` state what it does. |
| StepMachine.AttemptsFromShape | tools/autonomous_executor.py:628-654 | A run from any attempt opens with that attempt's action, and a run that succeeds ends with a successful commit. |
| StepMachine.RunStepShape | tools/autonomous_executor.py:624-656 | A step's run opens with the action on attempt 1, and a step that succeeds ends with a successful commit. |
| StepMachine.RetryBound | tools/autonomous_executor.py:626-654 | When the action always fails, it is tried on attempts 1, 2 and 3 and recovery runs after 1 and 2 only. Nothing is validated or committed, and the step fails. |
| StepMachine.AllFailFrom | tools/autonomous_executor.py:628-654 | The same, from any attempt k: the actions are k..3 and the recoveries are k..2. |
| StepMachine.FailedAttempt | tools/autonomous_executor.py:648-654 | A failed action is followed by recovery unless it was the last attempt. Nothing is validated or committed. |
| StepMachine.SucceededAttempt | tools/autonomous_executor.py:631-646 | A successful action ends the step. It is validated once, committed only if the validation passed, never recovered, and the step succeeds exactly when validation and commit both pass. |
| StepMachine.ValidatedAttempt | tools/autonomous_executor.py:636-643 | A successful action that passes validation is validated and committed once, on its own attempt, with no recovery. The step succeeds exactly when the commit does. |
| StepMachine.RejectedAttempt | tools/autonomous_executor.py:636-646 | A successful action that fails validation ends the step in failure, with no commit and no recovery. |
| StepMachine.FirstSuccessFrom | tools/autonomous_executor.py:628-654 | From attempt k, with attempt a the first whose action succeeds: actions on k..a, recoveries on k..a-1, one validation on a, and success exactly when both checks pass on a. |
| StepMachine.NoRetryAfterSuccessfulAction | tools/autonomous_executor.py:631-646 | Once attempt a is the first whose action succeeds, no later attempt is made. Validation runs once and at most one commit is made. |
| StepMachine.SucceedsIffRecordedOnFirstSuccess | tools/autonomous_executor.py:624-656 | A step succeeds exactly when action, validation and commit all succeed on the same attempt, and that attempt is the first with a successful action. |
| StepMachine.PlaceholderAttemptedOnce | tools/autonomous_executor.py:617-646 | A placeholder step is attempted once, without recovery. It succeeds exactly when its validation and commit pass. |
| StepMachine.PlaceholderCommitMessage | tools/autonomous_executor.py:615-643 | The commit of a placeholder step records the placeholder message with no changed files, stamped at the first attempt's commit. |
| StepMachine.AttemptsOfAppend | tools/autonomous_executor.py:628-654 | The attempts on which a collaborator was called, over two stretches of calls, are those of the first stretch followed by those of the second. |
| ProgressStore.JsonObject | tools/autonomous_executor.py:144 | The phase table as JSON writes it, with integer keys turned into their decimal form. `JsonObjectKeys` states it. |
| ProgressStore.JsonObjectKeys | tools/autonomous_executor.py:144 | Writing the integer-keyed phase table to JSON keeps every entry under the decimal form of its key and adds no other key. |
| ProgressStore.Snapshot | tools/autonomous_executor.py:139-174 | The document `_save_progress` writes for the current counters. `SnapshotContents` states its contents. |
| ProgressStore.SnapshotContents | tools/autonomous_executor.py:139-174 | A snapshot records the six counters and target keys and the four derived text keys. The next position equals the current counters, and the status is "running" exactly while the run flag is set. The next-phase description is the corrected lookup (see Findings). |
| ProgressStore.Restore | tools/autonomous_executor.py:242-244 | Each counter is read from the file when present, and defaults to 1, 1 and 0 when missing. |
| ProgressStore.Load | tools/autonomous_executor.py:226-255 | A missing file changes nothing. Otherwise the counters come from the file, and the phase table is replaced only when the file has one. |
| ProgressStore.SaveLoadRoundTrip | tools/autonomous_executor.py:150-153 | Loading a snapshot restores exactly the counters that were saved, whatever was held before. The phase table comes back as JSON returns it. |
| ProgressStore.PhaseDescriptionAsWritten | tools/autonomous_executor.py:162 | The lookup as written: a string-keyed table always answers "Unknown Phase". |
| ProgressStore.PhaseDescription | tools/autonomous_executor.py:162 | The corrected lookup, which consults a string-keyed table under the phase's decimal form. `PhaseDescriptionLookup` states it. |
| ProgressStore.PhaseDescriptionLookup | tools/autonomous_executor.py:162 | The corrected lookup agrees with the code's on an integer-keyed table. On a string-keyed table it answers the entry under the decimal key, or "Unknown Phase" when there is none. |
| ProgressStore.ResumedLookupAsWrittenIsUnknown | tools/autonomous_executor.py:162 | As written, after any resume the next-phase description lookup answers "Unknown Phase" for every phase. |
| ProgressStore.ResumedLookupAsWrittenLosesPhaseOne | tools/autonomous_executor.py:46-47 | Concrete case: phase 1 is described before a resume and "Unknown Phase" after it. |
| ProgressStore.ResumedLookupKeepsDescriptions | tools/autonomous_executor.py:238-240 | With the intended lookup, every phase has the same description before and after a resume. |
| RunController.StepTurn | tools/autonomous_executor.py:705-729 | One pass of the inner loop's body: the stop-flag check, an escaping exception (save and fail), a failed step, or the update after a success. `TurnFacts` states what it does. |
| RunController.AfterSuccess | tools/autonomous_executor.py:716-729 | The update after a successful step: the counters, the save at multiples of 10 and the health check at multiples of 50. `TurnAfterSuccess` states it. |
| RunController.StepsFrom | tools/autonomous_executor.py:703-729 | The inner loop over the remaining steps of a phase, stopping at the first turn that stops. `StepsFromAccounts`, `StepsFromOrder` and `StepsFromSaves` state what it does. |
| RunController.PhasesFrom | tools/autonomous_executor.py:701-734 | The outer loop: each phase's inner loop, then the step reset to 1, stopping at the first phase that fails. `PhasesFromAccounts`, `PhasesFromOrder`, `PhasesFromSaves` and `PhasesFromEnd` state what it does. |
| RunController.TurnFacts | tools/autonomous_executor.py:705-729 | One inner-loop turn: a continuing turn leaves (phase, step+1, completed+1) and a clean log. A stop leaves the counters unchanged or updated. The turn starts step (phase, step) exactly when the run flag is set, and its successful step and its checkpoint both record the updated counters. |
| RunController.TurnAfterSuccess | tools/autonomous_executor.py:716-729 | After a successful step: the counters are updated, the save and health check happen exactly at multiples of 10 and 50, and the step's event and the checkpoint record the new counters. |
| RunController.StepsFromAccounts | tools/autonomous_executor.py:703-729 | The inner loop adds one completion per successful step. Its saves are exactly at the multiples of 10 and its health checks exactly at the multiples of 50. At most the last event is a failure. A finished loop completed every step and left (phase, 21). |
| RunController.StepsFromOrder | tools/autonomous_executor.py:703-714 | The inner loop starts steps `step..20` of its phase in order, each at most once, stopping at the first failure. A finished loop started all of them. |
| RunController.StepsFromSaves | tools/autonomous_executor.py:717-723 | After every counter update of the inner loop (each successful step and each checkpoint) the counters are in its phase, with the step and the completion count advanced together. |
| RunController.StepRangeLength | tools/autonomous_executor.py:703 | The inner loop from step s has 21 - s steps, or none past step 20. |
| RunController.ScheduleLength | tools/autonomous_executor.py:701-703 | From (phase, step) the schedule holds the rest of this phase and all of the later phases. |
| RunController.PhasesFromAccounts | tools/autonomous_executor.py:701-734 | The outer loop keeps the same books. A finished loop completed every step still planned and left the step counter at 1. |
| RunController.PhasesFromCompletes | tools/autonomous_executor.py:701-734 | A finished outer loop completed exactly the steps its plan had left. |
| RunController.PhasesFromOrder | tools/autonomous_executor.py:701-714 | The outer loop starts the planned steps in lexicographic order, each at most once, stopping at the first failure. A finished loop started all of them. |
| RunController.PhasesFromSaves | tools/autonomous_executor.py:717-723 | From counters that match the schedule, the counters after every in-loop update (each successful step and each checkpoint) match it too: completed == (phase-1)·20 + step - 1. |
| RunController.PhasesFromEnd | tools/autonomous_executor.py:701-734 | A loop that finishes after completing any step leaves the phase counter at 20. |
| RunController.ScheduleAdvance | tools/autonomous_executor.py:703 | Within a phase, the schedule from a step is that step followed by the schedule from the next one. |
| RunController.ScheduleFromOffset | tools/autonomous_executor.py:701-703 | The schedule from any position is the suffix of the full 400-step run that starts at that position's offset. |
| RunController.ConsistentResumesInPlace | tools/autonomous_executor.py:701-703 | Counters that match the schedule plan exactly the steps of the full run not yet completed. |
| RunController.RunAll | tools/autonomous_executor.py:690-764 | The whole run after loading: the initial health check, the outer loop and `Finish`. `RunAllFacts` and `ResumeFromCheckpoint` state what it does. |
| RunController.Finish | tools/autonomous_executor.py:738-745 | After a finished loop, the final validation and, if it passes, the final save. `FinalStretch` states it. |
| RunController.RunAllFacts | tools/autonomous_executor.py:684-764 | The whole run keeps its books, starts the planned steps in order and no other, and, when it succeeds, has completed all of them and ends with the final save. |
| RunController.FinalStretch | tools/autonomous_executor.py:738-745 | The final validation and the final save change no counter and start no step. A successful run ends with that save. |
| RunController.RunCheckpoints | tools/autonomous_executor.py:717-723 | Only the loop updates the counters and writes checkpoints: every such position of the run is one of the loop's. |
| RunController.StoppedRunFails | tools/autonomous_executor.py:705-707 | A run whose flag is cleared, and which still has a step scheduled, fails. |
| RunController.ResumeFromCheckpoint | tools/autonomous_executor.py:684-764 | From consistent counters the run starts a prefix of the not-yet-completed steps of the full run, in order, and all of them when it succeeds. It then ends with 400 completions at (20, 1), and the counters after each of its in-loop updates and checkpoints are consistent. |
| RunController.FreshRun | tools/autonomous_executor.py:94-97 | A successful fresh run started all 400 steps in order and ends at (20, 1, 400). Its counters after every in-loop update and checkpoint match the schedule. Its last save records next phase 20, next step 1, 400 completions and the status "running". |
| RunController.ResumeBetweenPhases | tools/autonomous_executor.py:734 | Counters (p, 1, 20·p), which exist between a phase's reset and the next success, are not consistent. Resuming from them re-runs phase p, and success reports 420. |
| RunController.EndsWithFinalSave | tools/autonomous_executor.py:744-745 | A successful run ends with the final save of the counters it ends with. |
| RunController.FinalSaveRestores | tools/autonomous_executor.py:745 | Loading the final save of a successful run restores the counters it ended with. |
| RunController.RerunAfterCompletion | tools/autonomous_executor.py:734 | Resuming from the final save of a successful fresh run starts at (20, 1, 400). A successful rerun replays steps 20.1 to 20.20 and reports 420 completions. |
| Executor.LatestFile | tools/autonomous_executor.py:170-171 | The progress file after a stretch of events: the last save's snapshot, or the file as it was. `LatestFileAppend`, `LatestFileWithoutSaves` and `LatestFileEndsWithSave` state it. |
| Executor.LatestFileAppend | tools/autonomous_executor.py:170-171 | The progress file after two stretches is the file after the first, then updated by the saves of the second. |
| Executor.LatestFileWithoutSaves | tools/autonomous_executor.py:170-171 | Events that save nothing leave the progress file as it was. |
| Executor.LatestFileEndsWithSave | tools/autonomous_executor.py:170-171 | After a log that ends with a save, the file holds exactly that save's snapshot. |
| Executor.AutonomousExecutor.constructor | tools/autonomous_executor.py:87-101 | A new executor is running at phase 1, step 1, with nothing completed and a target of 400 steps. |
| Executor.AutonomousExecutor.SaveProgress | tools/autonomous_executor.py:139-174 | The progress file becomes the snapshot of the current state, and nothing else changes. |
| Executor.AutonomousExecutor.LoadProgress | tools/autonomous_executor.py:226-255 | The new counters and table are those of `Load` on the old ones and the file. The run flag, the target and the file are unchanged. |
| Executor.AutonomousExecutor.ExecuteAllPhases | tools/autonomous_executor.py:684-764 | The verdict, the counters, the event log and the progress file left are those of `RunAll` on the loaded state. |
| Executor.AutonomousExecutor.RunPhases | tools/autonomous_executor.py:701-736 | The outer loop equals `PhasesFrom` from the current phase and counters, including the saves it leaves in the file. |
| Executor.AutonomousExecutor.RunPhase | tools/autonomous_executor.py:703-732 | The inner loop equals `StepsFrom` from the restored step in the restored phase, else from 1. |
| Executor.AutonomousExecutor.RunTurn | tools/autonomous_executor.py:705-729 | One pass of the loop body equals `StepTurn`: the stop-flag check, the exception save, the step with recovery and the update. |
| Executor.AutonomousExecutor.RecordSuccess | tools/autonomous_executor.py:716-729 | The update after a successful step equals `AfterSuccess`: the counters, the save at multiples of 10, and the health check at multiples of 50. |
| Executor.FreshRunLeavesFinalSnapshot | tools/autonomous_executor.py:745 | After a successful fresh run, the progress file is the snapshot of (20, 1, 400) taken while the run flag is set, at the final clock reading. |
| Executor.TurnThen | tools/autonomous_executor.py:703-729 | One turn seen from the inner loop: a stop ends it, and a continue leaves the rest of the loop from the next step. |
| Executor.PhaseThen | tools/autonomous_executor.py:701-734 | One phase seen from the outer loop: a failed phase ends it, and a finished phase leaves the rest from the next phase with the step reset to 1. |
| Text.ParseIntToString | tools/autonomous_executor.py:238-240 | Reading back the decimal form of an integer gives the integer. |
| Text.IntToStringInjective | tools/autonomous_executor.py:238-240 | Distinct integers have distinct decimal forms, so JSON's key conversion loses no entry. |
| Text.SplitJoin | tools/autonomous_executor.py:377 | Splitting a joined list at the separator gives back the parts, when no part contains it. |
| Text.ContainsIffOccurs | tools/autonomous_executor.py:665 | The substring search succeeds exactly when the needle occurs at some index. |

## Left out

- Process execution (`_execute_command`, lines 257-289) is left out. Every command's result is an oracle answer; a command that times out is one whose answer is a failure. The per-call-site timeouts, shell strings, working directories and subprocess behaviour are not modelled.
- The concrete step actions for 1.1 and 1.2 (lines 422-606) are left out. They only write files and templates; their outcome is the `action` oracle.
- JSON encoding and file I/O are not modelled. The progress file is a document holding the keys the core writes or derives from its state. The constant keys are left out: the mission, architecture and target strings and the three context-preservation flags. `_initialize_context_preservation` (lines 110-130) and the restore of `execution_context` (lines 233-235) are left out too. Malformed JSON is not handled by the code, and the model adds no rule for it.
- `progress_percent` (line 154) is left out because it is floating point and informational. The execution-time arithmetic (lines 747-751) is left out for the same reason.
- Timestamps from `datetime.now()` are not computed. They are read from the `clock` oracle at each moment.
- The signal handler is not modelled: its save, `sys.exit` and a signal arriving mid-run (lines 104-105, 132-137). The run flag is the value it has when the run starts. A cleared flag is modelled by `StepTurn`'s check and `StoppedRunFails`.
- Exceptions are modelled only as escaping while a step is executed (the `raises` oracle): the executor saves with the current counters and fails (lines 757-764). Exceptions raised by a save, a health check or the final validation are not modelled. `KeyboardInterrupt` takes the same save-and-fail path and is covered by the same oracle.
- Logging (lines 69-78 and throughout) is left out. So are the placeholder's `time.sleep(1)` (line 620) and `main` (lines 766-789).
- The unused `threading` and `queue` imports and `execution_queue` (lines 26-27, 92) are left out. There is no concurrency.
- The disk and memory probes of `_health_check` (lines 671-680) are issued but their output is not parsed. The verdict does not depend on them.
- The embedded description tables (lines 46-67, 178-222) are constructor parameters, not their literal contents. The phase-description lookup on line 162 uses the corrected `PhaseDescription`; see Findings.
- Writing the commit message to `commit_message.txt` and removing it afterwards (lines 384-392) is one `CommitAll` command, whose answer decides the commit.
- The `return False` after the retry loop (line 656) is not reachable, because every iteration of the loop returns or continues. The loop method therefore has no path past the loop.

## Findings

| source | as written | input that shows it | evidently intended | confidence | as-written member | corrected member |
|---|---|---|---|---|---|---|
| tools/autonomous_executor.py:162 | After a resume the phase table comes from JSON with string keys (lines 238-240). The next-phase description is still looked up with the integer `current_phase`, so it is always "Unknown Phase". | Save at (1, 11, 10) with the built-in table, then load. Phase 1 was "Project Foundation & Git Setup" and now reads "Unknown Phase". | The same description before and after a resume. | not executed | ProgressStore.ResumedLookupAsWrittenLosesPhaseOne | ProgressStore.ResumedLookupKeepsDescriptions |
