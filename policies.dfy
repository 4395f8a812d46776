/**
  The decision policies of the executor, as functions of the answers its
  collaborators give: step dispatch, the validator, the recovery policy, the
  health-check verdict, the commit message and the description lookups.
 */
module Policies {
  import opened Text
  import opened Collaborators

  // ---------------------------------------------------------------------------
  // Step dispatch and descriptions

  /** Only steps 1.1 and 1.2 have a real action; every other step is a placeholder. */
  predicate IsImplemented(phase: int, step: int) {
    phase == 1 && (step == 1 || step == 2)
  }

  /** `Phase <p>.Step <s> completed (placeholder)` */
  function PlaceholderMessage(phase: int, step: int): string {
    "Phase " + IntToString(phase) + (".Step " + IntToString(step) + " completed (placeholder)")
  }

  /** The outcome of executing a step on a given attempt. */
  function Dispatch(action: (int, int, int) -> StepOutcome, phase: int, step: int, attempt: int): (out: StepOutcome)
    ensures IsImplemented(phase, step) ==> out == action(phase, step, attempt)
    ensures !IsImplemented(phase, step) ==> out.success && out.files == []
    ensures !IsImplemented(phase, step) ==> out.message == PlaceholderMessage(phase, step)
  {
    if IsImplemented(phase, step) then action(phase, step, attempt)
    else StepOutcome(true, PlaceholderMessage(phase, step), [])
  }

  /** Placeholder messages name their step: different steps never share one. */
  lemma PlaceholderMessageIdentifiesStep(p: int, s: int, p': int, s': int)
    requires PlaceholderMessage(p, s) == PlaceholderMessage(p', s')
    ensures p == p' && s == s'
  {
    IntToStringLacks(p, '.');
    IntToStringLacks(p', '.');
    CutAfterPrefix("Phase ", IntToString(p), ".Step " + IntToString(s) + " completed (placeholder)",
                   IntToString(p'), ".Step " + IntToString(s') + " completed (placeholder)", '.');
    IntToStringInjective(p, p');
    IntToStringLacks(s, ' ');
    IntToStringLacks(s', ' ');
    CutAfterPrefix(".Step ", IntToString(s), " completed (placeholder)",
                   IntToString(s'), " completed (placeholder)", ' ');
    IntToStringInjective(s, s');
  }

  /** `Phase <p> Step <s> implementation` */
  function FallbackDescription(phase: int, step: int): string {
    "Phase " + IntToString(phase) + (" Step " + IntToString(step) + " implementation")
  }

  /** A description table lookup that falls back to a generated label. */
  function StepDescription(table: map<(int, int), string>, phase: int, step: int): (d: string)
    ensures (phase, step) in table ==> d == table[(phase, step)]
    ensures (phase, step) !in table ==> d == FallbackDescription(phase, step)
  {
    if (phase, step) in table then table[(phase, step)] else FallbackDescription(phase, step)
  }

  /** Generated labels name their step: different steps never share one. */
  lemma FallbackIdentifiesStep(p: int, s: int, p': int, s': int)
    requires FallbackDescription(p, s) == FallbackDescription(p', s')
    ensures p == p' && s == s'
  {
    IntToStringLacks(p, ' ');
    IntToStringLacks(p', ' ');
    CutAfterPrefix("Phase ", IntToString(p), " Step " + IntToString(s) + " implementation",
                   IntToString(p'), " Step " + IntToString(s') + " implementation", ' ');
    IntToStringInjective(p, p');
    IntToStringLacks(s, ' ');
    IntToStringLacks(s', ' ');
    CutAfterPrefix(" Step ", IntToString(s), " implementation", IntToString(s'), " implementation", ' ');
    IntToStringInjective(s, s');
  }

  // ---------------------------------------------------------------------------
  // Validator

  /** The validator's verdict and the commands it issued, in order. */
  datatype Validation = Validation(ok: bool, commands: seq<Command>)

  /** Steps 1.1 and 1.2 (and any step numbered at most 2 in phase 1) get the structural checks. */
  predicate IsFoundationStep(phase: int, step: int) {
    phase == 1 && step <= 2
  }

  /** The validator: structural checks for the foundation steps, a build probe and `git status` otherwise. */
  function Validate(phase: int, step: int, w: World): Validation
  {
    if IsFoundationStep(phase, step) then
      if !w.files.summitDir then Validation(false, [])
      else if !w.files.gitDir then Validation(false, [])
      else if !w.answer(WorkspaceStatus).success then Validation(false, [WorkspaceStatus])
      else if step == 2 && !w.files.appFile then Validation(false, [WorkspaceStatus])
      else if step == 2 && !w.files.contentFile then Validation(false, [WorkspaceStatus])
      else Validation(true, [WorkspaceStatus])
    else
      var built := if w.files.xcodeProject then [BuildProbe] else [];
      if w.files.xcodeProject && !w.answer(BuildProbe).success then Validation(false, built)
      else Validation(w.answer(WorkspaceStatus).success, built + [WorkspaceStatus])
  }

  /**
    Foundation steps: a missing SummitAI directory or `.git` fails before any
    command runs; otherwise the workspace `git status` is the only command, and
    the step passes when it succeeds and, for step 2, both Swift sources exist.
   */
  lemma FoundationValidation(phase: int, step: int, w: World)
    requires IsFoundationStep(phase, step)
    ensures var v := Validate(phase, step, w);
            && (!(w.files.summitDir && w.files.gitDir) ==> !v.ok && v.commands == [])
            && (w.files.summitDir && w.files.gitDir ==> v.commands == [WorkspaceStatus])
            && (v.ok <==> w.files.summitDir && w.files.gitDir && w.answer(WorkspaceStatus).success &&
                          (step == 2 ==> w.files.appFile && w.files.contentFile))
  {
  }

  /**
    Later steps: the build probe runs exactly when the Xcode project exists,
    and the step passes when the probe (if run) and `git status` both succeed.
   */
  lemma LaterStepValidation(phase: int, step: int, w: World)
    requires !IsFoundationStep(phase, step)
    ensures var v := Validate(phase, step, w);
            && (BuildProbe in v.commands <==> w.files.xcodeProject)
            && (v.ok <==> (w.files.xcodeProject ==> w.answer(BuildProbe).success) &&
                          w.answer(WorkspaceStatus).success)
  {
  }

  /** Whatever the step, a pass ends with a successful workspace `git status`. */
  lemma PassEndsWithWorkspaceStatus(phase: int, step: int, w: World)
    ensures var v := Validate(phase, step, w);
            v.ok ==> |v.commands| > 0 && v.commands[|v.commands| - 1] == WorkspaceStatus &&
                     w.answer(WorkspaceStatus).success
  {
  }

  // ---------------------------------------------------------------------------
  // Recovery policy

  /** The recovery policy's report (always `true`) and the cleanup commands it issued. */
  datatype Recovery = Recovery(reported: bool, commands: seq<Command>)

  /** The cleanup run after a failed attempt that is not the last. */
  function Recover(attempt: int, files: FileSystem): Recovery
  {
    var reset := if attempt > 1 && files.summitDir then [ResetHard] else [];
    var clean := if files.xcodeProject then [CleanProject] else [];
    Recovery(true, [ClearDerivedData] + reset + clean)
  }

  /**
    The recovery policy always reports success; it clears the derived data
    first, resets the workspace only from the second attempt on and only when
    the SummitAI directory exists, and cleans the project only when the Xcode
    project exists; it issues nothing else.
   */
  lemma RecoveryCommands(attempt: int, files: FileSystem)
    ensures var r := Recover(attempt, files);
            && r.reported
            && |r.commands| >= 1 && r.commands[0] == ClearDerivedData
            && (ResetHard in r.commands <==> attempt > 1 && files.summitDir)
            && (CleanProject in r.commands <==> files.xcodeProject)
            && (forall i | 0 <= i < |r.commands| :: r.commands[i] in {ClearDerivedData, ResetHard, CleanProject})
            && |r.commands| == 1 + (if attempt > 1 && files.summitDir then 1 else 0) + (if files.xcodeProject then 1 else 0)
  {
  }

  // ---------------------------------------------------------------------------
  // Health check

  const NotARepository := "not a git repository"

  /** The health verdict and the probes issued; disk and memory probes never change the verdict. */
  datatype HealthReport = HealthReport(ok: bool, commands: seq<Command>)

  /** The health check of `_health_check`: the root `git status` first, then the disk and memory probes. */
  function HealthCheck(w: World): HealthReport {
    var status := w.answer(RootStatus);
    if !status.success && !Contains(status.stderr, NotARepository) then HealthReport(false, [RootStatus])
    else HealthReport(true, [RootStatus, DiskUsage, MemoryUsage])
  }

  /**
    The system is healthy exactly when the root `git status` succeeds or its
    error output says the directory is not a repository; only a healthy check
    goes on to the disk and memory probes, whose answers never change the verdict.
   */
  lemma HealthVerdict(w: World)
    ensures var h := HealthCheck(w);
            && (h.ok <==> w.answer(RootStatus).success ||
                          exists i :: OccursAt(w.answer(RootStatus).stderr, NotARepository, i))
            && (h.ok ==> h.commands == [RootStatus, DiskUsage, MemoryUsage])
            && (!h.ok ==> h.commands == [RootStatus])
  {
    ContainsIffOccurs(w.answer(RootStatus).stderr, NotARepository);
  }

  // ---------------------------------------------------------------------------
  // Commit message

  /** The first line of a commit message: `[Cursor] Phase <p>.<s>: <description>`. */
  function CommitTitle(phase: int, step: int, description: string): string {
    "[Cursor] Phase " + IntToString(phase) + "." + IntToString(step) + ": " + description + "\n"
  }

  /** Everything above the file list. */
  function CommitHeader(phase: int, step: int, description: string): string {
    CommitTitle(phase, step, description) + CommitBody(description)
  }

  /** The fixed narrative between the title and the file list. */
  function CommitBody(description: string): string {
    "\n"
    + "Changes made:\n"
    + "- " + description + "\n"
    + "\n"
    + "Testing:\n"
    + "- Build validation passed\n"
    + "- Git repository health verified\n"
    + "- All files created/modified successfully\n"
    + "\n"
    + "Files created/modified:\n"
  }

  /** Everything below the file list; the timestamp closes the message. */
  function CommitFooter(timestamp: string): string {
    RiskAndRollback + (timestamp + "\n")
  }

  const RiskAndRollback: string :=
    "\n"
    + "\n"
    + "Risk assessment: Low risk - incremental development step\n"
    + "Rollback plan: git reset --hard HEAD~1\n"
    + "Validation: Step completion validated successfully at "

  function Bullet(file: string): string {
    "- " + file
  }

  function Bullets(files: seq<string>): (lines: seq<string>)
    ensures |lines| == |files|
    ensures forall i | 0 <= i < |files| :: lines[i] == Bullet(files[i])
  {
    seq(|files|, i requires 0 <= i < |files| => Bullet(files[i]))
  }

  /** The file list of a commit message: one `- <file>` line per changed file. */
  function FileList(files: seq<string>): string {
    Join(Bullets(files), '\n')
  }

  /** Reads the changed files back out of a file list. */
  function ParseFileList(text: string): seq<string> {
    if text == "" then []
    else
      var lines := Split(text, '\n');
      seq(|lines|, i requires 0 <= i < |lines| => if StartsWith(lines[i], "- ") then lines[i][2..] else lines[i])
  }

  /** The message of the commit recorded for a step, stamped with `timestamp`. */
  function CommitMessage(phase: int, step: int, description: string, files: seq<string>, timestamp: string): string {
    CommitHeader(phase, step, description) + FileList(files) + CommitFooter(timestamp)
  }

  /**
    A commit message opens with its title line, carries the file list between
    the fixed header and the fixed footer, and ends with the timestamp and a
    line break.
   */
  lemma CommitMessageLayout(phase: int, step: int, description: string, files: seq<string>, timestamp: string)
    ensures var m := CommitMessage(phase, step, description, files, timestamp);
            && StartsWith(m, CommitTitle(phase, step, description))
            && |m| == |CommitHeader(phase, step, description)| + |FileList(files)| + |CommitFooter(timestamp)|
            && m[|CommitHeader(phase, step, description)|..|m| - |CommitFooter(timestamp)|] == FileList(files)
            && m[|m| - |timestamp| - 1..] == timestamp + "\n"
  {
    Layout(CommitTitle(phase, step, description), CommitBody(description), FileList(files), RiskAndRollback, timestamp);
  }

  /** Where title, file list and timestamp sit in `title + body + list + fixed + timestamp + "\n"`. */
  lemma Layout(title: string, body: string, list: string, fixed: string, timestamp: string)
    ensures var m := (title + body) + list + (fixed + (timestamp + "\n"));
            && StartsWith(m, title)
            && m[|title + body|..|m| - |fixed + (timestamp + "\n")|] == list
            && m[|m| - |timestamp| - 1..] == timestamp + "\n"
  {
    var m := (title + body) + list + (fixed + (timestamp + "\n"));
    assert m[..|title|] == title;
    assert m[|m| - |timestamp| - 1..] == timestamp + "\n";
  }

  /**
    The file list written into a commit message gives back exactly the files
    the step reported, in order, when no file name contains a line break.
   */
  lemma FileListRoundTrip(files: seq<string>)
    requires forall i | 0 <= i < |files| :: '\n' !in files[i]
    ensures ParseFileList(FileList(files)) == files
  {
    var lines := Bullets(files);
    if |files| > 0 {
      forall i | 0 <= i < |lines| ensures '\n' !in lines[i] {
        assert lines[i] == ['-', ' '] + files[i];
      }
      SplitJoin(lines, '\n');
      assert Join(lines, '\n') != "" by {
        JoinNonEmpty(lines, '\n');
      }
      forall i | 0 <= i < |files| ensures StartsWith(lines[i], "- ") && lines[i][2..] == files[i] {
        assert lines[i] == "- " + files[i];
      }
    }
  }

  lemma JoinNonEmpty(parts: seq<string>, sep: char)
    requires |parts| >= 1 && |parts[0]| >= 1
    ensures |Join(parts, sep)| >= 1
  {
  }

  /** What the audit recorder did: the message it wrote and whether the commit command succeeded. */
  datatype CommitRecord = CommitRecord(message: string, ok: bool)

  /** The audit record of a step: its message is written and committed with one `CommitAll` command. */
  function Commit(phase: int, step: int, description: string, files: seq<string>, w: World, timestamp: string): CommitRecord {
    CommitRecord(CommitMessage(phase, step, description, files, timestamp), w.answer(CommitAll).success)
  }

  /**
    The audit record names the step and its description in its title line,
    lists exactly the files the step reported between the fixed header and
    footer, closes with the timestamp, and counts as committed exactly when
    the `CommitAll` command succeeded.
   */
  lemma CommitRecordsStep(phase: int, step: int, description: string, files: seq<string>, w: World, timestamp: string)
    requires forall i | 0 <= i < |files| :: '\n' !in files[i]
    ensures var record := Commit(phase, step, description, files, w, timestamp);
            var m := record.message;
            && StartsWith(m, CommitTitle(phase, step, description))
            && |CommitHeader(phase, step, description)| <= |m| - |CommitFooter(timestamp)|
            && ParseFileList(m[|CommitHeader(phase, step, description)|..|m| - |CommitFooter(timestamp)|]) == files
            && m[|m| - |timestamp| - 1..] == timestamp + "\n"
            && (record.ok <==> w.answer(CommitAll).success)
  {
    CommitMessageLayout(phase, step, description, files, timestamp);
    FileListRoundTrip(files);
  }
}
