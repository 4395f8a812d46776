/**
  The executor's collaborators, reduced to the answers it receives from them.
  Nothing here runs a process or touches a disk: a command's outcome, the
  existence of a file and the result of a step's action are all read from an
  `Env` value, indexed by the moment at which the executor asks.
 */
module Collaborators {
  /** The external commands the core issues. */
  datatype Command =
    | WorkspaceStatus  // `git status` inside the SummitAI directory
    | BuildProbe       // `xcodebuild ... clean build` for the iPhone simulator
    | ClearDerivedData // `rm -rf` of the DerivedData caches
    | ResetHard        // `git reset --hard HEAD` inside the SummitAI directory
    | CleanProject     // `xcodebuild clean`
    | CommitAll        // `git add . && git commit -F commit_message.txt && rm commit_message.txt`
    | RootStatus       // `git status` in the project root (health check)
    | DiskUsage        // `df -h . | tail -1`
    | MemoryUsage      // `ps -o rss= -p $$`

  /** What the command runner reports: exit status zero, captured stdout, captured stderr. */
  datatype CommandResult = CommandResult(success: bool, stdout: string, stderr: string)

  /** Which of the paths the validator and the recovery policy look at exist. */
  datatype FileSystem = FileSystem(
    summitDir: bool,     // <root>/SummitAI
    gitDir: bool,        // <root>/SummitAI/.git
    appFile: bool,       // <root>/SummitAI/SummitAI/SummitAIApp.swift
    contentFile: bool,   // <root>/SummitAI/SummitAI/ContentView.swift
    xcodeProject: bool)  // <root>/SummitAI/SummitAI.xcodeproj

  /** The state of the workspace at one moment: its files and how each command would end. */
  datatype World = World(files: FileSystem, answer: Command -> CommandResult)

  /** The moments at which the core consults the world or the clock. */
  datatype Moment =
    | Validating(phase: int, step: int, attempt: int)
    | Recovering(phase: int, step: int, attempt: int)
    | Committing(phase: int, step: int, attempt: int)
    | InitialHealth
    | PeriodicHealth(completed: int)
    | CadenceSave(completed: int)
    | ExceptionSave(phase: int, step: int)
    | FinalValidation
    | FinalSave

  /** What a step action returns: success, a message, the changed files in order. */
  datatype StepOutcome = StepOutcome(success: bool, message: string, files: seq<string>)

  /**
    The oracles: the outcome of the two implemented step actions on a given
    attempt, the world at each moment, the ISO timestamp at each moment, and
    whether an exception escapes while a step is being executed.
   */
  datatype Env = Env(
    action: (int, int, int) -> StepOutcome,
    world: Moment -> World,
    clock: Moment -> string,
    raises: (int, int) -> bool)
}
