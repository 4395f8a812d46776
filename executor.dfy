/**
  The executor object: its counters, run flag, description tables and the
  progress file it writes, with the methods that load and save progress and
  `execute_all_phases`, proved to do exactly what module RunController
  specifies.
 */
module Executor {
  import opened Text
  import opened Collaborators
  import opened Policies
  import opened StepMachine
  import opened ProgressStore
  import opened RunController

  /** `EXECUTION_CONTEXT["total_steps"]`: the target the executor is built with. */
  const TargetSteps: int := 400

  /** The progress file after the saves among `events`, starting from `file`. */
  function LatestFile(file: Option<ProgressDoc>, st: Settings, events: seq<RunEvent>): Option<ProgressDoc>
    decreases |events|
  {
    if events == [] then file
    else LatestFile(if events[0].Saved? then Some(SavedDoc(st, events[0])) else file, st, events[1..])
  }

  lemma {:induction false} LatestFileAppend(file: Option<ProgressDoc>, st: Settings, a: seq<RunEvent>, b: seq<RunEvent>)
    ensures LatestFile(file, st, a + b) == LatestFile(LatestFile(file, st, a), st, b)
    decreases |a|
  {
    if a != [] {
      assert (a + b)[0] == a[0];
      assert (a + b)[1..] == a[1..] + b;
      LatestFileAppend(if a[0].Saved? then Some(SavedDoc(st, a[0])) else file, st, a[1..], b);
    } else {
      assert a + b == b;
    }
  }

  /** Events that save nothing leave the file as it was. */
  lemma {:induction false} LatestFileWithoutSaves(file: Option<ProgressDoc>, st: Settings, events: seq<RunEvent>)
    requires forall i | 0 <= i < |events| :: !events[i].Saved?
    ensures LatestFile(file, st, events) == file
    decreases |events|
  {
    if events != [] {
      LatestFileWithoutSaves(file, st, events[1..]);
    }
  }

  /** After a log that ends with a save, the file holds exactly that save's snapshot. */
  lemma LatestFileEndsWithSave(file: Option<ProgressDoc>, st: Settings, events: seq<RunEvent>)
    requires |events| > 0 && events[|events| - 1].Saved?
    ensures LatestFile(file, st, events) == Some(SavedDoc(st, events[|events| - 1]))
  {
    var last := events[|events| - 1];
    assert events == events[..|events| - 1] + [last];
    LatestFileAppend(file, st, events[..|events| - 1], [last]);
    assert [last][1..] == [];
  }

  lemma ThenThen(a: seq<RunEvent>, b: seq<RunEvent>, o: Outcome)
    ensures Then(a, Then(b, o)) == Then(a + b, o)
  {
    AppendAssoc(a, b, o.events);
  }

  class AutonomousExecutor {
    var running: bool
    var currentPhase: int
    var currentStep: int
    var completedSteps: int
    var totalSteps: int
    var phaseDescriptions: PhaseTable
    /** The step-description table `_get_step_description` consults. */
    const stepDescriptions: map<(int, int), string>
    /** The contents of `progress.json`, if it exists. */
    var progressFile: Option<ProgressDoc>

    /** The counters. */
    function Progress(): Counters
      reads this
    {
      Counters(currentPhase, currentStep, completedSteps)
    }

    /** Everything else a snapshot records. */
    function Setup(): Settings
      reads this
    {
      Settings(running, totalSteps, stepDescriptions, phaseDescriptions)
    }

    /** A fresh executor: running, at phase 1, step 1, nothing completed, aiming at 400 steps. */
    constructor(steps: map<(int, int), string>, phases: PhaseTable, file: Option<ProgressDoc>)
      ensures running && Progress() == InitialCounters && totalSteps == TargetSteps
      ensures stepDescriptions == steps && phaseDescriptions == phases && progressFile == file
    {
      running := true;
      currentPhase := 1;
      currentStep := 1;
      totalSteps := TargetSteps;
      completedSteps := 0;
      phaseDescriptions := phases;
      stepDescriptions := steps;
      progressFile := file;
    }

    /** `_save_progress`: overwrite the progress file with a snapshot of the current state. */
    method SaveProgress(timestamp: string)
      modifies this
      ensures progressFile == Some(Snapshot(Progress(), Setup(), timestamp))
      ensures Progress() == old(Progress()) && Setup() == old(Setup())
    {
      progressFile := Some(Snapshot(Progress(), Setup(), timestamp));
    }

    /**
      `_load_progress`: when the file exists, take the phase table from it if
      it has one, and the three counters, each defaulting as `Restore` says.
      Returns the file's contents, if any.
     */
    method LoadProgress() returns (data: Option<ProgressDoc>)
      modifies this
      ensures data == progressFile == old(progressFile)
      ensures Loaded(Progress(), phaseDescriptions) == Load(old(progressFile), old(Progress()), old(phaseDescriptions))
      ensures running == old(running) && totalSteps == old(totalSteps)
    {
      data := progressFile;
      if progressFile.Some? {
        var doc := progressFile.value;
        if doc.phases.Some? {
          phaseDescriptions := TextKeyed(doc.phases.value);
        }
        currentPhase := IntOr(doc, CurrentPhase, 1);
        currentStep := IntOr(doc, CurrentStep, 1);
        completedSteps := IntOr(doc, CompletedSteps, 0);
      }
    }

    /**
      `execute_all_phases`: load the progress file, run the initial health
      check, walk the phases and steps from the restored position, then the
      final validation and the final save. Its verdict, its counters, what it
      did and the progress file it leaves are those of `RunAll` on the loaded
      state.
     */
    method ExecuteAllPhases(env: Env) returns (ok: bool, ghost events: seq<RunEvent>)
      modifies this
      ensures var l := Load(old(progressFile), old(Progress()), old(phaseDescriptions));
              var st := Settings(old(running), old(totalSteps), stepDescriptions, l.phases);
              var o := RunAll(ResponsesOf(env), st, l.counters);
              && ok == o.ok && events == o.events && Progress() == o.counters
              && Setup() == st && progressFile == LatestFile(old(progressFile), st, o.events)
    {
      var _ := LoadProgress();
      ghost var st := Setup();
      ghost var file0 := progressFile;
      var h := HealthCheck(env.world(InitialHealth));
      events := [HealthChecked(InitialHealth, h)];
      LatestFileWithoutSaves(file0, st, events);
      if !h.ok {
        return false, events;
      }
      var loopOk, loopEvents := RunPhases(env);
      LatestFileAppend(file0, st, events, loopEvents);
      events := events + loopEvents;
      if !loopOk {
        return false, events;
      }
      var v := Validate(Phases, StepsPerPhase, env.world(FinalValidation));
      if !v.ok {
        LatestFileWithoutSaves(progressFile, st, [FinalValidated(v)]);
        LatestFileAppend(file0, st, events, [FinalValidated(v)]);
        return false, events + [FinalValidated(v)];
      }
      var stamp := env.clock(FinalSave);
      SaveProgress(stamp);
      ghost var tail := [FinalValidated(v), Saved(Final, Progress(), stamp)];
      LatestFileEndsWithSave(LatestFile(file0, st, events), st, tail);
      LatestFileAppend(file0, st, events, tail);
      return true, events + tail;
    }

    /**
      The outer loop of `execute_all_phases`: phases from the current one to
      20, each followed by resetting the step counter to 1.
     */
    method RunPhases(env: Env) returns (ok: bool, ghost events: seq<RunEvent>)
      modifies this
      ensures var o := PhasesFrom(ResponsesOf(env), old(Setup()), old(currentPhase), old(Progress()));
              ok == o.ok && events == o.events && Progress() == o.counters
      ensures Setup() == old(Setup())
      ensures progressFile == LatestFile(old(progressFile), old(Setup()), events)
    {
      ghost var r := ResponsesOf(env);
      ghost var st := Setup();
      ghost var file0 := progressFile;
      ghost var whole := PhasesFrom(r, st, currentPhase, Progress());
      var phase := currentPhase;
      events := [];
      assert whole == Then(events, PhasesFrom(r, st, phase, Progress()));
      while phase <= Phases
        invariant Setup() == st
        invariant whole == Then(events, PhasesFrom(r, st, phase, Progress()))
        invariant progressFile == LatestFile(file0, st, events)
        decreases Phases + 1 - phase
      {
        ghost var before := Progress();
        var phaseOk, phaseEvents := RunPhase(env, phase);
        LatestFileAppend(file0, st, events, phaseEvents);
        PhaseThen(r, st, phase, before, events, whole);
        events := events + phaseEvents;
        if !phaseOk {
          return false, events;
        }
        currentStep := 1;
        phase := phase + 1;
      }
      assert events + [] == events;
      return true, events;
    }

    /**
      The inner loop of `execute_all_phases` for `phase`: its steps from the
      current step (when `phase` is the current phase) or from 1, to 20.
     */
    method RunPhase(env: Env, phase: int) returns (ok: bool, ghost events: seq<RunEvent>)
      modifies this
      ensures var o := StepsFrom(ResponsesOf(env), old(Setup()), phase, FirstStep(phase, old(Progress())), old(Progress()));
              ok == o.ok && events == o.events && Progress() == o.counters
      ensures Setup() == old(Setup())
      ensures progressFile == LatestFile(old(progressFile), old(Setup()), events)
    {
      ghost var r := ResponsesOf(env);
      ghost var st := Setup();
      ghost var file0 := progressFile;
      var step := if phase == currentPhase then currentStep else 1;
      ghost var whole := StepsFrom(r, st, phase, step, Progress());
      ghost var log: seq<RunEvent> := [];
      assert whole == Then(log, StepsFrom(r, st, phase, step, Progress()));
      while step <= StepsPerPhase
        invariant Setup() == st
        invariant whole == Then(log, StepsFrom(r, st, phase, step, Progress()))
        invariant progressFile == LatestFile(file0, st, log)
        decreases StepsPerPhase + 1 - step
      {
        ghost var before := Progress();
        var more, turn := RunTurn(env, phase, step);
        LatestFileAppend(file0, st, log, turn);
        TurnThen(r, st, phase, step, before, log, whole);
        log := log + turn;
        if !more {
          return false, log;
        }
        step := step + 1;
      }
      assert log + [] == log;
      return true, log;
    }

    /**
      One pass of the inner loop's body for step (phase, step): the stop-flag
      check, the step with recovery (or an exception escaping it, which saves
      progress and ends the run), the counter update, the save every 10
      completions and the health check every 50. `more` says whether the
      loop goes on.
     */
    method RunTurn(env: Env, phase: int, step: int) returns (more: bool, ghost turn: seq<RunEvent>)
      modifies this
      ensures var t := StepTurn(ResponsesOf(env), old(Setup()), phase, step, old(Progress()));
              more == t.Continue? && turn == t.events && Progress() == t.counters
      ensures Setup() == old(Setup())
      ensures progressFile == LatestFile(old(progressFile), old(Setup()), turn)
    {
      ghost var st := Setup();
      if !running {
        return false, [];
      }
      if env.raises(phase, step) {
        var stamp := env.clock(ExceptionSave(phase, step));
        SaveProgress(stamp);
        turn := [Raised(phase, step), Saved(OnException, Progress(), stamp)];
        LatestFileEndsWithSave(old(progressFile), st, turn);
        return false, turn;
      }
      var stepOk, stepEvents := ExecuteStepWithRecovery(env, phase, step);
      if !stepOk {
        turn := [Ran(phase, step, StepRun(stepOk, stepEvents), Progress())];
        LatestFileWithoutSaves(old(progressFile), st, turn);
        return false, turn;
      }
      more, turn := RecordSuccess(env, phase, step, StepRun(stepOk, stepEvents));
    }

    /**
      The rest of the inner loop's body once step (phase, step) succeeded:
      the counter update, the save every 10 completions and the health check
      every 50.
     */
    method RecordSuccess(env: Env, phase: int, step: int, ghost run: StepRun) returns (more: bool, ghost turn: seq<RunEvent>)
      modifies this
      ensures var t := AfterSuccess(ResponsesOf(env), phase, step, old(Progress()), run);
              more == t.Continue? && turn == t.events && Progress() == t.counters
      ensures Setup() == old(Setup())
      ensures progressFile == LatestFile(old(progressFile), old(Setup()), turn)
    {
      ghost var st := Setup();
      completedSteps := completedSteps + 1;
      currentPhase := phase;
      currentStep := step + 1;
      turn := [Ran(phase, step, run, Progress())];
      LatestFileWithoutSaves(old(progressFile), st, turn);
      if completedSteps % 10 == 0 {
        var stamp := env.clock(CadenceSave(completedSteps));
        SaveProgress(stamp);
        turn := turn + [Saved(Cadence, Progress(), stamp)];
        LatestFileEndsWithSave(old(progressFile), st, turn);
      }
      if completedSteps % 50 == 0 {
        var h := HealthCheck(env.world(PeriodicHealth(completedSteps)));
        ghost var checked := [HealthChecked(PeriodicHealth(completedSteps), h)];
        LatestFileAppend(old(progressFile), st, turn, checked);
        LatestFileWithoutSaves(progressFile, st, checked);
        turn := turn + checked;
        if !h.ok {
          return false, turn;
        }
      }
      return true, turn;
    }
  }

  /**
    After a successful fresh run the progress file holds the final snapshot
    of phase 20, step 1 and 400 completions, taken while the run flag is
    still set, so that its status reads "running".
   */
  lemma FreshRunLeavesFinalSnapshot(r: Responses, st: Settings, c: Counters, file: Option<ProgressDoc>)
    requires c == InitialCounters && RunAll(r, st, c).ok
    ensures st.running
    ensures LatestFile(file, st, RunAll(r, st, c).events)
            == Some(Snapshot(Counters(Phases, 1, Phases * StepsPerPhase), st, r.clock(FinalSave)))
  {
    FreshRun(r, st, c);
    EndsWithFinalSave(r, st, c);
    LatestFileEndsWithSave(file, st, RunAll(r, st, c).events);
  }

  /** One turn of the inner loop, seen from the whole inner loop. */
  lemma TurnThen(r: Responses, st: Settings, phase: int, step: int, c: Counters, events: seq<RunEvent>, whole: Outcome)
    requires step <= StepsPerPhase
    requires whole == Then(events, StepsFrom(r, st, phase, step, c))
    ensures var t := StepTurn(r, st, phase, step, c);
            && (t.Stop? ==> whole == Outcome(false, t.counters, events + t.events))
            && (t.Continue? ==> whole == Then(events + t.events, StepsFrom(r, st, phase, step + 1, t.counters)))
  {
    var t := StepTurn(r, st, phase, step, c);
    if t.Continue? {
      ThenThen(events, t.events, StepsFrom(r, st, phase, step + 1, t.counters));
    }
  }

  /** One phase of the outer loop, seen from the whole outer loop. */
  lemma PhaseThen(r: Responses, st: Settings, phase: int, c: Counters, events: seq<RunEvent>, whole: Outcome)
    requires phase <= Phases
    requires whole == Then(events, PhasesFrom(r, st, phase, c))
    ensures var steps := StepsFrom(r, st, phase, FirstStep(phase, c), c);
            && (!steps.ok ==> whole == Outcome(false, steps.counters, events + steps.events))
            && (steps.ok ==> whole == Then(events + steps.events, PhasesFrom(r, st, phase + 1, steps.counters.(step := 1))))
  {
    var steps := StepsFrom(r, st, phase, FirstStep(phase, c), c);
    if steps.ok {
      ThenThen(events, steps.events, PhasesFrom(r, st, phase + 1, steps.counters.(step := 1)));
    }
  }
}
