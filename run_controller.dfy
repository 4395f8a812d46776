/**
  The run controller of `execute_all_phases`, as specification functions: an
  initial health check, the walk over phases and steps from the restored
  position to (20, 20) with its counter updates, checkpoint and health-check
  cadence, the exception path, the final validation and the final save.
  The class method in module Executor is proved to do exactly this.
 */
module RunController {
  import opened Text
  import opened Collaborators
  import opened Policies
  import opened StepMachine
  import opened ProgressStore

  const Phases: int := 20
  const StepsPerPhase: int := 20

  /** Why a snapshot was written. */
  datatype SaveReason = Cadence | OnException | Final

  /**
    What the controller did, in order. A `Ran` event carries the counters
    the turn leaves: advanced after a success, unchanged after a failure.
   */
  datatype RunEvent =
    | Ran(phase: int, step: int, run: StepRun, after: Counters)
    | Saved(reason: SaveReason, counters: Counters, timestamp: string)
    | HealthChecked(moment: Moment, report: HealthReport)
    | Raised(phase: int, step: int)
    | FinalValidated(validation: Validation)

  /** The verdict of (part of) a run, the counters it leaves, and what it did. */
  datatype Outcome = Outcome(ok: bool, counters: Counters, events: seq<RunEvent>)

  /** `prefix` happened first, then `o`. */
  function Then(prefix: seq<RunEvent>, o: Outcome): Outcome {
    Outcome(o.ok, o.counters, prefix + o.events)
  }

  /** One pass of the inner loop's body: it either ends the run or moves on to the next step. */
  datatype Turn = Stop(counters: Counters, events: seq<RunEvent>) | Continue(counters: Counters, events: seq<RunEvent>)

  /**
    What the controller learns from the code it calls: whether an exception
    escapes step (phase, step), the verdict and history of the step with
    recovery, the health report at a moment, the clock, and the final
    validation.
   */
  datatype Responses = Responses(
    raises: (int, int) -> bool,
    run: (int, int) -> StepRun,
    health: Moment -> HealthReport,
    clock: Moment -> string,
    finalCheck: Validation)

  /** The responses of the collaborators in `env`, as modules StepMachine and Policies compute them. */
  function ResponsesOf(env: Env): Responses {
    Responses(
      env.raises,
      (phase, step) => RunStep(env, phase, step),
      moment => HealthCheck(env.world(moment)),
      env.clock,
      Validate(Phases, StepsPerPhase, env.world(FinalValidation)))
  }

  /** The snapshot saved at `moment` with counters `c`. */
  function SaveAt(r: Responses, reason: SaveReason, c: Counters, moment: Moment): RunEvent {
    Saved(reason, c, r.clock(moment))
  }

  /** The progress file a `Saved` event wrote. */
  function SavedDoc(st: Settings, e: RunEvent): ProgressDoc
    requires e.Saved?
  {
    Snapshot(e.counters, st, e.timestamp)
  }

  /**
    The body of the inner loop for step (phase, step), entered with counters
    `c`: the stop-flag check, the step with recovery (or an exception that
    escapes it, which saves and ends the run), the counter update, the save
    every 10 completions and the health check every 50.
   */
  function StepTurn(r: Responses, st: Settings, phase: int, step: int, c: Counters): Turn {
    if !st.running then Stop(c, [])
    else if r.raises(phase, step) then
      Stop(c, [Raised(phase, step), SaveAt(r, OnException, c, ExceptionSave(phase, step))])
    else
      var run := r.run(phase, step);
      if !run.ok then Stop(c, [Ran(phase, step, run, c)])
      else AfterSuccess(r, phase, step, c, run)
  }

  /** The rest of the turn after step (phase, step) succeeded with `run`: counters, checkpoint, health check. */
  function AfterSuccess(r: Responses, phase: int, step: int, c: Counters, run: StepRun): Turn {
    var next := Counters(phase, step + 1, c.completed + 1);
    var saves := if next.completed % 10 == 0 then [SaveAt(r, Cadence, next, CadenceSave(next.completed))] else [];
    if next.completed % 50 == 0 then
      var h := r.health(PeriodicHealth(next.completed));
      var events := [Ran(phase, step, run, next)] + saves + [HealthChecked(PeriodicHealth(next.completed), h)];
      if h.ok then Continue(next, events) else Stop(next, events)
    else Continue(next, [Ran(phase, step, run, next)] + saves)
  }

  /** The inner loop over steps `step .. 20` of `phase`. */
  function StepsFrom(r: Responses, st: Settings, phase: int, step: int, c: Counters): Outcome
    decreases StepsPerPhase + 1 - step
  {
    if step > StepsPerPhase then Outcome(true, c, [])
    else
      match StepTurn(r, st, phase, step, c)
      case Stop(c', events) => Outcome(false, c', events)
      case Continue(c', events) => Then(events, StepsFrom(r, st, phase, step + 1, c'))
  }

  /** The step the inner loop of `phase` starts from: the restored step in the restored phase, else 1. */
  function FirstStep(phase: int, c: Counters): int {
    if phase == c.phase then c.step else 1
  }

  /** The outer loop over phases `phase .. 20`; after each phase the step counter is reset to 1. */
  function PhasesFrom(r: Responses, st: Settings, phase: int, c: Counters): Outcome
    decreases Phases + 1 - phase
  {
    if phase > Phases then Outcome(true, c, [])
    else
      var steps := StepsFrom(r, st, phase, FirstStep(phase, c), c);
      if !steps.ok then steps
      else Then(steps.events, PhasesFrom(r, st, phase + 1, steps.counters.(step := 1)))
  }

  /** The whole of `execute_all_phases` after the progress file has been loaded into `c`. */
  function RunAll(r: Responses, st: Settings, c: Counters): Outcome {
    var h := r.health(InitialHealth);
    if !h.ok then Outcome(false, c, [HealthChecked(InitialHealth, h)])
    else Finish(r, Then([HealthChecked(InitialHealth, h)], PhasesFrom(r, st, c.phase, c)))
  }

  /** What follows the loop: a loop that finished is followed by the final validation and, if it passes, the final save. */
  function Finish(r: Responses, loop: Outcome): Outcome {
    if !loop.ok then loop
    else
      var v := r.finalCheck;
      if !v.ok then Outcome(false, loop.counters, loop.events + [FinalValidated(v)])
      else
        Outcome(true, loop.counters,
                loop.events + [FinalValidated(v), SaveAt(r, Final, loop.counters, FinalSave)])
  }

  // ---------------------------------------------------------------------------
  // Views of the event log

  /** The events of `events` seen through `f`, concatenated. */
  function Collect<T>(events: seq<RunEvent>, f: RunEvent -> seq<T>): seq<T>
    decreases |events|
  {
    if events == [] then [] else f(events[0]) + Collect(events[1..], f)
  }

  lemma {:induction false} CollectAppend<T>(a: seq<RunEvent>, b: seq<RunEvent>, f: RunEvent -> seq<T>)
    ensures Collect(a + b, f) == Collect(a, f) + Collect(b, f)
    decreases |a|
  {
    if a == [] {
      assert a + b == b;
    } else {
      assert (a + b)[0] == a[0];
      assert (a + b)[1..] == a[1..] + b;
      CollectAppend(a[1..], b, f);
      AppendAssoc(f(a[0]), Collect(a[1..], f), Collect(b, f));
    }
  }

  lemma CollectShort<T>(e: RunEvent, e': RunEvent, e'': RunEvent, f: RunEvent -> seq<T>)
    ensures Collect([], f) == []
    ensures Collect([e], f) == f(e)
    ensures Collect([e, e'], f) == f(e) + f(e')
    ensures Collect([e, e', e''], f) == f(e) + (f(e') + f(e''))
  {
    CollectOne(e, f);
    CollectOne(e', f);
    CollectOne(e'', f);
    assert [e, e'] == [e] + [e'];
    CollectAppend([e], [e'], f);
    assert [e, e', e''] == [e] + [e', e''];
    assert [e', e''] == [e'] + [e''];
    CollectAppend([e'], [e''], f);
    CollectAppend([e], [e', e''], f);
  }

  lemma CollectOne<T>(e: RunEvent, f: RunEvent -> seq<T>)
    ensures Collect([e], f) == f(e)
  {
    assert [e][1..] == [];
  }

  /** The step a `Ran` or `Raised` event is about: the steps the controller started. */
  function Started(e: RunEvent): seq<(int, int)> {
    match e
    case Ran(p, s, _, _) => [(p, s)]
    case Raised(p, s) => [(p, s)]
    case _ => []
  }

  /** One mark per step that ran and succeeded. */
  function Succeeded(e: RunEvent): seq<int> {
    if e.Ran? && e.run.ok then [e.step] else []
  }

  /** One mark per step that ran and failed. */
  function Failed(e: RunEvent): seq<int> {
    if e.Ran? && !e.run.ok then [e.step] else []
  }

  /** The completion count at which a checkpoint was saved. */
  function CadencePoint(e: RunEvent): seq<int> {
    if e.Saved? && e.reason == Cadence then [e.counters.completed] else []
  }

  /**
    The counters after an in-loop update: those a successful step leaves,
    and those a checkpoint records.
   */
  function Positions(e: RunEvent): seq<Counters> {
    if e.Ran? && e.run.ok then [e.after]
    else if e.Saved? && e.reason == Cadence then [e.counters]
    else []
  }

  /** The completion count at which a periodic health check ran. */
  function HealthPoint(e: RunEvent): seq<int> {
    if e.HealthChecked? && e.moment.PeriodicHealth? then [e.moment.completed] else []
  }

  /** A failed health check. */
  function Unhealthy(e: RunEvent): seq<int> {
    if e.HealthChecked? && !e.report.ok then [0] else []
  }

  /** The multiples of `k` in `lo + 1 .. hi`, in increasing order. */
  function Multiples(lo: int, hi: int, k: int): seq<int>
    requires k > 0
    decreases hi - lo
  {
    if lo >= hi then [] else (if (lo + 1) % k == 0 then [lo + 1] else []) + Multiples(lo + 1, hi, k)
  }

  lemma {:induction false} MultiplesSplit(lo: int, mid: int, hi: int, k: int)
    requires k > 0 && lo <= mid <= hi
    ensures Multiples(lo, mid, k) + Multiples(mid, hi, k) == Multiples(lo, hi, k)
    decreases mid - lo
  {
    if lo < mid {
      MultiplesSplit(lo + 1, mid, hi, k);
      var head := if (lo + 1) % k == 0 then [lo + 1] else [];
      AppendAssoc(head, Multiples(lo + 1, mid, k), Multiples(mid, hi, k));
    }
  }

  lemma MultiplesOne(lo: int, k: int)
    requires k > 0
    ensures Multiples(lo, lo + 1, k) == if (lo + 1) % k == 0 then [lo + 1] else []
  {
    assert Multiples(lo + 1, lo + 1, k) == [];
  }

  // ---------------------------------------------------------------------------
  // Bookkeeping: what a stretch of the run did, measured against its counters

  /**
    The event log of a stretch entered with counters `c` and left with `o`:
    each successful step added exactly one to the completion count, a save
    was written at exactly the counts divisible by 10 and a health check run
    at exactly those divisible by 50, and no step failed except possibly the
    very last event, after which nothing else happened.
   */
  predicate Accounts(c: Counters, o: Outcome) {
    && |Collect(o.events, Succeeded)| == o.counters.completed - c.completed
    && Collect(o.events, CadencePoint) == Multiples(c.completed, o.counters.completed, 10)
    && Collect(o.events, HealthPoint) == Multiples(c.completed, o.counters.completed, 50)
    && (forall i | 0 <= i < |o.events| - 1 :: Failed(o.events[i]) == [])
    && (o.ok ==> Collect(o.events, Failed) == [] && Collect(o.events, Unhealthy) == [])
  }

  /** A stretch that is not the end of the run. */
  predicate Clean(events: seq<RunEvent>) {
    Collect(events, Failed) == [] && Collect(events, Unhealthy) == []
  }

  lemma CleanHasNoFailure(events: seq<RunEvent>, i: int)
    requires Clean(events) && 0 <= i < |events|
    ensures Failed(events[i]) == []
  {
    assert events == events[..i] + [events[i]] + events[i + 1..];
    CollectAppend(events[..i] + [events[i]], events[i + 1..], Failed);
    CollectAppend(events[..i], [events[i]], Failed);
    CollectShort(events[i], events[i], events[i], Failed);
  }

  /** Accounting composes: a clean stretch followed by an accounted one. */
  lemma AccountsThen(c: Counters, c1: Counters, prefix: seq<RunEvent>, o: Outcome)
    requires c.completed <= c1.completed <= o.counters.completed
    requires Clean(prefix)
    requires |Collect(prefix, Succeeded)| == c1.completed - c.completed
    requires Collect(prefix, CadencePoint) == Multiples(c.completed, c1.completed, 10)
    requires Collect(prefix, HealthPoint) == Multiples(c.completed, c1.completed, 50)
    requires Accounts(c1, o)
    ensures Accounts(c, Then(prefix, o))
  {
    var t := Then(prefix, o);
    CollectAppend(prefix, o.events, Succeeded);
    CollectAppend(prefix, o.events, CadencePoint);
    CollectAppend(prefix, o.events, HealthPoint);
    CollectAppend(prefix, o.events, Failed);
    CollectAppend(prefix, o.events, Unhealthy);
    MultiplesSplit(c.completed, c1.completed, o.counters.completed, 10);
    MultiplesSplit(c.completed, c1.completed, o.counters.completed, 50);
    forall i | 0 <= i < |t.events| - 1
      ensures Failed(t.events[i]) == []
    {
      if i < |prefix| {
        CleanHasNoFailure(prefix, i);
      } else {
        assert t.events[i] == o.events[i - |prefix|];
      }
    }
  }

  /** What a single turn of the inner loop does to the counters and the log. */
  lemma TurnFacts(r: Responses, st: Settings, phase: int, step: int, c: Counters)
    ensures var t := StepTurn(r, st, phase, step, c);
            && (t.Continue? ==> t.counters == Counters(phase, step + 1, c.completed + 1) && Clean(t.events))
            && (t.Stop? ==> t.counters == c || t.counters == Counters(phase, step + 1, c.completed + 1))
            && Collect(t.events, Started) == (if st.running then [(phase, step)] else [])
            && Accounts(c, Outcome(t.Continue?, t.counters, t.events))
            && (forall k | k in Collect(t.events, Positions) :: k == Counters(phase, step + 1, c.completed + 1))
  {
    var t := StepTurn(r, st, phase, step, c);
    if !st.running {
      assert t == Stop(c, []);
      MultiplesSplit(c.completed, c.completed, c.completed, 10);
    } else if r.raises(phase, step) {
      var save := SaveAt(r, OnException, c, ExceptionSave(phase, step));
      assert t == Stop(c, [Raised(phase, step), save]);
      RaisedAccounts(phase, step, c, save);
    } else if !r.run(phase, step).ok {
      var ran := Ran(phase, step, r.run(phase, step), c);
      assert t == Stop(c, [ran]);
      FailedRunAccounts(c, ran);
    } else {
      TurnAfterSuccess(r, st, phase, step, c);
    }
  }

  lemma RaisedAccounts(phase: int, step: int, c: Counters, save: RunEvent)
    requires save.Saved? && save.reason == OnException
    ensures Collect([Raised(phase, step), save], Started) == [(phase, step)]
    ensures Collect([Raised(phase, step), save], Positions) == []
    ensures Accounts(c, Outcome(false, c, [Raised(phase, step), save]))
  {
    var raised := Raised(phase, step);
    CollectShort(raised, save, save, Positions);
    CollectShort(raised, save, save, Started);
    CollectShort(raised, save, save, Succeeded);
    CollectShort(raised, save, save, CadencePoint);
    CollectShort(raised, save, save, HealthPoint);
    CollectShort(raised, save, save, Failed);
  }

  lemma FailedRunAccounts(c: Counters, ran: RunEvent)
    requires ran.Ran? && !ran.run.ok
    ensures Collect([ran], Started) == [(ran.phase, ran.step)]
    ensures Collect([ran], Positions) == []
    ensures Accounts(c, Outcome(false, c, [ran]))
  {
    CollectOne(ran, Positions);
    CollectOne(ran, Started);
    CollectOne(ran, Succeeded);
    CollectOne(ran, CadencePoint);
    CollectOne(ran, HealthPoint);
  }

  lemma TurnAfterSuccess(r: Responses, st: Settings, phase: int, step: int, c: Counters)
    requires st.running && !r.raises(phase, step) && r.run(phase, step).ok
    ensures var t := StepTurn(r, st, phase, step, c);
            && t.counters == Counters(phase, step + 1, c.completed + 1)
            && (t.Continue? ==> Clean(t.events))
            && Collect(t.events, Started) == [(phase, step)]
            && Accounts(c, Outcome(t.Continue?, t.counters, t.events))
            && (forall k | k in Collect(t.events, Positions) :: k == t.counters)
  {
    var n := c.completed + 1;
    if n % 50 == 0 {
      TurnWithHealthCheck(r, st, phase, step, c);
    } else if n % 10 == 0 {
      TurnWithSave(r, st, phase, step, c);
    } else {
      TurnPlain(r, st, phase, step, c);
    }
  }

  /** The ensures of `TurnAfterSuccess`, for an explicit list of events. */
  predicate SuccessfulTurn(phase: int, step: int, c: Counters, t: Turn) {
    && t.counters == Counters(phase, step + 1, c.completed + 1)
    && (t.Continue? ==> Clean(t.events))
    && Collect(t.events, Started) == [(phase, step)]
    && Accounts(c, Outcome(t.Continue?, t.counters, t.events))
    && (forall k | k in Collect(t.events, Positions) :: k == t.counters)
  }

  lemma TurnWithHealthCheck(r: Responses, st: Settings, phase: int, step: int, c: Counters)
    requires st.running && !r.raises(phase, step) && r.run(phase, step).ok
    requires (c.completed + 1) % 50 == 0
    ensures SuccessfulTurn(phase, step, c, StepTurn(r, st, phase, step, c))
  {
    var n := c.completed + 1;
    var next := Counters(phase, step + 1, n);
    var ran := Ran(phase, step, r.run(phase, step), next);
    var save := SaveAt(r, Cadence, next, CadenceSave(n));
    var h := r.health(PeriodicHealth(n));
    var check := HealthChecked(PeriodicHealth(n), h);
    assert n % 10 == 0;
    var t := StepTurn(r, st, phase, step, c);
    if h.ok {
      assert t == Continue(next, [ran, save, check]);
    } else {
      assert t == Stop(next, [ran, save, check]);
    }
    CheckedTurnAccounts(phase, step, c, ran, save, check);
  }

  lemma TurnWithSave(r: Responses, st: Settings, phase: int, step: int, c: Counters)
    requires st.running && !r.raises(phase, step) && r.run(phase, step).ok
    requires (c.completed + 1) % 10 == 0 && (c.completed + 1) % 50 != 0
    ensures SuccessfulTurn(phase, step, c, StepTurn(r, st, phase, step, c))
  {
    var n := c.completed + 1;
    var next := Counters(phase, step + 1, n);
    var ran := Ran(phase, step, r.run(phase, step), next);
    var save := SaveAt(r, Cadence, next, CadenceSave(n));
    assert StepTurn(r, st, phase, step, c) == Continue(next, [ran, save]);
    SavedTurnAccounts(phase, step, c, ran, save);
  }

  lemma TurnPlain(r: Responses, st: Settings, phase: int, step: int, c: Counters)
    requires st.running && !r.raises(phase, step) && r.run(phase, step).ok
    requires (c.completed + 1) % 10 != 0 && (c.completed + 1) % 50 != 0
    ensures SuccessfulTurn(phase, step, c, StepTurn(r, st, phase, step, c))
  {
    var next := Counters(phase, step + 1, c.completed + 1);
    var ran := Ran(phase, step, r.run(phase, step), next);
    assert StepTurn(r, st, phase, step, c) == Continue(next, [ran]);
    PlainTurnAccounts(phase, step, c, ran);
  }

  lemma PlainTurnAccounts(phase: int, step: int, c: Counters, ran: RunEvent)
    requires ran.Ran? && ran.phase == phase && ran.step == step && ran.run.ok
    requires ran.after == Counters(phase, step + 1, c.completed + 1)
    requires (c.completed + 1) % 10 != 0 && (c.completed + 1) % 50 != 0
    ensures SuccessfulTurn(phase, step, c, Continue(Counters(phase, step + 1, c.completed + 1), [ran]))
  {
    MultiplesOne(c.completed, 10);
    MultiplesOne(c.completed, 50);
    CollectOne(ran, Started);
    CollectOne(ran, Succeeded);
    CollectOne(ran, CadencePoint);
    CollectOne(ran, HealthPoint);
    CollectOne(ran, Failed);
    CollectOne(ran, Unhealthy);
    CollectOne(ran, Positions);
  }

  lemma SavedTurnAccounts(phase: int, step: int, c: Counters, ran: RunEvent, save: RunEvent)
    requires ran.Ran? && ran.phase == phase && ran.step == step && ran.run.ok
    requires ran.after == Counters(phase, step + 1, c.completed + 1)
    requires save.Saved? && save.reason == Cadence && save.counters == Counters(phase, step + 1, c.completed + 1)
    requires (c.completed + 1) % 10 == 0 && (c.completed + 1) % 50 != 0
    ensures SuccessfulTurn(phase, step, c, Continue(Counters(phase, step + 1, c.completed + 1), [ran, save]))
  {
    MultiplesOne(c.completed, 10);
    MultiplesOne(c.completed, 50);
    CollectShort(ran, save, save, Started);
    CollectShort(ran, save, save, Succeeded);
    CollectShort(ran, save, save, CadencePoint);
    CollectShort(ran, save, save, HealthPoint);
    CollectShort(ran, save, save, Failed);
    CollectShort(ran, save, save, Unhealthy);
    CollectShort(ran, save, save, Positions);
  }

  lemma CheckedTurnAccounts(phase: int, step: int, c: Counters, ran: RunEvent, save: RunEvent, check: RunEvent)
    requires ran.Ran? && ran.phase == phase && ran.step == step && ran.run.ok
    requires ran.after == Counters(phase, step + 1, c.completed + 1)
    requires save.Saved? && save.reason == Cadence && save.counters == Counters(phase, step + 1, c.completed + 1)
    requires check.HealthChecked? && check.moment == PeriodicHealth(c.completed + 1)
    requires (c.completed + 1) % 50 == 0
    ensures var next := Counters(phase, step + 1, c.completed + 1);
            SuccessfulTurn(phase, step, c,
              if check.report.ok then Continue(next, [ran, save, check]) else Stop(next, [ran, save, check]))
  {
    assert (c.completed + 1) % 10 == 0;
    MultiplesOne(c.completed, 10);
    MultiplesOne(c.completed, 50);
    CollectShort(ran, save, check, Started);
    CollectShort(ran, save, check, Succeeded);
    CollectShort(ran, save, check, CadencePoint);
    CollectShort(ran, save, check, HealthPoint);
    CollectShort(ran, save, check, Failed);
    CollectShort(ran, save, check, Unhealthy);
    CollectShort(ran, save, check, Positions);
  }

  // ---------------------------------------------------------------------------
  // The schedule of steps

  /** Steps `step .. 20` of `phase`, in order. */
  function StepRange(phase: int, step: int): seq<(int, int)>
    decreases StepsPerPhase + 1 - step
  {
    if step > StepsPerPhase then [] else [(phase, step)] + StepRange(phase, step + 1)
  }

  /** Every step from (phase, step) through (20, 20), in lexicographic order. */
  function Schedule(phase: int, step: int): seq<(int, int)>
    decreases Phases + 1 - phase
  {
    if phase > Phases then [] else StepRange(phase, step) + Schedule(phase + 1, 1)
  }

  /** The 400 steps of a full run. */
  function AllSteps(): seq<(int, int)> {
    seq(Phases * StepsPerPhase, k => Position(k))
  }

  ghost predicate IsPrefix<T>(a: seq<T>, b: seq<T>) {
    |a| <= |b| && b[..|a|] == a
  }

  lemma PrefixCons<T>(x: T, a: seq<T>, b: seq<T>)
    requires IsPrefix(a, b)
    ensures IsPrefix([x] + a, [x] + b)
  {
    assert ([x] + b)[..|[x] + a|] == [x] + b[..|a|];
  }

  lemma PrefixAppend<T>(x: seq<T>, a: seq<T>, b: seq<T>)
    requires IsPrefix(a, b)
    ensures IsPrefix(x + a, x + b)
  {
    assert (x + b)[..|x + a|] == x + b[..|a|];
  }

  lemma PrefixExtend<T>(a: seq<T>, b: seq<T>, c: seq<T>)
    requires IsPrefix(a, b)
    ensures IsPrefix(a, b + c)
  {
    assert (b + c)[..|a|] == b[..|a|];
  }

  // ---------------------------------------------------------------------------
  // Properties of the inner loop

  /**
    The inner loop over steps `step .. 20` of `phase` keeps its books: the log
    accounts for its counters, and a loop that finishes has completed every
    step and leaves the counters at (phase, 21), or untouched when there was
    no step to run.
   */
  predicate StepsAccounted(r: Responses, st: Settings, phase: int, step: int, c: Counters) {
    var o := StepsFrom(r, st, phase, step, c);
    && Accounts(c, o)
    && c.completed <= o.counters.completed
    && (o.ok ==> o.counters.completed == c.completed + |StepRange(phase, step)|)
    && (o.ok && step <= StepsPerPhase ==> o.counters.phase == phase && o.counters.step == StepsPerPhase + 1)
    && (o.ok && step > StepsPerPhase ==> o.counters == c)
  }

  /**
    The inner loop starts steps `step .. 20` of `phase` in order and no
    other, each at most once, stopping at the first failure; a loop that
    finishes has started all of them.
   */
  ghost predicate StepsOrdered(r: Responses, st: Settings, phase: int, step: int, c: Counters) {
    var o := StepsFrom(r, st, phase, step, c);
    && IsPrefix(Collect(o.events, Started), StepRange(phase, step))
    && (o.ok ==> Collect(o.events, Started) == StepRange(phase, step))
  }

  /**
    After every counter update of the inner loop (each successful step and
    each checkpoint), the counters are in `phase`, with step and completion
    count advanced together from where the loop began.
   */
  predicate StepsPositionsAligned(r: Responses, st: Settings, phase: int, step: int, c: Counters) {
    forall k | k in Collect(StepsFrom(r, st, phase, step, c).events, Positions) ::
      k.phase == phase && k.completed - k.step == c.completed - step
  }

  lemma {:induction false} StepsFromAccounts(r: Responses, st: Settings, phase: int, step: int, c: Counters)
    ensures StepsAccounted(r, st, phase, step, c)
    decreases StepsPerPhase + 1 - step
  {
    if step > StepsPerPhase {
      StepsPastEnd(r, st, phase, step, c);
    } else if StepTurn(r, st, phase, step, c).Continue? {
      StepsFromAccounts(r, st, phase, step + 1, StepTurn(r, st, phase, step, c).counters);
      AccountedAfterTurn(r, st, phase, step, c);
    } else {
      AccountedWhenStopped(r, st, phase, step, c);
    }
  }

  lemma {:induction false} StepsFromOrder(r: Responses, st: Settings, phase: int, step: int, c: Counters)
    ensures StepsOrdered(r, st, phase, step, c)
    decreases StepsPerPhase + 1 - step
  {
    if step > StepsPerPhase {
      StepsPastEnd(r, st, phase, step, c);
    } else if StepTurn(r, st, phase, step, c).Continue? {
      StepsFromOrder(r, st, phase, step + 1, StepTurn(r, st, phase, step, c).counters);
      OrderedAfterTurn(r, st, phase, step, c);
    } else {
      OrderedWhenTurnStops(r, st, phase, step, c);
    }
  }

  lemma {:induction false} StepsFromSaves(r: Responses, st: Settings, phase: int, step: int, c: Counters)
    ensures StepsPositionsAligned(r, st, phase, step, c)
    decreases StepsPerPhase + 1 - step
  {
    if step > StepsPerPhase {
      StepsPastEnd(r, st, phase, step, c);
    } else if StepTurn(r, st, phase, step, c).Continue? {
      StepsFromSaves(r, st, phase, step + 1, StepTurn(r, st, phase, step, c).counters);
      AlignedAfterTurn(r, st, phase, step, c);
    } else {
      AlignedWhenStopped(r, st, phase, step, c);
    }
  }

  /** Past step 20 the inner loop does nothing. */
  lemma StepsPastEnd(r: Responses, st: Settings, phase: int, step: int, c: Counters)
    requires step > StepsPerPhase
    ensures StepsAccounted(r, st, phase, step, c)
    ensures StepsOrdered(r, st, phase, step, c)
    ensures StepsPositionsAligned(r, st, phase, step, c)
  {
    MultiplesSplit(c.completed, c.completed, c.completed, 10);
  }

  lemma AccountedWhenStopped(r: Responses, st: Settings, phase: int, step: int, c: Counters)
    requires step <= StepsPerPhase && StepTurn(r, st, phase, step, c).Stop?
    ensures StepsAccounted(r, st, phase, step, c)
  {
    TurnFacts(r, st, phase, step, c);
  }

  lemma AccountedAfterTurn(r: Responses, st: Settings, phase: int, step: int, c: Counters)
    requires step <= StepsPerPhase
    requires var t := StepTurn(r, st, phase, step, c);
             t.Continue? && StepsAccounted(r, st, phase, step + 1, t.counters)
    ensures StepsAccounted(r, st, phase, step, c)
  {
    TurnFacts(r, st, phase, step, c);
    var t := StepTurn(r, st, phase, step, c);
    var rest := StepsFrom(r, st, phase, step + 1, t.counters);
    assert StepsFrom(r, st, phase, step, c) == Then(t.events, rest);
    AccountsThen(c, t.counters, t.events, rest);
  }

  lemma OrderedWhenTurnStops(r: Responses, st: Settings, phase: int, step: int, c: Counters)
    requires step <= StepsPerPhase && StepTurn(r, st, phase, step, c).Stop?
    ensures StepsOrdered(r, st, phase, step, c)
  {
    TurnFacts(r, st, phase, step, c);
    assert StepRange(phase, step) == [(phase, step)] + StepRange(phase, step + 1);
    if st.running {
      PrefixExtend([(phase, step)], [(phase, step)], StepRange(phase, step + 1));
    }
  }

  lemma OrderedAfterTurn(r: Responses, st: Settings, phase: int, step: int, c: Counters)
    requires step <= StepsPerPhase
    requires var t := StepTurn(r, st, phase, step, c);
             t.Continue? && StepsOrdered(r, st, phase, step + 1, t.counters)
    ensures StepsOrdered(r, st, phase, step, c)
  {
    TurnFacts(r, st, phase, step, c);
    var t := StepTurn(r, st, phase, step, c);
    var rest := StepsFrom(r, st, phase, step + 1, t.counters);
    assert StepsFrom(r, st, phase, step, c) == Then(t.events, rest);
    assert StepRange(phase, step) == [(phase, step)] + StepRange(phase, step + 1);
    CollectAppend(t.events, rest.events, Started);
    PrefixCons((phase, step), Collect(rest.events, Started), StepRange(phase, step + 1));
  }

  lemma AlignedWhenStopped(r: Responses, st: Settings, phase: int, step: int, c: Counters)
    requires step <= StepsPerPhase && StepTurn(r, st, phase, step, c).Stop?
    ensures StepsPositionsAligned(r, st, phase, step, c)
  {
    TurnFacts(r, st, phase, step, c);
  }

  lemma AlignedAfterTurn(r: Responses, st: Settings, phase: int, step: int, c: Counters)
    requires step <= StepsPerPhase
    requires var t := StepTurn(r, st, phase, step, c);
             t.Continue? && StepsPositionsAligned(r, st, phase, step + 1, t.counters)
    ensures StepsPositionsAligned(r, st, phase, step, c)
  {
    TurnFacts(r, st, phase, step, c);
    var t := StepTurn(r, st, phase, step, c);
    var rest := StepsFrom(r, st, phase, step + 1, t.counters);
    assert StepsFrom(r, st, phase, step, c).events == t.events + rest.events;
    CollectAppend(t.events, rest.events, Positions);
  }

  lemma {:induction false} StepRangeLength(phase: int, step: int)
    ensures |StepRange(phase, step)| == if step > StepsPerPhase then 0 else StepsPerPhase + 1 - step
    decreases StepsPerPhase + 1 - step
  {
    if step <= StepsPerPhase {
      StepRangeLength(phase, step + 1);
    }
  }

  /** From (phase, step) with 1 <= step <= 21, the schedule holds the rest of this phase and all later phases. */
  lemma {:induction false} ScheduleLength(phase: int, step: int)
    requires 1 <= step <= StepsPerPhase + 1
    ensures |Schedule(phase, step)| == if phase > Phases then 0 else (Phases - phase) * StepsPerPhase + StepsPerPhase + 1 - step
    decreases Phases + 1 - phase
  {
    if phase <= Phases {
      StepRangeLength(phase, step);
      ScheduleLength(phase + 1, 1);
    }
  }

  // ---------------------------------------------------------------------------
  // Properties of the outer loop

  /** Counters that say exactly how many steps precede (phase, step) in the schedule. */
  predicate Consistent(k: Counters) {
    k.completed == Offset(k.phase, k.step)
  }

  /** The step the outer loop resumes from when entered at `phase` with counters `c`, and the steps still ahead. */
  function Plan(phase: int, c: Counters): seq<(int, int)> {
    Schedule(phase, FirstStep(phase, c))
  }

  /**
    The outer loop from `phase` keeps its books: the log accounts for its
    counters, and a loop that finishes has completed every remaining
    scheduled step and left the step counter reset to 1.
   */
  predicate PhasesAccounted(r: Responses, st: Settings, phase: int, c: Counters) {
    var o := PhasesFrom(r, st, phase, c);
    && Accounts(c, o)
    && c.completed <= o.counters.completed
    && (o.ok ==> o.counters.completed == c.completed + |Plan(phase, c)|)
    && (o.ok && phase <= Phases ==> o.counters.step == 1)
  }

  /**
    The outer loop from `phase` starts the scheduled steps ahead in order and
    no other, each at most once, stopping at the first failure; a loop that
    finishes has started all of them.
   */
  ghost predicate PhasesOrdered(r: Responses, st: Settings, phase: int, c: Counters) {
    var o := PhasesFrom(r, st, phase, c);
    && IsPrefix(Collect(o.events, Started), Plan(phase, c))
    && (o.ok ==> Collect(o.events, Started) == Plan(phase, c))
  }

  /** After every counter update of the outer loop from `phase`, the counters match the schedule. */
  predicate PositionsConsistent(r: Responses, st: Settings, phase: int, c: Counters) {
    forall k | k in Collect(PhasesFrom(r, st, phase, c).events, Positions) :: Consistent(k)
  }

  lemma {:induction false} PhasesFromAccounts(r: Responses, st: Settings, phase: int, c: Counters)
    ensures PhasesAccounted(r, st, phase, c)
    decreases Phases + 1 - phase
  {
    if phase > Phases {
      MultiplesSplit(c.completed, c.completed, c.completed, 10);
    } else {
      var steps := StepsFrom(r, st, phase, FirstStep(phase, c), c);
      if steps.ok {
        PhasesFromAccounts(r, st, phase + 1, steps.counters.(step := 1));
        AccountedAfterPhase(r, st, phase, c);
      } else {
        StepsFromAccounts(r, st, phase, FirstStep(phase, c), c);
      }
    }
  }

  lemma AccountedAfterPhase(r: Responses, st: Settings, phase: int, c: Counters)
    requires phase <= Phases
    requires var steps := StepsFrom(r, st, phase, FirstStep(phase, c), c);
             steps.ok && PhasesAccounted(r, st, phase + 1, steps.counters.(step := 1))
    ensures PhasesAccounted(r, st, phase, c)
  {
    var first := FirstStep(phase, c);
    var steps := StepsFrom(r, st, phase, first, c);
    StepsFromAccounts(r, st, phase, first, c);
    var c' := steps.counters.(step := 1);
    var rest := PhasesFrom(r, st, phase + 1, c');
    assert Plan(phase + 1, c') == Schedule(phase + 1, 1);
    PhaseThenAccounts(c, steps, rest, StepRange(phase, first), Schedule(phase + 1, 1));
    assert Plan(phase, c) == StepRange(phase, first) + Schedule(phase + 1, 1);
    assert PhasesFrom(r, st, phase, c) == Then(steps.events, rest);
  }

  /** The accounting of a finished phase followed by the rest of the run. */
  lemma PhaseThenAccounts(c: Counters, steps: Outcome, rest: Outcome, here: seq<(int, int)>, later: seq<(int, int)>)
    requires steps.ok && Accounts(c, steps) && c.completed <= steps.counters.completed
    requires steps.counters.completed == c.completed + |here|
    requires Accounts(steps.counters, rest) && steps.counters.completed <= rest.counters.completed
    requires rest.ok ==> rest.counters.completed == steps.counters.completed + |later|
    ensures Accounts(c, Then(steps.events, rest))
    ensures c.completed <= rest.counters.completed
    ensures rest.ok ==> rest.counters.completed == c.completed + |here + later|
  {
    AccountsThen(c, steps.counters, steps.events, rest);
  }

  lemma {:induction false} PhasesFromOrder(r: Responses, st: Settings, phase: int, c: Counters)
    ensures PhasesOrdered(r, st, phase, c)
    decreases Phases + 1 - phase
  {
    if phase > Phases {
      OrderedPastEnd(r, st, phase, c);
    } else if StepsFrom(r, st, phase, FirstStep(phase, c), c).ok {
      var steps := StepsFrom(r, st, phase, FirstStep(phase, c), c);
      PhasesFromOrder(r, st, phase + 1, steps.counters.(step := 1));
      OrderedAfterPhase(r, st, phase, c);
    } else {
      OrderedWhenStopped(r, st, phase, c);
    }
  }

  lemma OrderedPastEnd(r: Responses, st: Settings, phase: int, c: Counters)
    requires phase > Phases
    ensures PhasesOrdered(r, st, phase, c)
  {
  }

  lemma OrderedWhenStopped(r: Responses, st: Settings, phase: int, c: Counters)
    requires phase <= Phases && !StepsFrom(r, st, phase, FirstStep(phase, c), c).ok
    ensures PhasesOrdered(r, st, phase, c)
  {
    var first := FirstStep(phase, c);
    var steps := StepsFrom(r, st, phase, first, c);
    StepsFromOrder(r, st, phase, first, c);
    PrefixExtend(Collect(steps.events, Started), StepRange(phase, first), Schedule(phase + 1, 1));
  }

  lemma OrderedAfterPhase(r: Responses, st: Settings, phase: int, c: Counters)
    requires phase <= Phases
    requires var steps := StepsFrom(r, st, phase, FirstStep(phase, c), c);
             steps.ok && PhasesOrdered(r, st, phase + 1, steps.counters.(step := 1))
    ensures PhasesOrdered(r, st, phase, c)
  {
    var first := FirstStep(phase, c);
    var steps := StepsFrom(r, st, phase, first, c);
    StepsFromOrder(r, st, phase, first, c);
    var c' := steps.counters.(step := 1);
    assert Plan(phase + 1, c') == Schedule(phase + 1, 1);
    PhaseThenOrder(steps, PhasesFrom(r, st, phase + 1, c'), StepRange(phase, first), Schedule(phase + 1, 1));
  }

  /** The steps started by a finished phase followed by the rest of the run. */
  lemma PhaseThenOrder(steps: Outcome, rest: Outcome, here: seq<(int, int)>, later: seq<(int, int)>)
    requires Collect(steps.events, Started) == here
    requires IsPrefix(Collect(rest.events, Started), later)
    requires rest.ok ==> Collect(rest.events, Started) == later
    ensures IsPrefix(Collect(steps.events + rest.events, Started), here + later)
    ensures rest.ok ==> Collect(steps.events + rest.events, Started) == here + later
  {
    CollectAppend(steps.events, rest.events, Started);
    PrefixAppend(here, Collect(rest.events, Started), later);
  }

  /** From counters that match the schedule, every update of the outer loop keeps them matching it. */
  lemma {:induction false} PhasesFromSaves(r: Responses, st: Settings, phase: int, c: Counters)
    requires 1 <= FirstStep(phase, c) <= StepsPerPhase + 1
    requires c.completed == (phase - 1) * StepsPerPhase + FirstStep(phase, c) - 1
    ensures PositionsConsistent(r, st, phase, c)
    decreases Phases + 1 - phase
  {
    if phase > Phases {
      SavesPastEnd(r, st, phase, c);
    } else {
      var steps := StepsFrom(r, st, phase, FirstStep(phase, c), c);
      if steps.ok {
        StepsFromAccounts(r, st, phase, FirstStep(phase, c), c);
        StepRangeLength(phase, FirstStep(phase, c));
        var c' := steps.counters.(step := 1);
        assert FirstStep(phase + 1, c') == 1;
        PhasesFromSaves(r, st, phase + 1, c');
        ConsistentAfterPhase(r, st, phase, c);
      } else {
        StepsFromSaves(r, st, phase, FirstStep(phase, c), c);
      }
    }
  }

  lemma SavesPastEnd(r: Responses, st: Settings, phase: int, c: Counters)
    requires phase > Phases
    ensures PositionsConsistent(r, st, phase, c)
  {
  }

  lemma ConsistentAfterPhase(r: Responses, st: Settings, phase: int, c: Counters)
    requires phase <= Phases
    requires c.completed == (phase - 1) * StepsPerPhase + FirstStep(phase, c) - 1
    requires var steps := StepsFrom(r, st, phase, FirstStep(phase, c), c);
             steps.ok && PositionsConsistent(r, st, phase + 1, steps.counters.(step := 1))
    ensures PositionsConsistent(r, st, phase, c)
  {
    var first := FirstStep(phase, c);
    var steps := StepsFrom(r, st, phase, first, c);
    StepsFromSaves(r, st, phase, first, c);
    var rest := PhasesFrom(r, st, phase + 1, steps.counters.(step := 1));
    assert PhasesFrom(r, st, phase, c).events == steps.events + rest.events;
    CollectAppend(steps.events, rest.events, Positions);
  }

  /** A loop that finishes after completing some step leaves the phase counter at 20. */
  predicate EndsInLastPhase(r: Responses, st: Settings, phase: int, c: Counters) {
    var o := PhasesFrom(r, st, phase, c);
    o.ok && c.completed < o.counters.completed ==> o.counters.phase == Phases
  }

  lemma {:induction false} PhasesFromEnd(r: Responses, st: Settings, phase: int, c: Counters)
    ensures EndsInLastPhase(r, st, phase, c)
    decreases Phases + 1 - phase
  {
    if phase > Phases {
      EndsPastEnd(r, st, phase, c);
    } else if StepsFrom(r, st, phase, FirstStep(phase, c), c).ok {
      var steps := StepsFrom(r, st, phase, FirstStep(phase, c), c);
      if phase < Phases {
        PhasesFromEnd(r, st, phase + 1, steps.counters.(step := 1));
        EndsAfterPhase(r, st, phase, c);
      } else {
        EndsAfterLastPhase(r, st, c);
      }
    } else {
      EndsWhenStopped(r, st, phase, c);
    }
  }

  lemma EndsPastEnd(r: Responses, st: Settings, phase: int, c: Counters)
    requires phase > Phases
    ensures EndsInLastPhase(r, st, phase, c)
  {
  }

  lemma EndsWhenStopped(r: Responses, st: Settings, phase: int, c: Counters)
    requires phase <= Phases && !StepsFrom(r, st, phase, FirstStep(phase, c), c).ok
    ensures EndsInLastPhase(r, st, phase, c)
  {
  }

  lemma EndsAfterPhase(r: Responses, st: Settings, phase: int, c: Counters)
    requires phase < Phases
    requires var steps := StepsFrom(r, st, phase, FirstStep(phase, c), c);
             steps.ok && EndsInLastPhase(r, st, phase + 1, steps.counters.(step := 1))
    ensures EndsInLastPhase(r, st, phase, c)
  {
    var steps := StepsFrom(r, st, phase, FirstStep(phase, c), c);
    var c' := steps.counters.(step := 1);
    var rest := PhasesFrom(r, st, phase + 1, c');
    assert PhasesFrom(r, st, phase, c) == Then(steps.events, rest);
    PhasesFromCompletes(r, st, phase + 1, c');
    NextPhaseCompletesSteps(phase, c', rest);
  }

  /** A finished outer loop has completed exactly the steps its plan had left. */
  lemma PhasesFromCompletes(r: Responses, st: Settings, phase: int, c: Counters)
    ensures var o := PhasesFrom(r, st, phase, c);
            o.ok ==> o.counters.completed == c.completed + |Plan(phase, c)|
  {
    PhasesFromAccounts(r, st, phase, c);
  }

  lemma EndsAfterLastPhase(r: Responses, st: Settings, c: Counters)
    requires StepsFrom(r, st, Phases, FirstStep(Phases, c), c).ok
    ensures EndsInLastPhase(r, st, Phases, c)
  {
    var first := FirstStep(Phases, c);
    var steps := StepsFrom(r, st, Phases, first, c);
    StepsFromAccounts(r, st, Phases, first, c);
    var c' := steps.counters.(step := 1);
    assert PhasesFrom(r, st, Phases + 1, c') == Outcome(true, c', []);
    assert PhasesFrom(r, st, Phases, c) == Outcome(true, c', steps.events);
  }

  /** A finished run of phases `phase + 1 .. 20` from step 1 completes at least one step. */
  lemma NextPhaseCompletesSteps(phase: int, c': Counters, rest: Outcome)
    requires phase < Phases && c'.step == 1
    requires rest.ok ==> rest.counters.completed == c'.completed + |Plan(phase + 1, c')|
    ensures rest.ok ==> c'.completed < rest.counters.completed
  {
    assert Plan(phase + 1, c') == Schedule(phase + 1, 1);
    ScheduleLength(phase + 1, 1);
  }

  // ---------------------------------------------------------------------------
  // Positions in the schedule

  /** From a step inside a phase, the schedule is that step followed by the schedule from the next one. */
  lemma ScheduleAdvance(phase: int, step: int)
    requires phase <= Phases && step <= StepsPerPhase
    ensures Schedule(phase, step) == [(phase, step)] + Schedule(phase, step + 1)
  {
    assert StepRange(phase, step) == [(phase, step)] + StepRange(phase, step + 1);
    AppendAssoc([(phase, step)], StepRange(phase, step + 1), Schedule(phase + 1, 1));
  }

  /** Past the last step of a phase the schedule continues with the next phase. */
  lemma ScheduleWraps(phase: int, step: int)
    requires phase <= Phases && step == StepsPerPhase + 1
    ensures Schedule(phase, step) == Schedule(phase + 1, step - StepsPerPhase)
  {
    assert StepRange(phase, step) == [];
  }

  /** The number of steps of a full run that precede (phase, step). */
  function Offset(phase: int, step: int): int {
    (phase - 1) * StepsPerPhase + step - 1
  }

  /** The step a full run takes after completing `k` steps. */
  function Position(k: int): (int, int) {
    (k / StepsPerPhase + 1, k % StepsPerPhase + 1)
  }

  lemma PositionOfOffset(phase: int, step: int)
    requires 1 <= step <= StepsPerPhase
    ensures Position(Offset(phase, step)) == (phase, step)
  {
  }

  /** A suffix of the full run is its first step followed by the rest. */
  lemma SuffixCons(s: seq<(int, int)>, x: (int, int), t: seq<(int, int)>, k: int)
    requires 0 <= k < |AllSteps()| && x == Position(k) && t == AllSteps()[k + 1..]
    requires s == [x] + t
    ensures s == AllSteps()[k..]
  {
    assert AllSteps()[k..] == [AllSteps()[k]] + AllSteps()[k + 1..];
  }

  /**
    The schedule from any position of a full run is the suffix of the full
    run that starts there.
   */
  lemma {:induction false} ScheduleFromOffset(phase: int, step: int)
    requires 1 <= phase <= Phases && 1 <= step <= StepsPerPhase + 1
    ensures 0 <= Offset(phase, step) <= |AllSteps()|
    ensures Schedule(phase, step) == AllSteps()[Offset(phase, step)..]
    decreases Phases - phase, StepsPerPhase + 1 - step, 1
  {
    if step <= StepsPerPhase {
      SuffixAfterAdvance(phase, step);
    } else if phase < Phases {
      SuffixAfterWrap(phase, step);
    } else {
      SuffixAtEnd();
    }
  }

  lemma {:induction false} SuffixAfterAdvance(phase: int, step: int)
    requires 1 <= phase <= Phases && 1 <= step <= StepsPerPhase
    ensures Schedule(phase, step) == AllSteps()[Offset(phase, step)..]
    decreases Phases - phase, StepsPerPhase + 1 - step, 0
  {
    ScheduleFromOffset(phase, step + 1);
    ScheduleAdvance(phase, step);
    PositionOfOffset(phase, step);
    SuffixCons(Schedule(phase, step), (phase, step), Schedule(phase, step + 1), Offset(phase, step));
  }

  lemma {:induction false} SuffixAfterWrap(phase: int, step: int)
    requires 1 <= phase < Phases && step == StepsPerPhase + 1
    ensures Schedule(phase, step) == AllSteps()[Offset(phase, step)..]
    decreases Phases - phase, StepsPerPhase + 1 - step, 0
  {
    ScheduleFromOffset(phase + 1, step - StepsPerPhase);
    ScheduleWraps(phase, step);
    assert Offset(phase + 1, step - StepsPerPhase) == Offset(phase, step);
  }

  lemma SuffixAtEnd()
    ensures Schedule(Phases, StepsPerPhase + 1) == AllSteps()[Offset(Phases, StepsPerPhase + 1)..]
  {
    ScheduleWraps(Phases, StepsPerPhase + 1);
    assert Schedule(Phases + 1, 1) == [];
  }

  /**
    Counters that match the schedule name exactly the steps a full run has
    not yet completed: resuming from them continues the run where it left off.
   */
  lemma ConsistentResumesInPlace(c: Counters)
    requires Consistent(c) && 1 <= c.phase <= Phases && 1 <= c.step <= StepsPerPhase + 1
    ensures 0 <= c.completed <= |AllSteps()|
    ensures Plan(c.phase, c) == AllSteps()[c.completed..]
  {
    ScheduleFromOffset(c.phase, c.step);
  }

  // ---------------------------------------------------------------------------
  // The whole run

  /** Events that complete no step, start none, write no checkpoint, run no periodic check and fail nothing. */
  predicate Quiet(events: seq<RunEvent>) {
    && Clean(events)
    && Collect(events, Succeeded) == [] && Collect(events, Started) == []
    && Collect(events, CadencePoint) == [] && Collect(events, HealthPoint) == []
  }

  lemma QuietOne(e: RunEvent)
    requires e.HealthChecked? || e.FinalValidated? || (e.Saved? && e.reason != Cadence)
    requires e.HealthChecked? ==> e.report.ok && !e.moment.PeriodicHealth?
    ensures Quiet([e])
  {
    CollectOne(e, Succeeded);
    CollectOne(e, Started);
    CollectOne(e, CadencePoint);
    CollectOne(e, HealthPoint);
    CollectOne(e, Failed);
    CollectOne(e, Unhealthy);
  }

  lemma QuietAppend(a: seq<RunEvent>, b: seq<RunEvent>)
    requires Quiet(a) && Quiet(b)
    ensures Quiet(a + b)
  {
    CollectAppend(a, b, Succeeded);
    CollectAppend(a, b, Started);
    CollectAppend(a, b, CadencePoint);
    CollectAppend(a, b, HealthPoint);
    CollectAppend(a, b, Failed);
    CollectAppend(a, b, Unhealthy);
  }

  /** Quiet events after a finished stretch change neither its books nor the steps it started. */
  lemma QuietAfter(c: Counters, o: Outcome, suffix: seq<RunEvent>, ok: bool)
    requires Accounts(c, o) && o.ok && Quiet(suffix)
    ensures Accounts(c, Outcome(ok, o.counters, o.events + suffix))
    ensures Collect(o.events + suffix, Started) == Collect(o.events, Started)
  {
    var events := o.events + suffix;
    CollectAppend(o.events, suffix, Succeeded);
    CollectAppend(o.events, suffix, Started);
    CollectAppend(o.events, suffix, CadencePoint);
    CollectAppend(o.events, suffix, HealthPoint);
    CollectAppend(o.events, suffix, Failed);
    CollectAppend(o.events, suffix, Unhealthy);
    forall i | 0 <= i < |events| - 1
      ensures Failed(events[i]) == []
    {
      if i < |o.events| {
        CleanHasNoFailure(o.events, i);
      } else {
        CleanHasNoFailure(suffix, i - |o.events|);
      }
    }
  }

  /**
    The whole run from counters `c` keeps its books; a run that succeeds has
    completed every step still scheduled and ends by saving its final counters.
   */
  predicate RunAccounted(r: Responses, st: Settings, c: Counters) {
    var o := RunAll(r, st, c);
    && Accounts(c, o)
    && c.completed <= o.counters.completed
    && (o.ok ==> o.counters.completed == c.completed + |Plan(c.phase, c)|)
    && (o.ok ==> |o.events| > 0 && o.events[|o.events| - 1] == SaveAt(r, Final, o.counters, FinalSave))
  }

  /**
    The whole run starts the scheduled steps from `c` in order and no other,
    each at most once; a run that succeeds has started all of them.
   */
  ghost predicate RunOrdered(r: Responses, st: Settings, c: Counters) {
    var o := RunAll(r, st, c);
    && IsPrefix(Collect(o.events, Started), Plan(c.phase, c))
    && (o.ok ==> Collect(o.events, Started) == Plan(c.phase, c))
  }

  lemma RunAllFacts(r: Responses, st: Settings, c: Counters)
    ensures RunAccounted(r, st, c)
    ensures RunOrdered(r, st, c)
  {
    var h := r.health(InitialHealth);
    if !h.ok {
      InitialCheckFails(r, st, c);
    } else {
      var loop := PhasesFrom(r, st, c.phase, c);
      PhasesFromAccounts(r, st, c.phase, c);
      PhasesFromOrder(r, st, c.phase, c);
      QuietOne(HealthChecked(InitialHealth, h));
      if !loop.ok {
        LoopStops(r, st, c);
      } else {
        LoopFinishes(r, st, c);
      }
    }
  }

  lemma InitialCheckFails(r: Responses, st: Settings, c: Counters)
    requires !r.health(InitialHealth).ok
    ensures RunAccounted(r, st, c) && RunOrdered(r, st, c)
  {
    var e := HealthChecked(InitialHealth, r.health(InitialHealth));
    CollectOne(e, Succeeded);
    CollectOne(e, Started);
    CollectOne(e, CadencePoint);
    CollectOne(e, HealthPoint);
    CollectOne(e, Failed);
  }

  lemma LoopStops(r: Responses, st: Settings, c: Counters)
    requires r.health(InitialHealth).ok && !PhasesFrom(r, st, c.phase, c).ok
    requires PhasesAccounted(r, st, c.phase, c) && PhasesOrdered(r, st, c.phase, c)
    requires Quiet([HealthChecked(InitialHealth, r.health(InitialHealth))])
    ensures RunAccounted(r, st, c) && RunOrdered(r, st, c)
  {
    var prefix := [HealthChecked(InitialHealth, r.health(InitialHealth))];
    var loop := PhasesFrom(r, st, c.phase, c);
    AccountsThen(c, c, prefix, loop);
    CollectAppend(prefix, loop.events, Started);
  }

  lemma LoopFinishes(r: Responses, st: Settings, c: Counters)
    requires r.health(InitialHealth).ok && PhasesFrom(r, st, c.phase, c).ok
    requires PhasesAccounted(r, st, c.phase, c) && PhasesOrdered(r, st, c.phase, c)
    requires Quiet([HealthChecked(InitialHealth, r.health(InitialHealth))])
    ensures RunAccounted(r, st, c) && RunOrdered(r, st, c)
  {
    var prefix := [HealthChecked(InitialHealth, r.health(InitialHealth))];
    var inner := PhasesFrom(r, st, c.phase, c);
    var loop := Then(prefix, inner);
    AccountsThen(c, c, prefix, inner);
    CollectAppend(prefix, inner.events, Started);
    assert RunAll(r, st, c) == Finish(r, loop);
    FinalStretch(c, loop, r.finalCheck, SaveAt(r, Final, loop.counters, FinalSave), Finish(r, loop));
  }

  /** The final validation and, when it passes, the final save, after a finished loop. */
  lemma FinalStretch(c: Counters, loop: Outcome, v: Validation, save: RunEvent, o: Outcome)
    requires Accounts(c, loop) && loop.ok
    requires save.Saved? && save.reason == Final
    requires o == if !v.ok then Outcome(false, loop.counters, loop.events + [FinalValidated(v)])
                  else Outcome(true, loop.counters, loop.events + [FinalValidated(v), save])
    ensures Accounts(c, o) && o.counters == loop.counters
    ensures Collect(o.events, Started) == Collect(loop.events, Started)
    ensures o.ok ==> |o.events| > 0 && o.events[|o.events| - 1] == save
  {
    QuietOne(FinalValidated(v));
    QuietOne(save);
    QuietAppend([FinalValidated(v)], [save]);
    assert [FinalValidated(v)] + [save] == [FinalValidated(v), save];
    if v.ok {
      QuietAfter(c, loop, [FinalValidated(v), save], true);
    } else {
      QuietAfter(c, loop, [FinalValidated(v)], false);
    }
  }

  /** Only the loop updates the counters and writes checkpoints: the run's positions are the loop's. */
  lemma RunCheckpoints(r: Responses, st: Settings, c: Counters)
    ensures var o := RunAll(r, st, c);
            forall k | k in Collect(o.events, Positions) :: k in Collect(PhasesFrom(r, st, c.phase, c).events, Positions)
  {
    var h := r.health(InitialHealth);
    var e := HealthChecked(InitialHealth, h);
    CollectOne(e, Positions);
    if h.ok {
      var inner := PhasesFrom(r, st, c.phase, c);
      CollectAppend([e], inner.events, Positions);
      var loop := Then([e], inner);
      if loop.ok {
        var v := r.finalCheck;
        var save := SaveAt(r, Final, loop.counters, FinalSave);
        CollectShort(FinalValidated(v), save, save, Positions);
        CollectAppend(loop.events, [FinalValidated(v)], Positions);
        CollectAppend(loop.events, [FinalValidated(v), save], Positions);
      }
    }
  }

  /** A run whose flag is already cleared stops before its first scheduled step. */
  lemma StoppedRunFails(r: Responses, st: Settings, c: Counters)
    requires !st.running && c.phase <= Phases && c.step <= StepsPerPhase
    ensures !RunAll(r, st, c).ok
  {
    assert FirstStep(c.phase, c) == c.step;
    assert StepTurn(r, st, c.phase, c.step, c).Stop?;
  }

  /**
    Resuming from counters that match the schedule continues the full run
    where it left off: the run starts the steps not yet completed, in order;
    a successful run has completed all 400 and, if it did any work, leaves
    the counters at phase 20, step 1; and after every counter update (each
    successful step, each checkpoint) the counters match the schedule again.
   */
  lemma ResumeFromCheckpoint(r: Responses, st: Settings, c: Counters)
    requires Consistent(c) && 1 <= c.phase <= Phases && 1 <= c.step <= StepsPerPhase + 1
    ensures 0 <= c.completed <= |AllSteps()|
    ensures var o := RunAll(r, st, c);
            && IsPrefix(Collect(o.events, Started), AllSteps()[c.completed..])
            && (o.ok ==> Collect(o.events, Started) == AllSteps()[c.completed..])
            && (o.ok ==> o.counters.completed == |AllSteps()|)
            && (o.ok && c.completed < |AllSteps()| ==> o.counters == Counters(Phases, 1, |AllSteps()|))
            && (forall k | k in Collect(o.events, Positions) :: Consistent(k))
  {
    RunAllFacts(r, st, c);
    ConsistentResumesInPlace(c);
    assert FirstStep(c.phase, c) == c.step;
    PhasesFromSaves(r, st, c.phase, c);
    RunCheckpoints(r, st, c);
    PhasesFromAccounts(r, st, c.phase, c);
    PhasesFromEnd(r, st, c.phase, c);
  }

  /**
    A fresh run that succeeds has run all 400 steps in order, and its final
    save records phase 20, step 1, 400 completions and the status "running".
   */
  lemma FreshRun(r: Responses, st: Settings, c: Counters)
    requires c == InitialCounters
    ensures var o := RunAll(r, st, c);
            && (o.ok ==> Collect(o.events, Started) == AllSteps())
            && (o.ok ==> o.counters == Counters(Phases, 1, Phases * StepsPerPhase))
            && (o.ok ==> st.running)
            && (forall k | k in Collect(o.events, Positions) :: Consistent(k))
            && (o.ok ==> var doc := SavedDoc(st, o.events[|o.events| - 1]);
                         && doc.ints[NextPhase] == Phases && doc.ints[NextStep] == 1
                         && doc.ints[CompletedSteps] == Phases * StepsPerPhase
                         && doc.texts[ExecutionStatus] == "running")
  {
    ResumeFromCheckpoint(r, st, c);
    assert AllSteps()[c.completed..] == AllSteps();
    if !st.running {
      StoppedRunFails(r, st, c);
    }
    var o := RunAll(r, st, c);
    if o.ok {
      SnapshotContents(o.counters, st, r.clock(FinalSave));
    }
  }

  /**
    Counters saved between phases, after the step counter was reset but
    before the next phase's first step completed, read (p, 1, 20 * p): they
    do not match the schedule, and resuming from them runs phase p again,
    so a successful run ends with 20 more completions than there are steps.
   */
  lemma ResumeBetweenPhases(r: Responses, st: Settings, c: Counters)
    requires 1 <= c.phase <= Phases && c.step == 1 && c.completed == c.phase * StepsPerPhase
    ensures !Consistent(c)
    ensures 0 <= c.completed - StepsPerPhase <= |AllSteps()|
    ensures var o := RunAll(r, st, c);
            && IsPrefix(Collect(o.events, Started), AllSteps()[c.completed - StepsPerPhase..])
            && (o.ok ==> Collect(o.events, Started) == AllSteps()[c.completed - StepsPerPhase..])
            && (o.ok ==> o.counters.completed == |AllSteps()| + StepsPerPhase)
  {
    RunAllFacts(r, st, c);
    ScheduleFromOffset(c.phase, c.step);
    assert FirstStep(c.phase, c) == c.step;
  }

  /** A successful run ends with the final save of the counters it ends with. */
  lemma EndsWithFinalSave(r: Responses, st: Settings, c: Counters)
    requires RunAll(r, st, c).ok
    ensures var o := RunAll(r, st, c);
            |o.events| > 0 && o.events[|o.events| - 1] == SaveAt(r, Final, o.counters, FinalSave)
  {
    RunAllFacts(r, st, c);
  }

  /** Loading the final save of a successful run restores the counters the run ended with. */
  lemma FinalSaveRestores(r: Responses, st: Settings, c: Counters, c0: Counters, table0: PhaseTable)
    requires RunAll(r, st, c).ok
    ensures var o := RunAll(r, st, c);
            |o.events| > 0 && Load(Some(SavedDoc(st, o.events[|o.events| - 1])), c0, table0).counters == o.counters
  {
    RunAllFacts(r, st, c);
    var o := RunAll(r, st, c);
    SaveLoadRoundTrip(o.counters, st, r.clock(FinalSave), c0, table0);
  }

  /**
    The final save of a successful fresh run is such a between-phases
    snapshot: a second run resumed from it runs phase 20 again and, if it
    succeeds, reports 420 completions.
   */
  lemma RerunAfterCompletion(r: Responses, st: Settings, c: Counters, r': Responses, st': Settings)
    requires c == InitialCounters && RunAll(r, st, c).ok
    ensures var o := RunAll(r, st, c);
            |o.events| > 0 &&
            var resumed := Load(Some(SavedDoc(st, o.events[|o.events| - 1])), c, st.phases).counters;
            && resumed == Counters(Phases, 1, Phases * StepsPerPhase)
            && var o' := RunAll(r', st', resumed);
               (o'.ok ==> Collect(o'.events, Started) == AllSteps()[(Phases - 1) * StepsPerPhase..]
                          && o'.counters.completed == (Phases + 1) * StepsPerPhase)
  {
    FreshRun(r, st, c);
    FinalSaveRestores(r, st, c, c, st.phases);
    var o := RunAll(r, st, c);
    ResumeBetweenPhases(r', st', Load(Some(SavedDoc(st, o.events[|o.events| - 1])), c, st.phases).counters);
  }
}
