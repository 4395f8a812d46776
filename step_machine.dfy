/**
  The per-step retry machine: up to `MaxRetries` attempts at a step's action;
  a failed action is followed by the recovery policy unless it was the last
  attempt; a successful action is validated and then committed, and either
  answer ends the step at once.
 */
module StepMachine {
  import opened Text
  import opened Collaborators
  import opened Policies

  /** `max_retries`: the number of attempts a step gets. */
  const MaxRetries: int := 3

  /** Attempts are numbered from 1. */
  const FirstAttempt: int := 1

  /** One collaborator call made while a step runs. */
  datatype StepEvent =
    | Acted(attempt: int, outcome: StepOutcome)
    | Validated(attempt: int, validation: Validation)
    | Committed(attempt: int, record: CommitRecord)
    | Recovered(attempt: int, recovery: Recovery)

  /** The verdict of a step and the calls it made, in order. */
  datatype StepRun = StepRun(ok: bool, events: seq<StepEvent>)

  /** One attempt: whether it ends the step, the step's verdict if so, and the calls it made. */
  datatype AttemptResult = AttemptResult(finished: bool, ok: bool, events: seq<StepEvent>)

  /** A single attempt at a step: act, then validate and commit, or recover unless out of attempts. */
  function Attempt(env: Env, phase: int, step: int, attempt: int): (r: AttemptResult)
    ensures !r.finished ==> attempt < MaxRetries && !r.ok
  {
    var outcome := Dispatch(env.action, phase, step, attempt);
    if outcome.success then
      var v := Validate(phase, step, env.world(Validating(phase, step, attempt)));
      if v.ok then
        var m := Committing(phase, step, attempt);
        var record := Commit(phase, step, outcome.message, outcome.files, env.world(m), env.clock(m));
        AttemptResult(true, record.ok, [Acted(attempt, outcome), Validated(attempt, v), Committed(attempt, record)])
      else
        AttemptResult(true, false, [Acted(attempt, outcome), Validated(attempt, v)])
    else if attempt < MaxRetries then
      var recovery := Recover(attempt, env.world(Recovering(phase, step, attempt)).files);
      AttemptResult(false, false, [Acted(attempt, outcome), Recovered(attempt, recovery)])
    else
      AttemptResult(true, false, [Acted(attempt, outcome)])
  }

  /** The step's run from attempt `attempt` on (the specification of the retry loop). */
  function AttemptsFrom(env: Env, phase: int, step: int, attempt: int): StepRun
    requires 1 <= attempt <= MaxRetries
    decreases MaxRetries - attempt
  {
    var r := Attempt(env, phase, step, attempt);
    if r.finished then StepRun(r.ok, r.events)
    else
      var rest := AttemptsFrom(env, phase, step, attempt + 1);
      StepRun(rest.ok, r.events + rest.events)
  }

  /** The whole run of one step. */
  function RunStep(env: Env, phase: int, step: int): StepRun {
    AttemptsFrom(env, phase, step, FirstAttempt)
  }

  /**
    One pass of the retry loop's body: act, then validate and commit, or
    recover when attempts remain; `finished` says whether the step ends here.
   */
  method TryAttempt(env: Env, phase: int, step: int, attempt: int)
    returns (finished: bool, ok: bool, ghost here: seq<StepEvent>)
    ensures finished == Attempt(env, phase, step, attempt).finished
    ensures ok == Attempt(env, phase, step, attempt).ok
    ensures here == Attempt(env, phase, step, attempt).events
  {
    var outcome := Dispatch(env.action, phase, step, attempt);
    if outcome.success {
      var v := Validate(phase, step, env.world(Validating(phase, step, attempt)));
      if v.ok {
        var m := Committing(phase, step, attempt);
        var record := Commit(phase, step, outcome.message, outcome.files, env.world(m), env.clock(m));
        return true, record.ok, [Acted(attempt, outcome), Validated(attempt, v), Committed(attempt, record)];
      }
      return true, false, [Acted(attempt, outcome), Validated(attempt, v)];
    } else if attempt < MaxRetries {
      var recovery := Recover(attempt, env.world(Recovering(phase, step, attempt)).files);
      return false, false, [Acted(attempt, outcome), Recovered(attempt, recovery)];
    }
    return true, false, [Acted(attempt, outcome)];
  }

  /** Executes a step with automatic error recovery; `events` records the collaborator calls. */
  method ExecuteStepWithRecovery(env: Env, phase: int, step: int) returns (ok: bool, ghost events: seq<StepEvent>)
    ensures ok == RunStep(env, phase, step).ok
    ensures events == RunStep(env, phase, step).events
  {
    ghost var whole := RunStep(env, phase, step);
    var attempt := 1;
    events := [];
    while true
      invariant 1 <= attempt <= MaxRetries
      invariant whole.ok == AttemptsFrom(env, phase, step, attempt).ok
      invariant whole.events == events + AttemptsFrom(env, phase, step, attempt).events
      decreases MaxRetries - attempt
    {
      var finished, verdict, here := TryAttempt(env, phase, step, attempt);
      AttemptsFromUnfold(env, phase, step, attempt);
      if finished {
        return verdict, events + here;
      }
      AppendAssoc(events, here, AttemptsFrom(env, phase, step, attempt + 1).events);
      events := events + here;
      attempt := attempt + 1;
    }
  }

  /**
    A run from attempt `attempt` opens with that attempt's action, and a run
    that succeeds ends with a commit that succeeded.
   */
  lemma {:induction false} AttemptsFromShape(env: Env, phase: int, step: int, attempt: int)
    requires 1 <= attempt <= MaxRetries
    ensures var r := AttemptsFrom(env, phase, step, attempt);
            && |r.events| >= 1 && r.events[0] == Acted(attempt, Dispatch(env.action, phase, step, attempt))
            && (r.ok ==> r.events[|r.events| - 1].Committed? && r.events[|r.events| - 1].record.ok)
    decreases MaxRetries - attempt
  {
    if !Attempt(env, phase, step, attempt).finished {
      AttemptsFromShape(env, phase, step, attempt + 1);
    }
  }

  /** A step's run opens with the action on the first attempt; a step that succeeds ends with a successful commit. */
  lemma RunStepShape(env: Env, phase: int, step: int)
    ensures var r := RunStep(env, phase, step);
            && |r.events| >= 1 && r.events[0] == Acted(FirstAttempt, Dispatch(env.action, phase, step, FirstAttempt))
            && (r.ok ==> r.events[|r.events| - 1].Committed? && r.events[|r.events| - 1].record.ok)
  {
    AttemptsFromShape(env, phase, step, FirstAttempt);
  }

  /** The run from attempt `attempt` is that attempt, then (if it does not end the step) the run from the next. */
  lemma AttemptsFromUnfold(env: Env, phase: int, step: int, attempt: int)
    requires 1 <= attempt <= MaxRetries
    ensures var r := Attempt(env, phase, step, attempt);
            && (r.finished ==> AttemptsFrom(env, phase, step, attempt) == StepRun(r.ok, r.events))
            && (!r.finished ==>
                  && attempt < MaxRetries
                  && AttemptsFrom(env, phase, step, attempt).ok == AttemptsFrom(env, phase, step, attempt + 1).ok
                  && AttemptsFrom(env, phase, step, attempt).events == r.events + AttemptsFrom(env, phase, step, attempt + 1).events)
  {
  }

  // ---------------------------------------------------------------------------
  // Views of a step's events

  /** The four collaborators a step calls. */
  datatype Call = ActionCall | ValidationCall | CommitCall | RecoveryCall

  function CallOf(e: StepEvent): Call {
    match e
    case Acted(_, _) => ActionCall
    case Validated(_, _) => ValidationCall
    case Committed(_, _) => CommitCall
    case Recovered(_, _) => RecoveryCall
  }

  function Mark(e: StepEvent, call: Call): seq<int> {
    if CallOf(e) == call then [e.attempt] else []
  }

  /** The attempt numbers on which `call` was made, in order. */
  function AttemptsOf(events: seq<StepEvent>, call: Call): seq<int>
    decreases |events|
  {
    if events == [] then [] else Mark(events[0], call) + AttemptsOf(events[1..], call)
  }

  lemma {:induction false} AttemptsOfAppend(a: seq<StepEvent>, b: seq<StepEvent>, call: Call)
    ensures AttemptsOf(a + b, call) == AttemptsOf(a, call) + AttemptsOf(b, call)
    decreases |a|
  {
    if a == [] {
      assert a + b == b;
    } else {
      assert (a + b)[0] == a[0];
      assert (a + b)[1..] == a[1..] + b;
      AttemptsOfAppend(a[1..], b, call);
      AppendAssoc(Mark(a[0], call), AttemptsOf(a[1..], call), AttemptsOf(b, call));
    }
  }

  /** The attempt numbers `lo, lo + 1, ..., hi - 1`. */
  function Range(lo: int, hi: int): seq<int>
    decreases hi - lo
  {
    if lo >= hi then [] else [lo] + Range(lo + 1, hi)
  }

  predicate ActionFails(env: Env, phase: int, step: int, attempt: int) {
    !Dispatch(env.action, phase, step, attempt).success
  }

  /** Attempt `a` is the first whose action succeeds. */
  predicate FirstSuccessAt(env: Env, phase: int, step: int, a: int) {
    1 <= a <= MaxRetries &&
    !ActionFails(env, phase, step, a) &&
    forall k | 1 <= k < a :: ActionFails(env, phase, step, k)
  }

  /** Validation and commit both pass on attempt `a`. */
  predicate RecordedAt(env: Env, phase: int, step: int, a: int) {
    Validate(phase, step, env.world(Validating(phase, step, a))).ok &&
    env.world(Committing(phase, step, a)).answer(CommitAll).success
  }

  // ---------------------------------------------------------------------------
  // Properties of the retry machine

  lemma AttemptsOfPair(e: StepEvent, f: StepEvent, call: Call)
    ensures AttemptsOf([e], call) == Mark(e, call)
    ensures AttemptsOf([e, f], call) == Mark(e, call) + Mark(f, call)
  {
    assert [e][1..] == [];
    assert [e, f][1..] == [f];
    assert [f][1..] == [];
  }

  lemma AttemptsOfTriple(e: StepEvent, f: StepEvent, g: StepEvent, call: Call)
    ensures AttemptsOf([e, f, g], call) == Mark(e, call) + (Mark(f, call) + Mark(g, call))
  {
    assert [e, f, g][1..] == [f, g];
    AttemptsOfPair(f, g, call);
  }

  /** What one attempt records when its action fails. */
  lemma FailedAttempt(env: Env, phase: int, step: int, k: int)
    requires 1 <= k <= MaxRetries && ActionFails(env, phase, step, k)
    ensures var r := Attempt(env, phase, step, k);
            && !r.ok
            && (r.finished <==> k == MaxRetries)
            && AttemptsOf(r.events, ActionCall) == [k]
            && AttemptsOf(r.events, RecoveryCall) == (if k < MaxRetries then [k] else [])
            && AttemptsOf(r.events, ValidationCall) == []
            && AttemptsOf(r.events, CommitCall) == []
  {
    var outcome := Dispatch(env.action, phase, step, k);
    var r := Attempt(env, phase, step, k);
    if k < MaxRetries {
      var recovery := Recover(k, env.world(Recovering(phase, step, k)).files);
      assert r.events == [Acted(k, outcome), Recovered(k, recovery)];
      AttemptsOfPair(Acted(k, outcome), Recovered(k, recovery), ActionCall);
      AttemptsOfPair(Acted(k, outcome), Recovered(k, recovery), RecoveryCall);
      AttemptsOfPair(Acted(k, outcome), Recovered(k, recovery), ValidationCall);
      AttemptsOfPair(Acted(k, outcome), Recovered(k, recovery), CommitCall);
    } else {
      assert r.events == [Acted(k, outcome)];
      AttemptsOfPair(Acted(k, outcome), Acted(k, outcome), ActionCall);
      AttemptsOfPair(Acted(k, outcome), Acted(k, outcome), RecoveryCall);
      AttemptsOfPair(Acted(k, outcome), Acted(k, outcome), ValidationCall);
      AttemptsOfPair(Acted(k, outcome), Acted(k, outcome), CommitCall);
    }
  }

  /** What the attempt whose action succeeds records. */
  lemma SucceededAttempt(env: Env, phase: int, step: int, k: int)
    requires 1 <= k <= MaxRetries && !ActionFails(env, phase, step, k)
    ensures var r := Attempt(env, phase, step, k);
            && r.finished
            && (r.ok <==> RecordedAt(env, phase, step, k))
            && AttemptsOf(r.events, ActionCall) == [k]
            && AttemptsOf(r.events, RecoveryCall) == []
            && AttemptsOf(r.events, ValidationCall) == [k]
            && AttemptsOf(r.events, CommitCall) ==
               (if Validate(phase, step, env.world(Validating(phase, step, k))).ok then [k] else [])
  {
    if Validate(phase, step, env.world(Validating(phase, step, k))).ok {
      ValidatedAttempt(env, phase, step, k);
    } else {
      RejectedAttempt(env, phase, step, k);
    }
  }

  /** A successful action whose validation passes is validated and committed once, on its own attempt. */
  lemma ValidatedAttempt(env: Env, phase: int, step: int, k: int)
    requires 1 <= k <= MaxRetries && !ActionFails(env, phase, step, k)
    requires Validate(phase, step, env.world(Validating(phase, step, k))).ok
    ensures var r := Attempt(env, phase, step, k);
            && r.finished
            && (r.ok <==> RecordedAt(env, phase, step, k))
            && AttemptsOf(r.events, ActionCall) == [k]
            && AttemptsOf(r.events, RecoveryCall) == []
            && AttemptsOf(r.events, ValidationCall) == [k]
            && AttemptsOf(r.events, CommitCall) == [k]
  {
    var outcome := Dispatch(env.action, phase, step, k);
    var v := Validate(phase, step, env.world(Validating(phase, step, k)));
    var m := Committing(phase, step, k);
    var record := Commit(phase, step, outcome.message, outcome.files, env.world(m), env.clock(m));
    assert Attempt(env, phase, step, k).events == [Acted(k, outcome), Validated(k, v), Committed(k, record)];
    AttemptsOfTriple(Acted(k, outcome), Validated(k, v), Committed(k, record), ActionCall);
    AttemptsOfTriple(Acted(k, outcome), Validated(k, v), Committed(k, record), RecoveryCall);
    AttemptsOfTriple(Acted(k, outcome), Validated(k, v), Committed(k, record), ValidationCall);
    AttemptsOfTriple(Acted(k, outcome), Validated(k, v), Committed(k, record), CommitCall);
  }

  /** A successful action whose validation fails ends the step in failure, uncommitted and unrecovered. */
  lemma RejectedAttempt(env: Env, phase: int, step: int, k: int)
    requires 1 <= k <= MaxRetries && !ActionFails(env, phase, step, k)
    requires !Validate(phase, step, env.world(Validating(phase, step, k))).ok
    ensures var r := Attempt(env, phase, step, k);
            && r.finished && !r.ok
            && AttemptsOf(r.events, ActionCall) == [k]
            && AttemptsOf(r.events, RecoveryCall) == []
            && AttemptsOf(r.events, ValidationCall) == [k]
            && AttemptsOf(r.events, CommitCall) == []
  {
    var outcome := Dispatch(env.action, phase, step, k);
    var v := Validate(phase, step, env.world(Validating(phase, step, k)));
    assert Attempt(env, phase, step, k).events == [Acted(k, outcome), Validated(k, v)];
    AttemptsOfPair(Acted(k, outcome), Validated(k, v), ActionCall);
    AttemptsOfPair(Acted(k, outcome), Validated(k, v), RecoveryCall);
    AttemptsOfPair(Acted(k, outcome), Validated(k, v), ValidationCall);
    AttemptsOfPair(Acted(k, outcome), Validated(k, v), CommitCall);
  }

  /** The run from attempt `k` on, when attempt `k` does not finish the step. */
  lemma ContinuedRun(env: Env, phase: int, step: int, k: int, call: Call)
    requires 1 <= k < MaxRetries && !Attempt(env, phase, step, k).finished
    ensures AttemptsOf(AttemptsFrom(env, phase, step, k).events, call) ==
            AttemptsOf(Attempt(env, phase, step, k).events, call) + AttemptsOf(AttemptsFrom(env, phase, step, k + 1).events, call)
  {
    AttemptsOfAppend(Attempt(env, phase, step, k).events, AttemptsFrom(env, phase, step, k + 1).events, call);
  }

  lemma {:induction false} AllFailFrom(env: Env, phase: int, step: int, k: int)
    requires 1 <= k <= MaxRetries
    requires forall a | k <= a <= MaxRetries :: ActionFails(env, phase, step, a)
    ensures var r := AttemptsFrom(env, phase, step, k);
            && !r.ok
            && AttemptsOf(r.events, ActionCall) == Range(k, MaxRetries + 1)
            && AttemptsOf(r.events, RecoveryCall) == Range(k, MaxRetries)
            && AttemptsOf(r.events, ValidationCall) == []
            && AttemptsOf(r.events, CommitCall) == []
    decreases MaxRetries - k
  {
    FailedAttempt(env, phase, step, k);
    if k < MaxRetries {
      AllFailFrom(env, phase, step, k + 1);
      ContinuedRun(env, phase, step, k, ActionCall);
      ContinuedRun(env, phase, step, k, RecoveryCall);
      ContinuedRun(env, phase, step, k, ValidationCall);
      ContinuedRun(env, phase, step, k, CommitCall);
    }
  }

  /**
    Retry bound: when the action fails on every attempt, it is invoked on
    attempts 1, 2 and 3, recovery runs after attempts 1 and 2 only, nothing
    is validated or committed, and the step fails.
   */
  lemma RetryBound(env: Env, phase: int, step: int)
    requires forall a | 1 <= a <= MaxRetries :: ActionFails(env, phase, step, a)
    ensures var r := RunStep(env, phase, step);
            && !r.ok
            && AttemptsOf(r.events, ActionCall) == [1, 2, 3]
            && AttemptsOf(r.events, RecoveryCall) == [1, 2]
            && AttemptsOf(r.events, ValidationCall) == []
            && AttemptsOf(r.events, CommitCall) == []
  {
    AllFailFrom(env, phase, step, 1);
    assert Range(3, 4) == [3] && Range(3, 3) == [];
    assert Range(2, 4) == [2, 3] && Range(2, 3) == [2];
  }

  /** What the run from attempt `k` made when attempt `a` is the first from `k` whose action succeeds. */
  predicate FirstSuccessRun(env: Env, phase: int, step: int, k: int, a: int)
    requires 1 <= k <= MaxRetries
  {
    var r := AttemptsFrom(env, phase, step, k);
    && AttemptsOf(r.events, ActionCall) == Range(k, a + 1)
    && AttemptsOf(r.events, RecoveryCall) == Range(k, a)
    && AttemptsOf(r.events, ValidationCall) == [a]
    && AttemptsOf(r.events, CommitCall) ==
       (if Validate(phase, step, env.world(Validating(phase, step, a))).ok then [a] else [])
    && (r.ok <==> RecordedAt(env, phase, step, a))
  }

  lemma {:induction false} FirstSuccessFrom(env: Env, phase: int, step: int, k: int, a: int)
    requires 1 <= k <= a <= MaxRetries
    requires !ActionFails(env, phase, step, a)
    requires forall j | k <= j < a :: ActionFails(env, phase, step, j)
    ensures FirstSuccessRun(env, phase, step, k, a)
    decreases a - k, 1
  {
    if k < a {
      FirstSuccessAfterFailure(env, phase, step, k, a);
    } else {
      FirstSuccessHere(env, phase, step, a);
    }
  }

  /** Attempt `k` failed and attempt `a` is the first later one whose action succeeds. */
  lemma {:induction false} FirstSuccessAfterFailure(env: Env, phase: int, step: int, k: int, a: int)
    requires 1 <= k < a <= MaxRetries
    requires !ActionFails(env, phase, step, a)
    requires forall j | k <= j < a :: ActionFails(env, phase, step, j)
    ensures FirstSuccessRun(env, phase, step, k, a)
    decreases a - k, 0
  {
    var r := AttemptsFrom(env, phase, step, k);
    FailedAttempt(env, phase, step, k);
    FirstSuccessFrom(env, phase, step, k + 1, a);
    var rest := AttemptsFrom(env, phase, step, k + 1);
    assert r.ok == rest.ok;
    ContinuedRun(env, phase, step, k, ActionCall);
    ContinuedRun(env, phase, step, k, RecoveryCall);
    ContinuedRun(env, phase, step, k, ValidationCall);
    ContinuedRun(env, phase, step, k, CommitCall);
    assert Range(k, a + 1) == [k] + Range(k + 1, a + 1);
    assert Range(k, a) == [k] + Range(k + 1, a);
  }

  /** Attempt `a` is the first of the run and its action succeeds. */
  lemma FirstSuccessHere(env: Env, phase: int, step: int, a: int)
    requires 1 <= a <= MaxRetries
    requires !ActionFails(env, phase, step, a)
    ensures FirstSuccessRun(env, phase, step, a, a)
  {
    var here := Attempt(env, phase, step, a);
    SucceededAttempt(env, phase, step, a);
    assert AttemptsFrom(env, phase, step, a) == StepRun(here.ok, here.events);
    assert Range(a + 1, a + 1) == [] && Range(a, a) == [];
  }

  /**
    No retry after a successful action: once attempt `a` is the first whose
    action succeeds, no later attempt is made, recovery ran only after the
    earlier failures, validation runs once, and the step succeeds exactly when
    validation and the commit both pass on that same attempt.
   */
  lemma NoRetryAfterSuccessfulAction(env: Env, phase: int, step: int, a: int)
    requires FirstSuccessAt(env, phase, step, a)
    ensures var r := RunStep(env, phase, step);
            && AttemptsOf(r.events, ActionCall) == Range(1, a + 1)
            && AttemptsOf(r.events, RecoveryCall) == Range(1, a)
            && AttemptsOf(r.events, ValidationCall) == [a]
            && |AttemptsOf(r.events, CommitCall)| <= 1
            && (r.ok <==> RecordedAt(env, phase, step, a))
  {
    FirstSuccessFrom(env, phase, step, 1, a);
  }

  /**
    Success conditions: a step succeeds exactly when some attempt is the first
    whose action succeeds and both validation and the commit pass on it.
   */
  lemma SucceedsIffRecordedOnFirstSuccess(env: Env, phase: int, step: int)
    ensures RunStep(env, phase, step).ok <==>
            exists a :: FirstSuccessAt(env, phase, step, a) && RecordedAt(env, phase, step, a)
  {
    if !ActionFails(env, phase, step, 1) {
      assert FirstSuccessAt(env, phase, step, 1);
      FirstSuccessFrom(env, phase, step, 1, 1);
    } else if !ActionFails(env, phase, step, 2) {
      assert FirstSuccessAt(env, phase, step, 2);
      FirstSuccessFrom(env, phase, step, 1, 2);
    } else if !ActionFails(env, phase, step, 3) {
      assert FirstSuccessAt(env, phase, step, 3);
      FirstSuccessFrom(env, phase, step, 1, 3);
    } else {
      AllFailFrom(env, phase, step, 1);
    }
  }

  /** A placeholder step is attempted once, without recovery. */
  lemma PlaceholderAttemptedOnce(env: Env, phase: int, step: int)
    requires !IsImplemented(phase, step)
    ensures var r := RunStep(env, phase, step);
            && AttemptsOf(r.events, ActionCall) == [1]
            && AttemptsOf(r.events, RecoveryCall) == []
            && (r.ok <==> RecordedAt(env, phase, step, 1))
  {
    FirstSuccessFrom(env, phase, step, 1, 1);
    assert Range(1, 2) == [1];
  }

  /**
    The commit of a placeholder step records the placeholder message, with no
    changed files, stamped at the moment of the first attempt's commit.
   */
  lemma PlaceholderCommitMessage(env: Env, phase: int, step: int)
    requires !IsImplemented(phase, step)
    ensures var r := RunStep(env, phase, step);
            forall i | 0 <= i < |r.events| && r.events[i].Committed? ::
              r.events[i].record.message ==
                CommitMessage(phase, step, PlaceholderMessage(phase, step), [], env.clock(Committing(phase, step, 1)))
  {
    AttemptsFromUnfold(env, phase, step, 1);
  }
}
