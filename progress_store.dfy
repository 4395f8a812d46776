/**
  The progress file: the snapshot `_save_progress` writes as a JSON object and
  the part of it `_load_progress` reads back. Only the keys the core reads or
  derives from its counters are modelled; a key absent from a map is a key
  absent from the file.
 */
module ProgressStore {
  import opened Text
  import opened Policies

  datatype Option<T> = None | Some(value: T)

  /** The executor's position: the phase and step to run next and the number of steps completed. */
  datatype Counters = Counters(phase: int, step: int, completed: int)

  /** The counters of a fresh executor. */
  const InitialCounters := Counters(1, 1, 0)

  /**
    A Python dict of phase descriptions as the executor can hold it: the
    built-in table is keyed by integers; a table read back from JSON is keyed
    by the decimal strings JSON turned those integers into.
   */
  datatype PhaseTable = IntKeyed(byInt: map<int, string>) | TextKeyed(byText: map<string, string>)

  /** The integer-valued keys of the progress file that the core writes or reads. */
  datatype IntField = CurrentPhase | CurrentStep | CompletedSteps | TotalSteps | NextPhase | NextStep

  /** The string-valued keys of the progress file that depend on the executor's state. */
  datatype TextField = LastUpdated | ExecutionStatus | NextDescription | NextPhaseDescription

  /** The progress file's contents; `phases` is its `phase_descriptions` object, if any. */
  datatype ProgressDoc = ProgressDoc(
    ints: map<IntField, int>,
    texts: map<TextField, string>,
    phases: Option<map<string, string>>)

  /** What a snapshot records besides the counters: the run flag, the target, and the description tables. */
  datatype Settings = Settings(
    running: bool,
    total: int,
    steps: map<(int, int), string>,
    phases: PhaseTable)

  /** The `execution_status` a snapshot records. */
  function Status(running: bool): string {
    if running then "running" else "stopped"
  }

  /** JSON writes every key of an object as a string: integer keys become their decimal form. */
  function JsonObject(table: PhaseTable): map<string, string> {
    match table
    case IntKeyed(m) =>
      var keys := set n | n in m :: IntToString(n);
      assert forall k | k in keys :: ParseInt(k) in m by {
        forall k | k in keys ensures ParseInt(k) in m {
          var n :| n in m && IntToString(n) == k;
          ParseIntToString(n);
        }
      }
      map k | k in keys :: m[ParseInt(k)]
    case TextKeyed(j) => j
  }

  /** An integer-keyed table keeps every entry under the key's decimal form, and gains no other key. */
  lemma JsonObjectKeys(m: map<int, string>)
    ensures var j := JsonObject(IntKeyed(m));
            && (forall p :: IntToString(p) in j <==> p in m)
            && (forall p | p in m :: j[IntToString(p)] == m[p])
  {
    var j := JsonObject(IntKeyed(m));
    forall p | IntToString(p) in j ensures p in m {
      var n :| n in m && IntToString(n) == IntToString(p);
      IntToStringInjective(n, p);
    }
    forall p | p in m ensures j[IntToString(p)] == m[p] {
      ParseIntToString(p);
    }
  }

  // ---------------------------------------------------------------------------
  // Phase-description lookup

  /**
    The lookup as written: `phase_descriptions.get(current_phase, "Unknown
    Phase")` with an integer key, which a string-keyed table never answers.
   */
  function PhaseDescriptionAsWritten(table: PhaseTable, phase: int): (d: string)
    ensures table.TextKeyed? ==> d == "Unknown Phase"
  {
    match table
    case IntKeyed(m) => if phase in m then m[phase] else "Unknown Phase"
    case TextKeyed(_) => "Unknown Phase"
  }

  /** The lookup as intended: a string-keyed table is consulted under the phase's decimal form. */
  function PhaseDescription(table: PhaseTable, phase: int): string {
    match table
    case IntKeyed(m) => if phase in m then m[phase] else "Unknown Phase"
    case TextKeyed(j) => if IntToString(phase) in j then j[IntToString(phase)] else "Unknown Phase"
  }

  /**
    The corrected lookup answers as the code's lookup does on an integer-keyed
    table, and consults a string-keyed table under the phase's decimal form.
   */
  lemma PhaseDescriptionLookup(table: PhaseTable, phase: int)
    ensures table.IntKeyed? ==> PhaseDescription(table, phase) == PhaseDescriptionAsWritten(table, phase)
    ensures table.TextKeyed? && IntToString(phase) in table.byText ==>
              PhaseDescription(table, phase) == table.byText[IntToString(phase)]
    ensures table.TextKeyed? && IntToString(phase) !in table.byText ==> PhaseDescription(table, phase) == "Unknown Phase"
  {
  }

  // ---------------------------------------------------------------------------
  // Save and load

  /**
    The snapshot `_save_progress` writes for counters `c`, stamped `timestamp`.
    Its next-phase description uses the corrected lookup `PhaseDescription`.
   */
  function Snapshot(c: Counters, st: Settings, timestamp: string): ProgressDoc {
    ProgressDoc(
      map[CurrentPhase := c.phase, CurrentStep := c.step, CompletedSteps := c.completed,
          TotalSteps := st.total, NextPhase := c.phase, NextStep := c.step],
      map[LastUpdated := timestamp, ExecutionStatus := Status(st.running),
          NextDescription := StepDescription(st.steps, c.phase, c.step),
          NextPhaseDescription := PhaseDescription(st.phases, c.phase)],
      Some(JsonObject(st.phases)))
  }

  /**
    A snapshot holds every key the core writes: the target total, the next
    position (the current counters), the run status ("running" exactly while
    the run flag is set), the description of the next step, the next phase's
    description (by the corrected lookup `PhaseDescription`, not the code's
    `PhaseDescriptionAsWritten`) and the phase table as JSON stores it.
   */
  lemma SnapshotContents(c: Counters, st: Settings, timestamp: string)
    ensures var doc := Snapshot(c, st, timestamp);
            && doc.ints.Keys == {CurrentPhase, CurrentStep, CompletedSteps, TotalSteps, NextPhase, NextStep}
            && doc.texts.Keys == {LastUpdated, ExecutionStatus, NextDescription, NextPhaseDescription}
            && doc.ints[TotalSteps] == st.total
            && doc.ints[NextPhase] == c.phase && doc.ints[NextStep] == c.step
            && (doc.texts[ExecutionStatus] == "running" <==> st.running)
            && doc.texts[LastUpdated] == timestamp
            && doc.texts[NextDescription] == StepDescription(st.steps, c.phase, c.step)
            && doc.texts[NextPhaseDescription] == PhaseDescription(st.phases, c.phase)
            && doc.phases == Some(JsonObject(st.phases))
  {
  }

  /** `progress_data.get(key, default)` for an integer key. */
  function IntOr(doc: ProgressDoc, field: IntField, default: int): int {
    if field in doc.ints then doc.ints[field] else default
  }

  /** The counters `_load_progress` reads from a file: missing keys take 1, 1 and 0. */
  function Restore(doc: ProgressDoc): (c: Counters)
    ensures CurrentPhase !in doc.ints ==> c.phase == 1
    ensures CurrentStep !in doc.ints ==> c.step == 1
    ensures CompletedSteps !in doc.ints ==> c.completed == 0
    ensures CurrentPhase in doc.ints ==> c.phase == doc.ints[CurrentPhase]
    ensures CurrentStep in doc.ints ==> c.step == doc.ints[CurrentStep]
    ensures CompletedSteps in doc.ints ==> c.completed == doc.ints[CompletedSteps]
  {
    Counters(IntOr(doc, CurrentPhase, 1), IntOr(doc, CurrentStep, 1), IntOr(doc, CompletedSteps, 0))
  }

  /** The state `_load_progress` leaves: counters and phase table. */
  datatype Loaded = Loaded(counters: Counters, phases: PhaseTable)

  /** Loading from a file that may be missing, over the current counters `c` and table `table`. */
  function Load(file: Option<ProgressDoc>, c: Counters, table: PhaseTable): (r: Loaded)
    ensures file.None? ==> r == Loaded(c, table)
    ensures file.Some? ==> r.counters == Restore(file.value)
    ensures file.Some? && file.value.phases.None? ==> r.phases == table
  {
    match file
    case None => Loaded(c, table)
    case Some(doc) =>
      Loaded(Restore(doc), if doc.phases.Some? then TextKeyed(doc.phases.value) else table)
  }

  /**
    Save/load round trip: loading a snapshot gives back exactly the counters
    that were saved, whatever the executor held before, and the phase table
    as JSON hands it back.
   */
  lemma SaveLoadRoundTrip(c: Counters, st: Settings, timestamp: string, c0: Counters, table0: PhaseTable)
    ensures Load(Some(Snapshot(c, st, timestamp)), c0, table0) == Loaded(c, TextKeyed(JsonObject(st.phases)))
  {
  }

  /**
    As written, every phase description looked up after a resume is
    "Unknown Phase": the table came back from JSON with string keys.
   */
  lemma ResumedLookupAsWrittenIsUnknown(c: Counters, st: Settings, timestamp: string, c0: Counters, table0: PhaseTable, p: int)
    ensures PhaseDescriptionAsWritten(Load(Some(Snapshot(c, st, timestamp)), c0, table0).phases, p) == "Unknown Phase"
  {
  }

  /** The built-in table names phase 1, yet after a resume the as-written lookup no longer does. */
  lemma ResumedLookupAsWrittenLosesPhaseOne(timestamp: string)
    ensures var st := Settings(true, 400, map[], IntKeyed(map[1 := "Project Foundation & Git Setup"]));
            && PhaseDescriptionAsWritten(st.phases, 1) == "Project Foundation & Git Setup"
            && PhaseDescriptionAsWritten(Load(Some(Snapshot(Counters(1, 11, 10), st, timestamp)), InitialCounters, st.phases).phases, 1)
               == "Unknown Phase"
  {
  }

  /** The intended lookup gives the same description before and after a resume. */
  lemma ResumedLookupKeepsDescriptions(c: Counters, st: Settings, timestamp: string, c0: Counters, table0: PhaseTable, p: int)
    ensures PhaseDescription(Load(Some(Snapshot(c, st, timestamp)), c0, table0).phases, p) == PhaseDescription(st.phases, p)
  {
    if st.phases.IntKeyed? {
      JsonObjectKeys(st.phases.byInt);
    }
  }
}
