/** The loop that runs six planned runs of increasing levels against a host and
    records what it saw. */
module CompositionExecutor {
  import opened Wrappers
  import opened MachineInts
  import opened RunOrder
  import opened PressurePlan
  import opened CapacityEvaluation
  import ScopeCleanup

  datatype RunPlan = RunPlan(
    orderIndex: nat,
    variant: BenchmarkVariant,
    repetition: nat,
    seed: nat,
    levels: seq<PlannedLevel>)

  // -------------------------------------------------------------------
  // What a level shows
  // -------------------------------------------------------------------

  datatype ReportLifecycle =
    | Pass
    | BaselineNoReport
    | Missing
    | UnsafeMetadata
    | InvalidJson
    | SemanticFailure
    | LegacyGlobalPresent

  datatype TargetEvidence = TargetEvidence(
    hotProgress: bool,
    warmProgress: bool,
    coldInactiveBefore: bool,
    fingerprintsValid: bool,
    descriptorConsumedOnce: bool,
    validatorInvoked: bool,
    noMutation: bool,
    shadowGates: (bool, bool, bool, bool),
    requiredGatesPassed: bool,
    onlyColdReclaimed: bool,
    cleanupPassed: bool,
    lifecycle: ReportLifecycle,
    legacyAbsentBefore: bool,
    legacyAbsentAfter: bool,
    stateAbsent: bool)

  /** Everything the host answers for one level.  A heartbeat is the size it
      reported, or nothing when another message came instead; a counter is
      missing when it could not be read. */
  datatype Observation = Observation(
    requestedDelta: u64,
    actualTouched: u64,
    holdHeartbeat: Option<u64>,
    lateHeartbeat: Option<u64>,
    target: TargetEvidence,
    oom: Option<u64>,
    oomKill: Option<u64>,
    restored: bool)

  datatype Finish = Finish(workerSuccess: bool, cleanup: ScopeCleanup.Evidence, restored: bool)

  /** The host, by position of the run and of the level in the plan.  `None` and
      `false` stand for an error in any of the steps in between. */
  datatype Host = Host(
    opens: bool,
    starts: nat -> bool,
    level: (nat, nat) -> Option<Observation>,
    finish: nat -> Option<Finish>,
    persists: nat -> bool,
    seals: bool)

  /** A counter that could not be read counts as overflowing. */
  function Counter(c: Option<u64>): u64 {
    if c.Some? then c.value else U64_MAX
  }

  predicate LoadExact(level: PlannedLevel, o: Observation) {
    && o.actualTouched == level.targetTouchedBytes
    && o.holdHeartbeat == Some(level.targetTouchedBytes)
    && o.lateHeartbeat == Some(level.targetTouchedBytes)
    && Counter(o.oom) == 0
    && Counter(o.oomKill) == 0
    && o.restored
  }

  predicate VariantContract(variant: BenchmarkVariant, t: TargetEvidence) {
    match variant
    case CachyosBaseline =>
      && !t.validatorInvoked
      && t.noMutation
      && t.lifecycle == BaselineNoReport
      && t.legacyAbsentBefore && t.legacyAbsentAfter && t.stateAbsent
    case NemorCapacity =>
      && t.validatorInvoked
      && !t.noMutation
      && t.shadowGates == (true, true, true, true)
      && t.requiredGatesPassed
      && t.onlyColdReclaimed
      && t.lifecycle == Pass
      && t.legacyAbsentBefore && t.legacyAbsentAfter && t.stateAbsent
    case _ => false
  }

  predicate LevelIsSustainable(variant: BenchmarkVariant, level: PlannedLevel, o: Observation) {
    && LoadExact(level, o)
    && o.target.hotProgress && o.target.warmProgress
    && o.target.coldInactiveBefore
    && o.target.fingerprintsValid
    && o.target.cleanupPassed
    && VariantContract(variant, o.target)
  }

  /** The run stopped because the workload stopped progressing and for no other
      reason: everything else about the level is in order. */
  predicate HealthBoundary(expected: nat, level: PlannedLevel, o: Observation) {
    && expected > 3
    && LoadExact(level, o)
    && o.target.fingerprintsValid
    && o.target.descriptorConsumedOnce
    && o.target.cleanupPassed
    && (!o.target.hotProgress || !o.target.warmProgress)
  }

  function Judge(expected: nat, variant: BenchmarkVariant, level: PlannedLevel, o: Observation): LevelClassification {
    if LevelIsSustainable(variant, level, o) then Sustainable
    else if HealthBoundary(expected, level, o) then UnsustainableHealth
    else InvalidEvidence
  }

  function Record(expected: nat, variant: BenchmarkVariant, level: PlannedLevel, o: Observation): LevelEvidence {
    LevelEvidence(level.levelIndex, level.targetTouchedBytes, o.requestedDelta, o.actualTouched,
                  Judge(expected, variant, level, o))
  }

  /** A level that bounds the capacity, from below or from above, carried exactly
      the planned load with every counter readable and at zero; the two kinds are
      told apart by progress alone, and three levels never give an upper bound. */
  lemma BoundsCarryTheLoad(expected: nat, variant: BenchmarkVariant, level: PlannedLevel, o: Observation)
    ensures var c := Judge(expected, variant, level, o);
      && (c.Sustainable? || c.UnsustainableHealth? ==>
            && o.actualTouched == level.targetTouchedBytes
            && o.oom == Some(0) && o.oomKill == Some(0) && o.restored
            && o.target.fingerprintsValid && o.target.cleanupPassed)
      && (c.Sustainable? ==> o.target.hotProgress && o.target.warmProgress)
      && (c.UnsustainableHealth? <==> HealthBoundary(expected, level, o))
      && (c.UnsustainableHealth? ==> expected > 3 && !(o.target.hotProgress && o.target.warmProgress))
  {
  }

  /** When a level is sustainable, in full: the exact load held through both
      heartbeats without any out-of-memory event, the target in order, and, for the
      two variants measured, a validator that ran and passed every gate or one that
      never ran. */
  lemma SustainableExactly(expected: nat, variant: BenchmarkVariant, level: PlannedLevel, o: Observation)
    ensures var t := o.target;
      Judge(expected, variant, level, o) == Sustainable <==>
        && o.actualTouched == level.targetTouchedBytes
        && o.holdHeartbeat == Some(level.targetTouchedBytes) && o.lateHeartbeat == Some(level.targetTouchedBytes)
        && o.oom == Some(0) && o.oomKill == Some(0) && o.restored
        && t.hotProgress && t.warmProgress && t.coldInactiveBefore && t.fingerprintsValid && t.cleanupPassed
        && t.legacyAbsentBefore && t.legacyAbsentAfter && t.stateAbsent
        && (|| (variant == CachyosBaseline && !t.validatorInvoked && t.noMutation && t.lifecycle == BaselineNoReport)
            || (variant == NemorCapacity && t.validatorInvoked && !t.noMutation && t.lifecycle == Pass
                && t.shadowGates.0 && t.shadowGates.1 && t.shadowGates.2 && t.shadowGates.3
                && t.requiredGatesPassed && t.onlyColdReclaimed))
  {
  }

  /** When a level bounds the capacity from above: the exact load was held, the
      target was in order and read once, and hot or warm memory made no progress. */
  lemma UnsustainableExactly(expected: nat, variant: BenchmarkVariant, level: PlannedLevel, o: Observation)
    ensures var t := o.target;
      Judge(expected, variant, level, o) == UnsustainableHealth <==>
        && expected >= 4
        && o.actualTouched == level.targetTouchedBytes
        && o.holdHeartbeat == Some(level.targetTouchedBytes) && o.lateHeartbeat == Some(level.targetTouchedBytes)
        && o.oom == Some(0) && o.oomKill == Some(0) && o.restored
        && t.fingerprintsValid && t.descriptorConsumedOnce && t.cleanupPassed
        && !(t.hotProgress && t.warmProgress)
  {
  }

  // -------------------------------------------------------------------
  // One run
  // -------------------------------------------------------------------

  predicate AllButLastSustainable(levels: seq<LevelEvidence>) {
    forall j | 0 <= j < |levels| - 1 :: levels[j].classification.Sustainable?
  }

  /** The levels recorded so far are the first ones of the plan, none asking for
      less than the one before, each judged on what the host answered, and all but
      the last sustainable. */
  predicate RecordedPrefix(p: RunPlan, expected: nat, host: Host, run: nat, levels: seq<LevelEvidence>) {
    && |levels| <= |p.levels|
    && (forall j | 0 <= j < |levels| ::
          host.level(run, j).Some? && levels[j] == Record(expected, p.variant, p.levels[j], host.level(run, j).value))
    && (forall j | 0 < j < |levels| :: p.levels[j - 1].targetTouchedBytes <= p.levels[j].targetTouchedBytes)
    && AllButLastSustainable(levels)
  }

  /** Nothing more to do: the plan is exhausted, or the last level was not
      sustainable. */
  predicate Stopped(p: RunPlan, levels: seq<LevelEvidence>) {
    || |levels| == |p.levels|
    || (levels != [] && !levels[|levels| - 1].classification.Sustainable?)
  }

  /** Level `j` is reached and cannot be carried out: some step fails, or it asks
      for less than the level before it touched. */
  predicate Stuck(p: RunPlan, expected: nat, host: Host, run: nat, j: nat) {
    && j < |p.levels|
    && (forall i | 0 <= i < j ::
          host.level(run, i).Some? && LevelIsSustainable(p.variant, p.levels[i], host.level(run, i).value))
    && (|| host.level(run, j).None?
        || (j > 0 && p.levels[j - 1].targetTouchedBytes > p.levels[j].targetTouchedBytes))
  }

  /** Recording to the end means having been stuck nowhere. */
  lemma RecordedIsNeverStuck(p: RunPlan, expected: nat, host: Host, run: nat, levels: seq<LevelEvidence>)
    requires RecordedPrefix(p, expected, host, run, levels) && Stopped(p, levels)
    ensures forall j: nat :: !Stuck(p, expected, host, run, j)
  {
  }

  lemma RecordOneMore(p: RunPlan, expected: nat, host: Host, run: nat, levels: seq<LevelEvidence>)
    requires RecordedPrefix(p, expected, host, run, levels) && |levels| < |p.levels|
    requires forall l | l in levels :: l.classification.Sustainable?
    requires |levels| > 0 ==> p.levels[|levels| - 1].targetTouchedBytes <= p.levels[|levels|].targetTouchedBytes
    requires host.level(run, |levels|).Some?
    ensures RecordedPrefix(p, expected, host, run,
              levels + [Record(expected, p.variant, p.levels[|levels|], host.level(run, |levels|).value)])
  {
  }

  lemma StuckHere(p: RunPlan, expected: nat, host: Host, run: nat, levels: seq<LevelEvidence>)
    requires RecordedPrefix(p, expected, host, run, levels) && |levels| < |p.levels|
    requires forall l | l in levels :: l.classification.Sustainable?
    requires host.level(run, |levels|).None?
          || (|levels| > 0 && p.levels[|levels| - 1].targetTouchedBytes > p.levels[|levels|].targetTouchedBytes)
    ensures Stuck(p, expected, host, run, |levels|)
  {
  }

  method RunLevels(p: RunPlan, expected: nat, host: Host, run: nat) returns (r: Option<seq<LevelEvidence>>)
    ensures r.None? <==> exists j: nat :: Stuck(p, expected, host, run, j)
    ensures r.Some? ==> RecordedPrefix(p, expected, host, run, r.value) && Stopped(p, r.value)
  {
    var prior: u64 := 0;
    var levels: seq<LevelEvidence> := [];
    var j := 0;
    while j < |p.levels|
      invariant 0 <= j <= |p.levels| && |levels| == j
      invariant RecordedPrefix(p, expected, host, run, levels)
      invariant forall l | l in levels :: l.classification.Sustainable?
      invariant prior == if j == 0 then 0 else p.levels[j - 1].targetTouchedBytes
    {
      var level := p.levels[j];
      if level.targetTouchedBytes < prior || host.level(run, j).None? {
        StuckHere(p, expected, host, run, levels);
        return None;
      }
      var o := host.level(run, j).value;
      var sustainable := LevelIsSustainable(p.variant, level, o);
      RecordOneMore(p, expected, host, run, levels);
      levels := levels + [Record(expected, p.variant, level, o)];
      prior := o.actualTouched;
      if !sustainable {
        break;
      }
      j := j + 1;
    }
    RecordedIsNeverStuck(p, expected, host, run, levels);
    r := Some(levels);
  }

  predicate RunPasses(expected: nat, levels: seq<LevelEvidence>, finish: Finish) {
    var allSustainable := |levels| == expected && forall l | l in levels :: l.classification.Sustainable?;
    var observedBoundary :=
      expected > 3 && levels != [] && levels[|levels| - 1].classification.UnsustainableHealth?
      && AllButLastSustainable(levels);
    && (allSustainable || observedBoundary)
    && finish.workerSuccess
    && finish.cleanup.Passed()
    && finish.restored
  }

  /** The evidence of one run is the plan's run, what the host answered, and the
      judgement of both. */
  predicate RunRecorded(p: RunPlan, expected: nat, host: Host, run: nat, e: RunEvidence) {
    && host.starts(run)
    && RecordedPrefix(p, expected, host, run, e.levels)
    && Stopped(p, e.levels)
    && host.finish(run).Some?
    && var f := host.finish(run).value;
       && e.orderIndex == p.orderIndex && e.variant == p.variant && e.repetition == p.repetition && e.seed == p.seed
       && (e.passed <==> RunPasses(expected, e.levels, f))
       && e.scopeCleanupPassed == f.cleanup.Passed()
       && e.structuralRestorePassed == f.restored
       && (e.passed ==> host.persists(run))
  }

  /** When a recorded run passed: it finished well, and either every planned level
      is there and sustainable, or the last one recorded is unsustainable for its
      health alone. */
  lemma RunPassesExactly(p: RunPlan, expected: nat, host: Host, run: nat, e: RunEvidence)
    requires RunRecorded(p, expected, host, run, e)
    ensures var f := host.finish(run).value;
      e.passed <==>
        && f.workerSuccess && f.restored && f.cleanup.Passed()
        && (|| (|e.levels| == expected && forall l | l in e.levels :: l.classification == Sustainable)
            || (e.levels != [] && e.levels[|e.levels| - 1].classification == UnsustainableHealth))
  {
  }

  /** Some step of this run fails, so that the whole execution ends in an error:
      the start, a level, the finish, or writing the report of a run that passed. */
  ghost predicate RunAborts(p: RunPlan, expected: nat, host: Host, run: nat) {
    || !host.starts(run)
    || (exists j: nat :: Stuck(p, expected, host, run, j))
    || host.finish(run).None?
    || (!host.persists(run) && PassesSomehow(p, expected, host, run, host.finish(run).value))
  }

  ghost predicate PassesSomehow(p: RunPlan, expected: nat, host: Host, run: nat, f: Finish) {
    exists levels ::
      && RecordedPrefix(p, expected, host, run, levels)
      && Stopped(p, levels)
      && RunPasses(expected, levels, f)
  }

  method ExecuteRun(p: RunPlan, expected: nat, host: Host, run: nat) returns (r: Option<RunEvidence>)
    ensures r.None? <==> RunAborts(p, expected, host, run)
    ensures r.Some? ==> RunRecorded(p, expected, host, run, r.value)
  {
    if !host.starts(run) {
      return None;
    }
    var levels := RunLevels(p, expected, host, run);
    if levels.None? || host.finish(run).None? {
      return None;
    }
    var f := host.finish(run).value;
    var passes := RunPasses(expected, levels.value, f);
    if passes && !host.persists(run) {
      return None;
    }
    r := Some(RunEvidence(p.orderIndex, p.variant, p.repetition, p.seed, passes, levels.value, f.cleanup.Passed(),
                          f.restored));
    RecordedMeansCarriedOut(p, expected, host, run, r.value);
  }

  lemma RecordedIsUnique(p: RunPlan, expected: nat, host: Host, run: nat, e: RunEvidence, e': RunEvidence)
    requires RunRecorded(p, expected, host, run, e) && RunRecorded(p, expected, host, run, e')
    ensures e == e'
  {
  }

  /** A recorded run is one in which no step failed. */
  lemma RecordedMeansCarriedOut(p: RunPlan, expected: nat, host: Host, run: nat, e: RunEvidence)
    requires RunRecorded(p, expected, host, run, e)
    ensures !RunAborts(p, expected, host, run)
  {
  }

  // -------------------------------------------------------------------
  // The whole composition
  // -------------------------------------------------------------------

  const RUNS := 6

  datatype ExecutionState = Completed | InvalidRun

  datatype Execution = Execution(
    state: ExecutionState,
    runs: seq<RunEvidence>,
    plannedRuns: nat,
    completedRuns: nat,
    plannedLevels: nat,
    completedLevels: nat,
    cleanupPassed: bool,
    structuralRestorePassed: bool)

  function TotalLevels(runs: seq<RunEvidence>): nat {
    if runs == [] then 0 else TotalLevels(runs[..|runs| - 1]) + |runs[|runs| - 1].levels|
  }

  predicate PlanShape(plan: seq<RunPlan>, expected: nat) {
    && expected > 0
    && |plan| == RUNS
    && forall i | 0 <= i < |plan| :: |plan[i].levels| == expected
  }

  /** The runs recorded are the first ones of the plan; all passed except possibly
      the last, and execution goes on after every run that passed. */
  predicate RunsRecorded(plan: seq<RunPlan>, expected: nat, host: Host, runs: seq<RunEvidence>) {
    && |runs| <= |plan|
    && (forall i | 0 <= i < |runs| :: RunRecorded(plan[i], expected, host, i, runs[i]))
    && forall i | 0 <= i < |runs| - 1 :: runs[i].passed
  }

  predicate Finished(plan: seq<RunPlan>, runs: seq<RunEvidence>) {
    |runs| == |plan| || (runs != [] && !runs[|runs| - 1].passed)
  }

  function Passed(runs: seq<RunEvidence>): nat {
    if runs == [] then 0
    else if runs[|runs| - 1].passed then |runs|
    else |runs| - 1
  }

  /** The report of an execution that ran to its end. */
  predicate Faithful(plan: seq<RunPlan>, expected: nat, host: Host, x: Execution) {
    && PlanShape(plan, expected)
    && RunsRecorded(plan, expected, host, x.runs)
    && Finished(plan, x.runs)
    && x.plannedRuns == RUNS && x.plannedLevels == RUNS * expected
    && x.completedRuns == Passed(x.runs)
    && x.completedLevels == TotalLevels(x.runs)
    && x.state == (if x.completedRuns == RUNS then Completed else InvalidRun)
    && (x.cleanupPassed <==> x.state == Completed)
    && (x.structuralRestorePassed <==> x.state == Completed)
  }

  /** Why there is no report: the plan has the wrong shape, or some step of a run
      that was reached failed. */
  ghost predicate NoReport(plan: seq<RunPlan>, expected: nat, host: Host) {
    || !PlanShape(plan, expected)
    || !host.opens
    || !host.seals
    || exists runs: seq<RunEvidence> ::
          && RunsRecorded(plan, expected, host, runs)
          && |runs| < |plan|
          && Passed(runs) == |runs|
          && RunAborts(plan[|runs|], expected, host, |runs|)
  }

  lemma PassedRunSize(p: RunPlan, expected: nat, host: Host, run: nat, e: RunEvidence)
    requires |p.levels| == expected && RunRecorded(p, expected, host, run, e) && e.passed
    ensures expected <= 3 ==> |e.levels| == expected
  {
  }

  lemma RunsShrink(plan: seq<RunPlan>, expected: nat, host: Host, runs: seq<RunEvidence>)
    requires RunsRecorded(plan, expected, host, runs) && Passed(runs) == |runs| && runs != []
    ensures RunsRecorded(plan, expected, host, runs[..|runs| - 1])
    ensures Passed(runs[..|runs| - 1]) == |runs| - 1
  {
  }

  /** With at most three levels a passed run has them all, so six passed runs force
      six times as many levels: the second half of the final condition never
      decides anything. */
  lemma {:induction false} SixPassesForceAllLevels(plan: seq<RunPlan>, expected: nat, host: Host,
                                                   runs: seq<RunEvidence>)
    requires 0 < expected <= 3 && forall i | 0 <= i < |plan| :: |plan[i].levels| == expected
    requires RunsRecorded(plan, expected, host, runs) && Passed(runs) == |runs|
    ensures TotalLevels(runs) == |runs| * expected
  {
    if runs != [] {
      var last := |runs| - 1;
      RunsShrink(plan, expected, host, runs);
      SixPassesForceAllLevels(plan, expected, host, runs[..last]);
      PassedRunSize(plan[last], expected, host, last, runs[last]);
    }
  }

  lemma RunsExtend(plan: seq<RunPlan>, expected: nat, host: Host, runs: seq<RunEvidence>, e: RunEvidence)
    requires RunsRecorded(plan, expected, host, runs) && Passed(runs) == |runs| < |plan|
    requires RunRecorded(plan[|runs|], expected, host, |runs|, e)
    ensures RunsRecorded(plan, expected, host, runs + [e])
  {
  }

  lemma CountsExtend(runs: seq<RunEvidence>, e: RunEvidence)
    ensures TotalLevels(runs + [e]) == TotalLevels(runs) + |e.levels|
    ensures Passed(runs + [e]) == if e.passed then |runs| + 1 else |runs|
  {
  }

  lemma {:induction false} SameRuns(plan: seq<RunPlan>, expected: nat, host: Host, a: seq<RunEvidence>,
                                    b: seq<RunEvidence>)
    requires RunsRecorded(plan, expected, host, a) && RunsRecorded(plan, expected, host, b)
    ensures forall i | 0 <= i < |a| && i < |b| :: a[i] == b[i]
  {
  }

  /** A complete report leaves no run that was reached and failed in some step. */
  lemma RunsRecordedMeansNoAbort(plan: seq<RunPlan>, expected: nat, host: Host, runs: seq<RunEvidence>)
    requires RunsRecorded(plan, expected, host, runs) && Finished(plan, runs)
    ensures forall before: seq<RunEvidence> ::
              RunsRecorded(plan, expected, host, before) && |before| < |plan| && Passed(before) == |before| ==>
                !RunAborts(plan[|before|], expected, host, |before|)
  {
    forall before: seq<RunEvidence> |
      RunsRecorded(plan, expected, host, before) && |before| < |plan| && Passed(before) == |before|
      ensures !RunAborts(plan[|before|], expected, host, |before|)
    {
      SameRuns(plan, expected, host, before, runs);
      assert |before| < |runs|;
      RecordedMeansCarriedOut(plan[|before|], expected, host, |before|, runs[|before|]);
    }
  }

  method ExecuteRuns(plan: seq<RunPlan>, expected: nat, host: Host)
    returns (r: Option<seq<RunEvidence>>, completedRuns: nat, completedLevels: nat)
    requires PlanShape(plan, expected)
    ensures r.None? ==> NoReport(plan, expected, host)
    ensures r.Some? ==>
              && RunsRecorded(plan, expected, host, r.value) && Finished(plan, r.value)
              && completedRuns == Passed(r.value) && completedLevels == TotalLevels(r.value)
  {
    var runs: seq<RunEvidence> := [];
    completedRuns, completedLevels := 0, 0;
    var i := 0;
    while i < |plan|
      invariant 0 <= i <= |plan| && |runs| == i == completedRuns == Passed(runs)
      invariant RunsRecorded(plan, expected, host, runs)
      invariant completedLevels == TotalLevels(runs)
    {
      var run := ExecuteRun(plan[i], expected, host, i);
      if run.None? {
        return None, completedRuns, completedLevels;
      }
      RunsExtend(plan, expected, host, runs, run.value);
      CountsExtend(runs, run.value);
      runs := runs + [run.value];
      completedLevels := completedLevels + |run.value.levels|;
      if !run.value.passed {
        break;
      }
      completedRuns := completedRuns + 1;
      i := i + 1;
    }
    r := Some(runs);
  }

  method Execute(plan: seq<RunPlan>, expected: nat, host: Host) returns (r: Option<Execution>)
    ensures r.None? <==> NoReport(plan, expected, host)
    ensures r.Some? ==> Faithful(plan, expected, host, r.value)
  {
    if expected == 0 || |plan| != RUNS || (exists i | 0 <= i < |plan| :: |plan[i].levels| != expected)
       || !host.opens {
      return None;
    }
    var runs, completedRuns, completedLevels := ExecuteRuns(plan, expected, host);
    if runs.None? || !host.seals {
      return None;
    }
    if completedRuns == RUNS && expected <= 3 {
      SixPassesForceAllLevels(plan, expected, host, runs.value);
    }
    RunsRecordedMeansNoAbort(plan, expected, host, runs.value);
    var complete := completedRuns == RUNS && (expected > 3 || completedLevels == RUNS * expected);
    r := Some(Execution(if complete then Completed else InvalidRun, runs.value, RUNS, completedRuns, RUNS * expected,
                        completedLevels, complete, complete));
  }

  // -------------------------------------------------------------------
  // What a report says
  // -------------------------------------------------------------------

  /** A host that answers every question gets a report: a plan whose levels never
      shrink is never refused, because the next level is only asked for after the
      one before was touched exactly. */
  lemma AnsweringHostGetsReport(plan: seq<RunPlan>, expected: nat, host: Host)
    requires PlanShape(plan, expected)
    requires forall i, j | 0 <= i < RUNS && 0 < j < expected ::
               plan[i].levels[j - 1].targetTouchedBytes <= plan[i].levels[j].targetTouchedBytes
    requires host.opens && host.seals
    requires forall i | 0 <= i < RUNS :: host.starts(i) && host.finish(i).Some? && host.persists(i)
    requires forall i, j | 0 <= i < RUNS && 0 <= j < expected :: host.level(i, j).Some?
    ensures !NoReport(plan, expected, host)
  {
  }

  /** Two executions against the same host report the same. */
  lemma ReportIsUnique(plan: seq<RunPlan>, expected: nat, host: Host, x: Execution, x': Execution)
    requires Faithful(plan, expected, host, x) && Faithful(plan, expected, host, x')
    ensures x == x'
  {
    SameRunCount(plan, expected, host, x.runs, x'.runs);
    SameRunCount(plan, expected, host, x'.runs, x.runs);
    forall i | 0 <= i < |x.runs|
      ensures x.runs[i] == x'.runs[i]
    {
      RecordedIsUnique(plan[i], expected, host, i, x.runs[i], x'.runs[i]);
    }
    assert x.runs == x'.runs;
  }

  lemma SameRunCount(plan: seq<RunPlan>, expected: nat, host: Host, a: seq<RunEvidence>, b: seq<RunEvidence>)
    requires RunsRecorded(plan, expected, host, a) && Finished(plan, a)
    requires RunsRecorded(plan, expected, host, b) && Finished(plan, b)
    ensures |a| <= |b|
  {
  }
}
