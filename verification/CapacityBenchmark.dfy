/** From the prepared plan to the sealed verdict: order, executor, boundaries and
    evaluator together. */
module CapacityBenchmark {
  import opened Wrappers
  import opened MachineInts
  import opened RunOrder
  import opened OrderStatistics
  import opened PressurePlan
  import opened CapacitySearch
  import opened CapacityEvaluation
  import opened CompositionExecutor
  import ScopeCleanup

  /** Every pair of a variant and one of three repetitions, once, in some order. */
  ghost predicate IsRunOrder(order: seq<Item>) {
    && |order| == RUNS
    && Distinct(order)
    && forall v: BenchmarkVariant, rep: nat ::
         (v, rep) in order <==> (v == CachyosBaseline || v == NemorCapacity) && rep < REPETITIONS
  }

  /** The seeded shuffle gives such an order, whatever the seed. */
  lemma ShuffleGivesRunOrder(seed: bv64)
    ensures IsRunOrder(Order([CachyosBaseline, NemorCapacity], REPETITIONS, seed))
  {
    EveryPairOnce([CachyosBaseline, NemorCapacity], REPETITIONS, seed);
  }

  function PlanLevels(ladder: seq<u64>, seed: nat): (r: seq<PlannedLevel>)
    ensures |r| == |ladder|
    ensures forall j | 0 <= j < |ladder| :: r[j] == PlannedLevel(j, ladder[j], ladder[j], seed, Planned)
  {
    seq(|ladder|, j requires 0 <= j < |ladder| => PlannedLevel(j, ladder[j], ladder[j], seed, Planned))
  }

  /** The plan preparation writes down; `seeds` gives the seed shared by the runs
      of one repetition. */
  function PreparedPlan(order: seq<Item>, ladder: seq<u64>, seeds: nat -> nat): (r: seq<RunPlan>)
    ensures |r| == |order|
    ensures forall i | 0 <= i < |r| ::
              r[i] == RunPlan(i, order[i].0, order[i].1, seeds(order[i].1), PlanLevels(ladder, seeds(order[i].1)))
  {
    seq(|order|, i requires 0 <= i < |order| =>
      RunPlan(i, order[i].0, order[i].1, seeds(order[i].1), PlanLevels(ladder, seeds(order[i].1))))
  }

  predicate LevelsSupported(levels: seq<PlannedLevel>, ladder: seq<u64>, seed: nat) {
    && |levels| == |ladder|
    && forall j | 0 <= j < |levels| ::
         && levels[j].levelIndex == j
         && levels[j].targetLogicalBytes == ladder[j]
         && levels[j].targetTouchedBytes == ladder[j]
         && levels[j].seed == seed
         && levels[j].state == Planned
  }

  predicate RunPlanSupported(plan: seq<RunPlan>, order: seq<Item>, ladder: seq<u64>, seeds: nat -> nat) {
    && |plan| == |order|
    && forall i | 0 <= i < |plan| ::
         && plan[i].orderIndex == i
         && (plan[i].variant, plan[i].repetition) == order[i]
         && plan[i].seed == seeds(plan[i].repetition)
         && LevelsSupported(plan[i].levels, ladder, plan[i].seed)
  }

  /** The preflight accepts the plan preparation writes, and no other. */
  lemma OnlyThePreparedPlanIsSupported(plan: seq<RunPlan>, order: seq<Item>, ladder: seq<u64>, seeds: nat -> nat)
    ensures RunPlanSupported(plan, order, ladder, seeds) <==> plan == PreparedPlan(order, ladder, seeds)
  {
    if RunPlanSupported(plan, order, ladder, seeds) {
      forall i | 0 <= i < |plan|
        ensures plan[i] == PreparedPlan(order, ladder, seeds)[i]
      {
        assert plan[i].levels == PlanLevels(ladder, plan[i].seed);
      }
    }
  }

  // -------------------------------------------------------------------
  // Boundaries of runs that passed
  // -------------------------------------------------------------------

  predicate Increasing(levels: seq<LevelEvidence>) {
    forall i, j | 0 <= i < j < |levels| :: levels[i].targetTouchedBytes < levels[j].targetTouchedBytes
  }

  lemma {:induction false} HighestOfIncreasing(levels: seq<LevelEvidence>)
    requires levels != [] && Increasing(levels)
    requires forall j | 0 <= j < |levels| :: levels[j].classification.Sustainable?
    ensures Highest(levels) == Some(levels[|levels| - 1].targetTouchedBytes)
  {
    if |levels| > 1 {
      HighestOfIncreasing(levels[..|levels| - 1]);
    }
  }

  lemma HighestBeforeLast(levels: seq<LevelEvidence>)
    requires levels != [] && Increasing(levels) && AllButLastSustainable(levels)
    requires !levels[|levels| - 1].classification.Sustainable?
    ensures Highest(levels) == if |levels| == 1 then None else Some(levels[|levels| - 2].targetTouchedBytes)
  {
    var init := levels[..|levels| - 1];
    assert Highest(levels) == Highest(init);
    if init != [] {
      HighestOfIncreasing(init);
    }
  }

  lemma {:induction false} FirstIsLast(levels: seq<LevelEvidence>)
    requires levels != [] && AllButLastSustainable(levels)
    requires levels[|levels| - 1].classification.UnsustainableHealth?
    ensures FirstUnsustainable(levels) == Some(levels[|levels| - 1].targetTouchedBytes)
  {
    if |levels| > 1 {
      FirstIsLast(levels[1..]);
    }
  }

  lemma {:induction false} NoneUnsustainable(levels: seq<LevelEvidence>)
    requires forall j | 0 <= j < |levels| :: levels[j].classification.Sustainable?
    ensures FirstUnsustainable(levels) == None
  {
    if levels != [] {
      NoneUnsustainable(levels[1..]);
    }
  }

  /** A run that passed went up the ladder and stopped for a reason: either all ten
      levels were sustainable, or the last one tried is the first that was not. */
  ghost predicate SoundBoundary(ladder: seq<u64>, run: RunEvidence, b: Boundary)
    requires |ladder| == LEVEL_COUNT
  {
    && 0 < |run.levels| <= LEVEL_COUNT
    && (forall j | 0 <= j < |run.levels| :: run.levels[j].targetTouchedBytes == ladder[j])
    && AllButLastSustainable(run.levels)
    && b.valid
    && b.rightCensored == !b.boundaryObserved
    && b.completedLevels == |run.levels|
    && var last := |run.levels| - 1;
       if b.rightCensored then
         last == LEVEL_COUNT - 1 && b.highestSustainable == Some(ladder[last]) && b.firstUnsustainable == None
       else
         && b.firstUnsustainable == Some(ladder[last])
         && b.highestSustainable == (if last == 0 then None else Some(ladder[last - 1]))
  }

  predicate Climbs(ladder: seq<u64>) {
    && |ladder| == LEVEL_COUNT
    && (forall j | 0 <= j < LEVEL_COUNT :: 0 < ladder[j])
    && forall i, j | 0 <= i < j < LEVEL_COUNT :: ladder[i] < ladder[j]
  }

  /** The levels of a run that passed: up the ladder, sustainable, until the top or
      until the first that was not. */
  predicate ClimbedUntilStopped(ladder: seq<u64>, levels: seq<LevelEvidence>)
    requires |ladder| == LEVEL_COUNT
  {
    && 0 < |levels| <= LEVEL_COUNT
    && (forall j | 0 <= j < |levels| :: levels[j].targetTouchedBytes == ladder[j])
    && AllButLastSustainable(levels)
    && var last := levels[|levels| - 1].classification;
       last.UnsustainableHealth? || (last.Sustainable? && |levels| == LEVEL_COUNT)
  }

  lemma PassedRunClimbed(ladder: seq<u64>, p: RunPlan, host: Host, run: nat, e: RunEvidence)
    requires Climbs(ladder) && p.levels == PlanLevels(ladder, p.seed)
    requires RunRecorded(p, LEVEL_COUNT, host, run, e) && e.passed
    ensures ClimbedUntilStopped(ladder, e.levels)
  {
  }

  lemma ClimbHasSoundBoundary(ladder: seq<u64>, e: RunEvidence, ceiling: u64)
    requires Climbs(ladder) && ClimbedUntilStopped(ladder, e.levels)
    ensures SoundBoundary(ladder, e, BoundaryOf(e, ceiling))
  {
    var levels := e.levels;
    if levels[|levels| - 1].classification.Sustainable? {
      HighestOfIncreasing(levels);
      NoneUnsustainable(levels);
    } else {
      FirstIsLast(levels);
      HighestBeforeLast(levels);
    }
  }

  /** The ladder of a ceiling climbs. */
  lemma LadderClimbs(ceiling: u64, ladder: seq<u64>)
    requires LadderFits(ceiling) && |ladder| == LEVEL_COUNT
    requires forall i | 0 <= i < LEVEL_COUNT :: ladder[i] == Rung(ceiling / ALIGNMENT_BYTES, i)
    ensures Climbs(ladder) && ladder[LEVEL_COUNT - 1] == ceiling
  {
    LadderShape(ceiling);
    RungPositive(ceiling / ALIGNMENT_BYTES, LEVEL_COUNT - 1);
  }

  // -------------------------------------------------------------------
  // The whole benchmark
  // -------------------------------------------------------------------

  ghost predicate SixSoundRuns(order: seq<Item>, ladder: seq<u64>, runs: seq<RunEvidence>, ceiling: u64)
  {
    && IsRunOrder(order) && Climbs(ladder)
    && InOrder(order, runs)
    && forall i | 0 <= i < |runs| :: SoundBoundary(ladder, runs[i], BoundaryOf(runs[i], ceiling))
  }

  predicate InOrder(order: seq<Item>, runs: seq<RunEvidence>) {
    && |runs| == |order|
    && forall i | 0 <= i < |runs| :: (runs[i].variant, runs[i].repetition) == order[i]
  }

  /** What the executor reports as complete is six sound runs, in the seeded
      order. */
  lemma CompletedMeansSixSoundRuns(order: seq<Item>, ladder: seq<u64>, seeds: nat -> nat, host: Host, x: Execution,
                                   ceiling: u64)
    requires IsRunOrder(order) && Climbs(ladder) && Faithful(PreparedPlan(order, ladder, seeds), LEVEL_COUNT, host, x)
    requires x.completedRuns == RUNS
    ensures SixSoundRuns(order, ladder, x.runs, ceiling)
  {
    var plan := PreparedPlan(order, ladder, seeds);
    forall i | 0 <= i < |x.runs|
      ensures (x.runs[i].variant, x.runs[i].repetition) == order[i]
      ensures SoundBoundary(ladder, x.runs[i], BoundaryOf(x.runs[i], ceiling))
    {
      assert RunRecorded(plan[i], LEVEL_COUNT, host, i, x.runs[i]);
      PassedRunClimbed(ladder, plan[i], host, i, x.runs[i]);
      ClimbHasSoundBoundary(ladder, x.runs[i], ceiling);
    }
  }

  /** The lookup of a variant and repetition finds a run, and only that one. */
  lemma LookupIsUnique(order: seq<Item>, runs: seq<RunEvidence>, v: BenchmarkVariant, rep: nat)
    requires Distinct(order) && InOrder(order, runs) && (v, rep) in order
    ensures Position(runs, v, rep).Some?
    ensures forall i | 0 <= i < |runs| && runs[i].variant == v && runs[i].repetition == rep ::
              Position(runs, v, rep) == Some(i)
  {
  }

  /** The pair of one repetition comes from the two runs of that repetition. */
  ghost predicate PairOfRuns(runs: seq<RunEvidence>, ceiling: u64, p: Pair, rep: nat, b: nat, c: nat) {
    && b < |runs| && c < |runs|
    && runs[b].variant == CachyosBaseline && runs[b].repetition == rep
    && runs[c].variant == NemorCapacity && runs[c].repetition == rep
    && p == PairOf(BoundaryOf(runs[b], ceiling), BoundaryOf(runs[c], ceiling), rep)
  }

  /** The bounds of a pair are in order and above zero. */
  predicate Ordered(p: Pair) {
    && (p.baselineUpper.Some? ==> p.baselineLower < p.baselineUpper.value)
    && (p.capacityUpper.Some? ==> p.capacityLower < p.capacityUpper.value)
    && (p.baselineCensored <==> p.baselineUpper.None?)
    && (p.capacityCensored <==> p.capacityUpper.None?)
    && p.valid
  }

  lemma SoundPairIsOrdered(order: seq<Item>, ladder: seq<u64>, runs: seq<RunEvidence>, ceiling: u64, p: Pair,
                           rep: nat, b: nat, c: nat)
    requires SixSoundRuns(order, ladder, runs, ceiling) && PairOfRuns(runs, ceiling, p, rep, b, c)
    ensures Ordered(p)
    ensures p.baselineCensored <==> AllSustainable(runs[b].levels)
    ensures p.capacityCensored <==> AllSustainable(runs[c].levels)
  {
  }

  ghost predicate HasRuns(runs: seq<RunEvidence>, ceiling: u64, p: Pair, rep: nat) {
    exists b, c :: PairOfRuns(runs, ceiling, p, rep, b, c)
  }

  lemma PairIsThere(order: seq<Item>, ladder: seq<u64>, runs: seq<RunEvidence>, ceiling: u64, rep: nat)
    requires SixSoundRuns(order, ladder, runs, ceiling) && rep < REPETITIONS
    ensures |PairFor(runs, ceiling, rep)| == 1
    ensures HasRuns(runs, ceiling, PairFor(runs, ceiling, rep)[0], rep)
  {
    LookupIsUnique(order, runs, CachyosBaseline, rep);
    LookupIsUnique(order, runs, NemorCapacity, rep);
    var b, c := Position(runs, CachyosBaseline, rep).value, Position(runs, NemorCapacity, rep).value;
    assert PairOfRuns(runs, ceiling, PairFor(runs, ceiling, rep)[0], rep, b, c);
  }

  ghost predicate PairedUp(runs: seq<RunEvidence>, ceiling: u64, pairs: seq<Pair>) {
    && |pairs| == REPETITIONS
    && forall rep | 0 <= rep < REPETITIONS :: HasRuns(runs, ceiling, pairs[rep], rep)
  }

  lemma ThreeInARow(a: seq<Pair>, b: seq<Pair>, c: seq<Pair>)
    requires |a| == |b| == |c| == 1
    ensures a + b + c == [a[0], b[0], c[0]]
  {
  }

  lemma PairsAreThere(order: seq<Item>, ladder: seq<u64>, runs: seq<RunEvidence>, ceiling: u64)
    requires SixSoundRuns(order, ladder, runs, ceiling)
    ensures PairedUp(runs, ceiling, RunPairs(runs, ceiling))
  {
    PairIsThere(order, ladder, runs, ceiling, 0);
    PairIsThere(order, ladder, runs, ceiling, 1);
    PairIsThere(order, ladder, runs, ceiling, 2);
    var a, b, c := PairFor(runs, ceiling, 0), PairFor(runs, ceiling, 1), PairFor(runs, ceiling, 2);
    ThreeInARow(a, b, c);
    PairedUpByHand(runs, ceiling, a[0], b[0], c[0]);
  }

  lemma PairedUpByHand(runs: seq<RunEvidence>, ceiling: u64, a: Pair, b: Pair, c: Pair)
    requires HasRuns(runs, ceiling, a, 0) && HasRuns(runs, ceiling, b, 1) && HasRuns(runs, ceiling, c, 2)
    ensures PairedUp(runs, ceiling, [a, b, c])
  {
  }

  /** Some run has ten levels, all of them sustainable. */
  predicate SomeRunCensored(runs: seq<RunEvidence>) {
    exists i | 0 <= i < |runs| ::
      |runs[i].levels| == 10 && forall j | 0 <= j < 10 :: runs[i].levels[j].classification == Sustainable
  }

  /** The three pairs of six sound runs are valid and in order, and one of them is
      censored exactly when some run found all ten levels sustainable. */
  lemma PairsOfSoundRuns(order: seq<Item>, ladder: seq<u64>, runs: seq<RunEvidence>, ceiling: u64, pairs: seq<Pair>)
    requires SixSoundRuns(order, ladder, runs, ceiling) && PairedUp(runs, ceiling, pairs)
    ensures forall p | p in pairs :: Ordered(p)
    ensures AllValid(pairs)
    ensures AnyCensored(pairs) <==> SomeRunCensored(runs)
  {
    forall rep | 0 <= rep < |pairs|
      ensures Ordered(pairs[rep])
      ensures pairs[rep].baselineCensored || pairs[rep].capacityCensored ==> SomeRunCensored(runs)
    {
      assert HasRuns(runs, ceiling, pairs[rep], rep);
      var b, c :| PairOfRuns(runs, ceiling, pairs[rep], rep, b, c);
      SoundPairIsOrdered(order, ladder, runs, ceiling, pairs[rep], rep, b, c);
    }
    if i :| 0 <= i < |runs| && AllSustainable(runs[i].levels) {
      CensoredRunShows(order, ladder, runs, ceiling, pairs, i);
    }
  }

  lemma CensoredRunShows(order: seq<Item>, ladder: seq<u64>, runs: seq<RunEvidence>, ceiling: u64, pairs: seq<Pair>,
                         i: nat)
    requires SixSoundRuns(order, ladder, runs, ceiling) && PairedUp(runs, ceiling, pairs)
    requires i < |runs| && AllSustainable(runs[i].levels)
    ensures AnyCensored(pairs)
  {
    var v, rep := runs[i].variant, runs[i].repetition;
    assert (v, rep) in order by {
      assert order[i] == (v, rep);
    }
    assert HasRuns(runs, ceiling, pairs[rep], rep);
    var b, c :| PairOfRuns(runs, ceiling, pairs[rep], rep, b, c);
    SoundPairIsOrdered(order, ladder, runs, ceiling, pairs[rep], rep, b, c);
    LookupIsUnique(order, runs, v, rep);
    assert i == b || i == c;
  }

  lemma StateOfValidPairs(pairs: seq<Pair>)
    ensures Evaluated(pairs).state ==
            if !AllValid(pairs) then Invalid else if AnyCensored(pairs) then Censored else Complete
  {
  }

  /** Six completed runs are evaluated as complete or censored, never as invalid,
      and as censored exactly when some run found all ten levels sustainable. */
  lemma SixSoundRunsEvaluate(order: seq<Item>, ladder: seq<u64>, runs: seq<RunEvidence>, ceiling: u64)
    requires SixSoundRuns(order, ladder, runs, ceiling)
    ensures Evaluated(RunPairs(runs, ceiling)).state == if SomeRunCensored(runs) then Censored else Complete
  {
    var pairs := RunPairs(runs, ceiling);
    PairsAreThere(order, ladder, runs, ceiling);
    PairsOfSoundRuns(order, ladder, runs, ceiling, pairs);
    StateOfValidPairs(pairs);
  }

  /** Some positive capacity the observations of the pair allow. */
  ghost function Within(p: Pair): real {
    if p.capacityLower > 0 then p.capacityLower as real else 0.5
  }

  lemma SomeTruthFits(p: Pair)
    requires Ordered(p) && Honest(p) && p.possible.Some?
    ensures Brackets(p, p.baselineLower as real, Within(p))
  {
  }

  lemma FullMedianNeedsAll(valid: bool, values: seq<Option<i64>>)
    requires FullMedian(valid, values).Some? && |values| == REPETITIONS
    ensures forall i | 0 <= i < |values| :: values[i].Some?
  {
  }

  /** The two medians cannot contradict each other: the conservative one is never
      above the possible one.  For pairs of any origin, as long as their bounds are
      in order. */
  lemma MediansDoNotConflict(pairs: seq<Pair>)
    requires |pairs| == REPETITIONS && forall p | p in pairs :: Ordered(p) && Honest(p)
    ensures var e := Evaluated(pairs);
      e.conservative.Some? && e.possible.Some? ==> e.conservative.value <= e.possible.value
  {
    var e := Evaluated(pairs);
    if e.conservative.Some? && e.possible.Some? {
      FullMedianNeedsAll(AllValid(pairs), Possibles(pairs));
      var baselines := seq(|pairs|, i requires 0 <= i < |pairs| => pairs[i].baselineLower as real);
      var capacities := seq(|pairs|, i requires 0 <= i < |pairs| => Within(pairs[i]));
      forall i | 0 <= i < |pairs|
        ensures Brackets(pairs[i], baselines[i], capacities[i])
      {
        assert pairs[i] in pairs && Possibles(pairs)[i].Some?;
        SomeTruthFits(pairs[i]);
      }
      var gains := Gains(baselines, capacities);
      var m := KthExists(gains, |gains| / 2);
      VerdictIsSound(pairs, baselines, capacities, m);
    }
  }

  /** A capacity agrees with every level recorded in the runs of one variant and
      repetition: none above it was sustained, none within it failed. */
  ghost predicate Agrees(runs: seq<RunEvidence>, v: BenchmarkVariant, rep: nat, truth: real) {
    forall i, j | 0 <= i < |runs| && runs[i].variant == v && runs[i].repetition == rep && 0 <= j < |runs[i].levels| ::
      var l := runs[i].levels[j];
      && (l.classification.Sustainable? ==> l.targetTouchedBytes as real <= truth)
      && (l.classification.UnsustainableHealth? ==> truth < l.targetTouchedBytes as real)
  }

  ghost predicate AgreeWithRuns(runs: seq<RunEvidence>, baselines: seq<real>, capacities: seq<real>) {
    && |baselines| == |capacities| == 3
    && forall rep | 0 <= rep < 3 ::
         && baselines[rep] > 0.0 && Agrees(runs, CachyosBaseline, rep, baselines[rep])
         && capacities[rep] > 0.0 && Agrees(runs, NemorCapacity, rep, capacities[rep])
  }

  /** Agreeing with the levels of a run is lying in the bracket they show. */
  lemma AgreesWithin(runs: seq<RunEvidence>, i: nat, truth: real, b: Bracket)
    requires i < |runs| && Agrees(runs, runs[i].variant, runs[i].repetition, truth)
    requires Shows(runs[i].levels, b) && truth > 0.0
    ensures b.lower as real <= truth && (b.upper.Some? ==> truth < b.upper.value as real)
  {
    var levels := runs[i].levels;
    if b.upper.Some? {
      var j :| FailsFirst(levels, j) && levels[j].targetTouchedBytes == b.upper.value;
    }
    if b.lower > 0 {
      var l :| l in levels && l.classification.Sustainable? && l.targetTouchedBytes == b.lower;
      var j :| 0 <= j < |levels| && levels[j] == l;
    }
  }

  lemma PairAgrees(runs: seq<RunEvidence>, ceiling: u64, p: Pair, rep: nat, baseline: real, capacity: real)
    requires HasRuns(runs, ceiling, p, rep) && baseline > 0.0 && capacity > 0.0
    requires Agrees(runs, CachyosBaseline, rep, baseline) && Agrees(runs, NemorCapacity, rep, capacity)
    ensures Brackets(p, baseline, capacity)
  {
    var b: nat, c: nat :| PairOfRuns(runs, ceiling, p, rep, b, c);
    var low, high := PairBracket(runs[b], ceiling), PairBracket(runs[c], ceiling);
    BoundaryShows(runs[b], ceiling, low);
    BoundaryShows(runs[c], ceiling, high);
    AgreesWithin(runs, b, baseline, low);
    AgreesWithin(runs, c, capacity, high);
  }

  lemma AgreementFits(runs: seq<RunEvidence>, ceiling: u64, pairs: seq<Pair>, baselines: seq<real>,
                      capacities: seq<real>)
    requires PairedUp(runs, ceiling, pairs) && AgreeWithRuns(runs, baselines, capacities)
    ensures TruthFits(pairs, baselines, capacities)
  {
    forall rep | 0 <= rep < |pairs|
      ensures Brackets(pairs[rep], baselines[rep], capacities[rep])
    {
      PairAgrees(runs, ceiling, pairs[rep], rep, baselines[rep], capacities[rep]);
    }
  }

  ghost function PairBracket(run: RunEvidence, ceiling: u64): Bracket {
    Bracket(OrZero(BoundaryOf(run, ceiling).highestSustainable), BoundaryOf(run, ceiling).firstUnsustainable)
  }

  /** All of it: for every order, ladder and host, when the executor completes its
      six runs, the verdict drawn from them is true of any capacities that agree
      with every level recorded, and never both met and not met. */
  lemma CompletedVerdictIsSound(order: seq<Item>, ladder: seq<u64>, seeds: nat -> nat, host: Host, x: Execution,
                                ceiling: u64, baselines: seq<real>, capacities: seq<real>, m: real)
    requires IsRunOrder(order) && Climbs(ladder)
    requires Faithful(PreparedPlan(order, ladder, seeds), LEVEL_COUNT, host, x) && x.completedRuns == RUNS
    requires AgreeWithRuns(x.runs, baselines, capacities) && IsMedian(Gains(baselines, capacities), m)
    ensures var e := Evaluated(RunPairs(x.runs, ceiling));
      && e.state == (if SomeRunCensored(x.runs) then Censored else Complete)
      && (e.status == DefinitivelyMet ==> m >= 30.0)
      && (e.status == DefinitivelyNotMet ==> m < 30.0)
      && (e.conservative.Some? ==> e.conservative.value as real <= m)
      && (e.possible.Some? ==> m <= e.possible.value as real)
  {
    var pairs := RunPairs(x.runs, ceiling);
    CompletedMeansSixSoundRuns(order, ladder, seeds, host, x, ceiling);
    SixSoundRunsEvaluate(order, ladder, x.runs, ceiling);
    PairsAreThere(order, ladder, x.runs, ceiling);
    PairsAreHonest(x.runs, ceiling);
    AgreementFits(x.runs, ceiling, pairs, baselines, capacities);
    VerdictIsSound(pairs, baselines, capacities, m);
  }

  /** The run of a variant and repetition shows this bracket. */
  ghost predicate RunShows(runs: seq<RunEvidence>, v: BenchmarkVariant, rep: nat, b: Bracket) {
    exists i :: 0 <= i < |runs| && runs[i].variant == v && runs[i].repetition == rep && Shows(runs[i].levels, b)
  }

  ghost predicate RunsShow(runs: seq<RunEvidence>, baselines: seq<Bracket>, capacities: seq<Bracket>) {
    && |baselines| == |capacities| == 3
    && forall rep | 0 <= rep < 3 ::
         RunShows(runs, CachyosBaseline, rep, baselines[rep]) && RunShows(runs, NemorCapacity, rep, capacities[rep])
  }

  lemma ShownByThisRun(order: seq<Item>, runs: seq<RunEvidence>, ceiling: u64, i: nat, b: Bracket)
    requires Distinct(order) && InOrder(order, runs) && i < |runs|
    requires RunShows(runs, runs[i].variant, runs[i].repetition, b)
    ensures b == PairBracket(runs[i], ceiling)
  {
    var k :| 0 <= k < |runs| && runs[k].variant == runs[i].variant && runs[k].repetition == runs[i].repetition
             && Shows(runs[k].levels, b);
    assert order[k] == (runs[k].variant, runs[k].repetition) && order[i] == (runs[i].variant, runs[i].repetition);
    BoundaryShows(runs[i], ceiling, b);
  }

  lemma BracketOnLadder(ladder: seq<u64>, run: RunEvidence, ceiling: u64)
    requires Climbs(ladder) && SoundBoundary(ladder, run, BoundaryOf(run, ceiling)) && 200 <= ladder[0]
    ensures var b := PairBracket(run, ceiling);
      (b.upper.Some? ==> b.upper.value >= 200) && (b.lower == 0 || b.lower >= 200)
  {
    assert forall j | 0 <= j < LEVEL_COUNT :: ladder[0] <= ladder[j];
  }

  /** The run of a sound pair shows its half of the pair. */
  lemma SoundRunShows(order: seq<Item>, ladder: seq<u64>, runs: seq<RunEvidence>, ceiling: u64, i: nat, b: Bracket)
    requires SixSoundRuns(order, ladder, runs, ceiling) && i < |runs| && 200 <= ladder[0]
    requires RunShows(runs, runs[i].variant, runs[i].repetition, b)
    ensures b == PairBracket(runs[i], ceiling)
    ensures (b.upper.Some? ==> b.upper.value >= 200) && (b.lower == 0 || b.lower >= 200)
  {
    ShownByThisRun(order, runs, ceiling, i, b);
    BracketOnLadder(ladder, runs[i], ceiling);
  }

  lemma PairShows(order: seq<Item>, ladder: seq<u64>, runs: seq<RunEvidence>, ceiling: u64, p: Pair, rep: nat,
                  b: Bracket, c: Bracket)
    requires SixSoundRuns(order, ladder, runs, ceiling) && HasRuns(runs, ceiling, p, rep)
    requires RunShows(runs, CachyosBaseline, rep, b) && RunShows(runs, NemorCapacity, rep, c)
    requires 200 <= ladder[0]
    ensures Bracket(p.baselineLower, p.baselineUpper) == b && Bracket(p.capacityLower, p.capacityUpper) == c
    ensures Substantial(p)
  {
    var i, j :| PairOfRuns(runs, ceiling, p, rep, i, j);
    SoundRunShows(order, ladder, runs, ceiling, i, b);
    SoundRunShows(order, ladder, runs, ceiling, j, c);
  }

  /** Of three sound pairs that show these brackets. */
  lemma PairsShow(order: seq<Item>, ladder: seq<u64>, runs: seq<RunEvidence>, ceiling: u64, pairs: seq<Pair>,
                  b: seq<Bracket>, c: seq<Bracket>)
    requires SixSoundRuns(order, ladder, runs, ceiling) && PairedUp(runs, ceiling, pairs) && 200 <= ladder[0]
    requires RunsShow(runs, b, c)
    ensures forall rep | 0 <= rep < 3 ::
              && Bracket(pairs[rep].baselineLower, pairs[rep].baselineUpper) == b[rep]
              && Bracket(pairs[rep].capacityLower, pairs[rep].capacityUpper) == c[rep]
              && Substantial(pairs[rep])
  {
    forall rep | 0 <= rep < 3
      ensures Bracket(pairs[rep].baselineLower, pairs[rep].baselineUpper) == b[rep]
      ensures Bracket(pairs[rep].capacityLower, pairs[rep].capacityUpper) == c[rep]
      ensures Substantial(pairs[rep])
    {
      PairShows(order, ladder, runs, ceiling, pairs[rep], rep, b[rep], c[rep]);
    }
  }

  predicate ThreeRunsMeet(b: seq<Bracket>, c: seq<Bracket>)
    requires |b| == |c| == 3
  {
    && b[0].upper.Some? && b[1].upper.Some? && b[2].upper.Some?
    && TwoOfThree(100 * c[0].lower >= 130 * b[0].upper.value, 100 * c[1].lower >= 130 * b[1].upper.value,
                  100 * c[2].lower >= 130 * b[2].upper.value)
  }

  predicate ThreeRunsMiss(b: seq<Bracket>, c: seq<Bracket>)
    requires |b| == |c| == 3
  {
    && c[0].upper.Some? && c[1].upper.Some? && c[2].upper.Some?
    && b[0].lower > 0 && b[1].lower > 0 && b[2].lower > 0
    && TwoOfThree(100 * c[0].upper.value <= 129 * b[0].lower, 100 * c[1].upper.value <= 129 * b[1].lower,
                  100 * c[2].upper.value <= 129 * b[2].lower)
  }

  lemma BracketsOfPairs(pairs: seq<Pair>, b: seq<Bracket>, c: seq<Bracket>)
    requires |pairs| == |b| == |c| == 3
    requires forall rep | 0 <= rep < 3 ::
              && Bracket(pairs[rep].baselineLower, pairs[rep].baselineUpper) == b[rep]
              && Bracket(pairs[rep].capacityLower, pairs[rep].capacityUpper) == c[rep]
    ensures ThreePairsMeet(pairs) <==> ThreeRunsMeet(b, c)
    ensures ThreePairsMiss(pairs) <==> ThreeRunsMiss(b, c)
  {
  }

  lemma NotBoth(pairs: seq<Pair>)
    requires |pairs| == 3 && forall p | p in pairs :: Ordered(p)
    ensures !(ThreePairsMeet(pairs) && ThreePairsMiss(pairs))
  {
    assert pairs[0] in pairs && pairs[1] in pairs && pairs[2] in pairs;
  }

  lemma StatusOfBrackets(pairs: seq<Pair>, b: seq<Bracket>, c: seq<Bracket>)
    requires |pairs| == |b| == |c| == 3 && AllValid(pairs) && forall p | p in pairs :: Honest(p) && Ordered(p)
    requires forall rep | 0 <= rep < 3 ::
              && Bracket(pairs[rep].baselineLower, pairs[rep].baselineUpper) == b[rep]
              && Bracket(pairs[rep].capacityLower, pairs[rep].capacityUpper) == c[rep]
              && Substantial(pairs[rep])
    ensures (Evaluated(pairs).status == DefinitivelyMet <==> ThreePairsMeet(pairs))
    ensures (Evaluated(pairs).status == DefinitivelyNotMet <==> ThreePairsMiss(pairs))
    ensures ThreePairsMeet(pairs) <==> ThreeRunsMeet(b, c)
    ensures ThreePairsMiss(pairs) <==> ThreeRunsMiss(b, c)
  {
    StatusExactly(pairs);
    NotBoth(pairs);
    BracketsOfPairs(pairs, b, c);
  }

  /** When the verdict is definite, read off the levels: met, when every baseline
      failed some level and in two repetitions the capacity run sustained at least
      1.3 times that size; not met, when every capacity run failed some level and
      every baseline sustained one, and in two repetitions the former is at most
      1.29 times the latter. */
  lemma VerdictExactly(order: seq<Item>, top: u64, ladder: seq<u64>, seeds: nat -> nat, host: Host, x: Execution,
                       ceiling: u64, b: seq<Bracket>, c: seq<Bracket>)
    requires IsRunOrder(order) && LadderFits(top) && |ladder| == LEVEL_COUNT
    requires forall i | 0 <= i < LEVEL_COUNT :: ladder[i] == Rung(top / ALIGNMENT_BYTES, i)
    requires Faithful(PreparedPlan(order, ladder, seeds), LEVEL_COUNT, host, x) && x.completedRuns == RUNS
    requires RunsShow(x.runs, b, c)
    ensures Evaluated(RunPairs(x.runs, ceiling)).status == DefinitivelyMet <==> ThreeRunsMeet(b, c)
    ensures Evaluated(RunPairs(x.runs, ceiling)).status == DefinitivelyNotMet <==> ThreeRunsMiss(b, c)
  {
    var pairs := RunPairs(x.runs, ceiling);
    LadderClimbs(top, ladder);
    FirstRung(top);
    CompletedMeansSixSoundRuns(order, ladder, seeds, host, x, ceiling);
    PairsAreThere(order, ladder, x.runs, ceiling);
    PairsOfSoundRuns(order, ladder, x.runs, ceiling, pairs);
    PairsAreHonest(x.runs, ceiling);
    PairsShow(order, ladder, x.runs, ceiling, pairs, b, c);
    StatusOfBrackets(pairs, b, c);
  }

  // -------------------------------------------------------------------
  // The report
  // -------------------------------------------------------------------

  datatype BenchmarkState = BenchmarkComplete | BenchmarkCensored | BenchmarkInvalid

  datatype BenchmarkEvidence = BenchmarkEvidence(
    state: BenchmarkState,
    execution: Option<Execution>,
    boundaries: seq<Boundary>,
    evaluation: Option<Evaluation>,
    cleanupPassed: bool,
    structuralRestorePassed: bool)

  /** The contract the evidence is verified against before it is written. */
  predicate Verified(e: BenchmarkEvidence) {
    !e.state.BenchmarkInvalid? ==> e.cleanupPassed && e.structuralRestorePassed
  }

  function StateFor(state: EvaluationState): BenchmarkState {
    match state
    case Complete => BenchmarkComplete
    case Censored => BenchmarkCensored
    case Invalid => BenchmarkInvalid
  }

  ghost predicate Written(x: Execution, ceiling: u64, e: BenchmarkEvidence) {
    && e.execution == Some(x)
    && e.evaluation == Some(Evaluated(RunPairs(x.runs, ceiling)))
    && e.state == StateFor(e.evaluation.value.state)
    && |e.boundaries| == |x.runs|
    && (forall i | 0 <= i < |x.runs| :: e.boundaries[i] == BoundaryOf(x.runs[i], ceiling))
    && e.cleanupPassed == x.cleanupPassed
    && e.structuralRestorePassed == x.structuralRestorePassed
  }

  /** All six runs are there and the last one climbed, whether it passed or not. */
  ghost predicate SixClimbed(ladder: seq<u64>, runs: seq<RunEvidence>)
    requires |ladder| == LEVEL_COUNT
  {
    |runs| == RUNS && ClimbedUntilStopped(ladder, runs[RUNS - 1].levels)
  }

  predicate FinishedWell(f: Finish) {
    f.workerSuccess && f.cleanup.Passed() && f.restored
  }

  /** What becomes of an execution that was reported: its evidence is written,
      unless all six runs are there, the last one climbed, and only its worker, its
      cleanup or its restore failed. */
  ghost predicate Reported(ladder: seq<u64>, plan: seq<RunPlan>, host: Host, ceiling: u64, x: Execution,
                           r: Option<BenchmarkEvidence>)
    requires |ladder| == LEVEL_COUNT
  {
    && Faithful(plan, LEVEL_COUNT, host, x)
    && (r.Some? ==> Written(x, ceiling, r.value))
    && (x.completedRuns == RUNS <==> r.Some? && !r.value.state.BenchmarkInvalid?)
    && (x.completedRuns == RUNS ==>
          r.value.state == if SomeRunCensored(x.runs) then BenchmarkCensored else BenchmarkComplete)
    && (r.None? <==>
          SixClimbed(ladder, x.runs) && host.finish(RUNS - 1).Some? && !FinishedWell(host.finish(RUNS - 1).value))
  }

  lemma RunOfPlan(order: seq<Item>, ladder: seq<u64>, seeds: nat -> nat, host: Host, x: Execution, i: nat)
    requires IsRunOrder(order) && Climbs(ladder) && Faithful(PreparedPlan(order, ladder, seeds), LEVEL_COUNT, host, x)
    requires i < |x.runs|
    ensures var p := PreparedPlan(order, ladder, seeds)[i];
      && p.levels == PlanLevels(ladder, p.seed) && RunRecorded(p, LEVEL_COUNT, host, i, x.runs[i])
    ensures (x.runs[i].variant, x.runs[i].repetition) == order[i]
    ensures i < |x.runs| - 1 ==> x.runs[i].passed
  {
  }

  lemma ClimbedRunsAreSound(order: seq<Item>, ladder: seq<u64>, seeds: nat -> nat, host: Host, x: Execution,
                            ceiling: u64)
    requires IsRunOrder(order) && Climbs(ladder) && Faithful(PreparedPlan(order, ladder, seeds), LEVEL_COUNT, host, x)
    requires SixClimbed(ladder, x.runs)
    ensures SixSoundRuns(order, ladder, x.runs, ceiling)
  {
    forall i | 0 <= i < |x.runs|
      ensures (x.runs[i].variant, x.runs[i].repetition) == order[i]
      ensures SoundBoundary(ladder, x.runs[i], BoundaryOf(x.runs[i], ceiling))
    {
      RunOfPlan(order, ladder, seeds, host, x, i);
      if x.runs[i].passed {
        PassedRunClimbed(ladder, PreparedPlan(order, ladder, seeds)[i], host, i, x.runs[i]);
      }
      ClimbHasSoundBoundary(ladder, x.runs[i], ceiling);
    }
  }

  /** A run that is missing leaves a repetition without its pair. */
  lemma MissingRunMissesPair(order: seq<Item>, runs: seq<RunEvidence>, ceiling: u64)
    requires IsRunOrder(order) && |runs| < RUNS
    requires forall i | 0 <= i < |runs| :: (runs[i].variant, runs[i].repetition) == order[i]
    ensures |RunPairs(runs, ceiling)| < REPETITIONS
  {
    var last := order[RUNS - 1];
    assert last in order;
    assert (last.0, last.1) in order;
    assert Position(runs, last.0, last.1).None?;
    assert PairFor(runs, ceiling, last.1) == [];
  }

  /** A boundary that counts is that of a climb. */
  lemma ValidBoundaryClimbed(ladder: seq<u64>, p: RunPlan, host: Host, run: nat, e: RunEvidence, ceiling: u64)
    requires Climbs(ladder) && p.levels == PlanLevels(ladder, p.seed)
    requires RunRecorded(p, LEVEL_COUNT, host, run, e) && BoundaryOf(e, ceiling).valid
    ensures ClimbedUntilStopped(ladder, e.levels)
  {
    FirstIsMember(e.levels);
    forall j | 0 <= j < |e.levels|
      ensures e.levels[j].targetTouchedBytes == ladder[j]
    {
      assert e.levels[j] == Record(LEVEL_COUNT, p.variant, p.levels[j], host.level(run, j).value);
    }
  }

  lemma {:induction false} FirstIsMember(levels: seq<LevelEvidence>)
    ensures FirstUnsustainable(levels).Some? ==>
              exists j :: 0 <= j < |levels| && levels[j].classification.UnsustainableHealth?
  {
    if levels != [] && !levels[0].classification.UnsustainableHealth? {
      FirstIsMember(levels[1..]);
      if FirstUnsustainable(levels).Some? {
        var j :| 0 <= j < |levels[1..]| && levels[1..][j].classification.UnsustainableHealth?;
        assert levels[j + 1].classification.UnsustainableHealth?;
      }
    }
  }

  lemma PairsBoundTheirRuns(order: seq<Item>, runs: seq<RunEvidence>, ceiling: u64, i: nat)
    requires IsRunOrder(order) && InOrder(order, runs) && i < |runs|
    requires AllValid(RunPairs(runs, ceiling))
    ensures BoundaryOf(runs[i], ceiling).valid
  {
    var v, rep := runs[i].variant, runs[i].repetition;
    assert (v, rep) in order by {
      assert order[i] == (v, rep);
    }
    LookupIsUnique(order, runs, CachyosBaseline, rep);
    LookupIsUnique(order, runs, NemorCapacity, rep);
    var p := PairFor(runs, ceiling, rep)[0];
    assert p in RunPairs(runs, ceiling);
  }

  /** The evaluation of a reported execution looks valid exactly when all six runs
      are there and the last one climbed; and that execution is complete exactly
      when the last run also finished well. */
  lemma EvaluationLooksValidExactly(order: seq<Item>, ladder: seq<u64>, seeds: nat -> nat, host: Host, x: Execution,
                                    ceiling: u64)
    requires IsRunOrder(order) && Climbs(ladder) && Faithful(PreparedPlan(order, ladder, seeds), LEVEL_COUNT, host, x)
    ensures !Evaluated(RunPairs(x.runs, ceiling)).state.Invalid? <==> SixClimbed(ladder, x.runs)
    ensures x.completedRuns == RUNS <==>
              && SixClimbed(ladder, x.runs)
              && host.finish(RUNS - 1).Some? && FinishedWell(host.finish(RUNS - 1).value)
    ensures |x.runs| == RUNS ==> host.finish(RUNS - 1).Some?
    ensures x.completedRuns == RUNS ==>
              Evaluated(RunPairs(x.runs, ceiling)).state == if SomeRunCensored(x.runs) then Censored else Complete
  {
    if SixClimbed(ladder, x.runs) {
      ClimbedRunsAreSound(order, ladder, seeds, host, x, ceiling);
      SixSoundRunsEvaluate(order, ladder, x.runs, ceiling);
    } else {
      NotClimbedIsInvalid(order, ladder, seeds, host, x, ceiling);
    }
    if |x.runs| == RUNS {
      RunOfPlan(order, ladder, seeds, host, x, RUNS - 1);
      LastRunPassesExactly(ladder, PreparedPlan(order, ladder, seeds)[RUNS - 1], host, RUNS - 1, x.runs[RUNS - 1]);
    }
  }

  lemma LastRunPassesExactly(ladder: seq<u64>, p: RunPlan, host: Host, run: nat, e: RunEvidence)
    requires Climbs(ladder) && p.levels == PlanLevels(ladder, p.seed) && RunRecorded(p, LEVEL_COUNT, host, run, e)
    ensures e.passed <==> ClimbedUntilStopped(ladder, e.levels) && FinishedWell(host.finish(run).value)
  {
    if e.passed {
      PassedRunClimbed(ladder, p, host, run, e);
    } else if ClimbedUntilStopped(ladder, e.levels) {
      assert !FinishedWell(host.finish(run).value);
    }
  }

  lemma NotClimbedIsInvalid(order: seq<Item>, ladder: seq<u64>, seeds: nat -> nat, host: Host, x: Execution,
                            ceiling: u64)
    requires IsRunOrder(order) && Climbs(ladder) && Faithful(PreparedPlan(order, ladder, seeds), LEVEL_COUNT, host, x)
    requires !SixClimbed(ladder, x.runs)
    ensures Evaluated(RunPairs(x.runs, ceiling)).state.Invalid?
  {
    forall i | 0 <= i < |x.runs|
      ensures (x.runs[i].variant, x.runs[i].repetition) == order[i]
    {
      RunOfPlan(order, ladder, seeds, host, x, i);
    }
    StateOfValidPairs(RunPairs(x.runs, ceiling));
    if |x.runs| < RUNS {
      MissingRunMissesPair(order, x.runs, ceiling);
    } else if AllValid(RunPairs(x.runs, ceiling)) {
      RunOfPlan(order, ladder, seeds, host, x, RUNS - 1);
      PairsBoundTheirRuns(order, x.runs, ceiling, RUNS - 1);
      ValidBoundaryClimbed(ladder, PreparedPlan(order, ladder, seeds)[RUNS - 1], host, RUNS - 1, x.runs[RUNS - 1],
                           ceiling);
    }
  }

  lemma VerificationDecides(ladder: seq<u64>, plan: seq<RunPlan>, host: Host, ceiling: u64, x: Execution,
                            e: BenchmarkEvidence)
    requires |ladder| == LEVEL_COUNT && Faithful(plan, LEVEL_COUNT, host, x) && Written(x, ceiling, e)
    requires !e.evaluation.value.state.Invalid? <==> SixClimbed(ladder, x.runs)
    requires x.completedRuns == RUNS <==>
               && SixClimbed(ladder, x.runs)
               && host.finish(RUNS - 1).Some? && FinishedWell(host.finish(RUNS - 1).value)
    requires |x.runs| == RUNS ==> host.finish(RUNS - 1).Some?
    requires x.completedRuns == RUNS ==>
               e.evaluation.value.state == if SomeRunCensored(x.runs) then Censored else Complete
    ensures Reported(ladder, plan, host, ceiling, x, if Verified(e) then Some(e) else None)
  {
  }

  method EvaluateExecution(x: Execution, ceiling: u64) returns (e: BenchmarkEvidence)
    ensures Written(x, ceiling, e)
  {
    var boundaries, evaluation := Evaluate(x.runs, ceiling);
    e := BenchmarkEvidence(StateFor(evaluation.state), Some(x), boundaries, Some(evaluation), x.cleanupPassed,
                           x.structuralRestorePassed);
  }

  /** Execute, evaluate and verify.  A valid state is written exactly for six
      completed runs. */
  method ExecuteBenchmark(order: seq<Item>, ladder: seq<u64>, seeds: nat -> nat, host: Host, ceiling: u64,
                          salvaged: (bool, bool))
    returns (r: Option<BenchmarkEvidence>)
    requires IsRunOrder(order) && Climbs(ladder)
    ensures NoReport(PreparedPlan(order, ladder, seeds), LEVEL_COUNT, host) ==>
              r == Some(BenchmarkEvidence(BenchmarkInvalid, None, [], None, salvaged.0, salvaged.1))
    ensures !NoReport(PreparedPlan(order, ladder, seeds), LEVEL_COUNT, host) ==>
              exists x :: Reported(ladder, PreparedPlan(order, ladder, seeds), host, ceiling, x, r)
  {
    var plan := PreparedPlan(order, ladder, seeds);
    var execution := Execute(plan, LEVEL_COUNT, host);
    if execution.None? {
      return Some(BenchmarkEvidence(BenchmarkInvalid, None, [], None, salvaged.0, salvaged.1));
    }
    var x := execution.value;
    var evidence := EvaluateExecution(x, ceiling);
    EvaluationLooksValidExactly(order, ladder, seeds, host, x, ceiling);
    VerificationDecides(ladder, plan, host, ceiling, x, evidence);
    r := if Verified(evidence) then Some(evidence) else None;
  }

  // -------------------------------------------------------------------
  // A host for which nothing is written
  // -------------------------------------------------------------------

  function GoodTarget(variant: BenchmarkVariant): TargetEvidence {
    var capacity := variant.NemorCapacity?;
    TargetEvidence(true, true, true, true, true, capacity, !capacity, (true, true, true, true), true, true, true,
                   if capacity then Pass else BaselineNoReport, true, true, true)
  }

  function GoodObservation(variant: BenchmarkVariant, level: PlannedLevel): Observation {
    var bytes := level.targetTouchedBytes;
    Observation(0, bytes, Some(bytes), Some(bytes), GoodTarget(variant), Some(0), Some(0), true)
  }

  /** The evidence of a cleanup of a scope that was absent and, if not clean, of one
      whose unit came back. */
  function CleanupEvidence(clean: bool): ScopeCleanup.Evidence {
    ScopeCleanup.Evidence(true, true, false, Some(0), true, ScopeCleanup.AlreadyAbsent, false, true, Some(0), true,
                          clean, if clean then ScopeCleanup.Clean else ScopeCleanup.ActiveOrMembered)
  }

  /** Every level is sustainable and everything is in order, except that the unit of
      the last run is there again after its cleanup. */
  function LastCleanupFails(plan: seq<RunPlan>): Host {
    Host(true,
         (i: nat) => true,
         (i: nat, j: nat) => if i < |plan| && j < |plan[i].levels| then
                     Some(GoodObservation(plan[i].variant, plan[i].levels[j]))
                   else None,
         (i: nat) => Some(Finish(true, CleanupEvidence(i < RUNS - 1), true)),
         (i: nat) => true,
         true)
  }

  function GoodLevels(p: RunPlan): (r: seq<LevelEvidence>)
    ensures |r| == |p.levels|
    ensures forall j | 0 <= j < |r| ::
              r[j] == Record(LEVEL_COUNT, p.variant, p.levels[j], GoodObservation(p.variant, p.levels[j]))
  {
    seq(|p.levels|, j requires 0 <= j < |p.levels| =>
      Record(LEVEL_COUNT, p.variant, p.levels[j], GoodObservation(p.variant, p.levels[j])))
  }

  function GoodRun(p: RunPlan, clean: bool): RunEvidence {
    RunEvidence(p.orderIndex, p.variant, p.repetition, p.seed, clean, GoodLevels(p), clean, true)
  }

  lemma GoodRunRecorded(plan: seq<RunPlan>, ladder: seq<u64>, i: nat)
    requires Climbs(ladder) && i < |plan| && plan[i].levels == PlanLevels(ladder, plan[i].seed)
    requires plan[i].variant == CachyosBaseline || plan[i].variant == NemorCapacity
    ensures RunRecorded(plan[i], LEVEL_COUNT, LastCleanupFails(plan), i, GoodRun(plan[i], i < RUNS - 1))
    ensures ClimbedUntilStopped(ladder, GoodRun(plan[i], i < RUNS - 1).levels)
  {
    var levels := GoodLevels(plan[i]);
    assert forall j | 0 <= j < |levels| :: levels[j].classification.Sustainable?;
    assert forall l | l in levels :: l.classification.Sustainable?;
    var clean := i < RUNS - 1;
    assert CleanupEvidence(clean).Passed() <==> clean;
    assert RunPasses(LEVEL_COUNT, levels, Finish(true, CleanupEvidence(clean), true)) <==> clean;
  }

  function GoodRuns(plan: seq<RunPlan>): (r: seq<RunEvidence>)
    ensures |r| == |plan| && forall i | 0 <= i < |plan| :: r[i] == GoodRun(plan[i], i < RUNS - 1)
  {
    seq(|plan|, i requires 0 <= i < |plan| => GoodRun(plan[i], i < RUNS - 1))
  }

  function GoodExecution(plan: seq<RunPlan>): Execution {
    Execution(InvalidRun, GoodRuns(plan), RUNS, RUNS - 1, RUNS * LEVEL_COUNT, TotalLevels(GoodRuns(plan)), false, false)
  }

  lemma PlanOfTwoVariants(order: seq<Item>, ladder: seq<u64>, seeds: nat -> nat)
    requires IsRunOrder(order)
    ensures forall i | 0 <= i < RUNS ::
              var p := PreparedPlan(order, ladder, seeds)[i];
              (p.variant == CachyosBaseline || p.variant == NemorCapacity) && p.levels == PlanLevels(ladder, p.seed)
  {
    forall i | 0 <= i < RUNS
      ensures order[i].0 == CachyosBaseline || order[i].0 == NemorCapacity
    {
      assert (order[i].0, order[i].1) in order by {
        assert order[i] in order;
      }
    }
  }

  lemma GoodExecutionIsFaithful(plan: seq<RunPlan>, ladder: seq<u64>)
    requires Climbs(ladder) && |plan| == RUNS
    requires forall i | 0 <= i < RUNS ::
               && (plan[i].variant == CachyosBaseline || plan[i].variant == NemorCapacity)
               && plan[i].levels == PlanLevels(ladder, plan[i].seed)
    ensures Faithful(plan, LEVEL_COUNT, LastCleanupFails(plan), GoodExecution(plan))
    ensures SixClimbed(ladder, GoodExecution(plan).runs)
  {
    forall i | 0 <= i < RUNS
      ensures RunRecorded(plan[i], LEVEL_COUNT, LastCleanupFails(plan), i, GoodRuns(plan)[i])
      ensures ClimbedUntilStopped(ladder, GoodRuns(plan)[i].levels)
    {
      GoodRunRecorded(plan, ladder, i);
    }
    assert RunsRecorded(plan, LEVEL_COUNT, LastCleanupFails(plan), GoodRuns(plan));
  }

  lemma LastCleanupFailsAnswers(plan: seq<RunPlan>, ladder: seq<u64>)
    requires Climbs(ladder) && |plan| == RUNS
    requires forall i | 0 <= i < RUNS :: plan[i].levels == PlanLevels(ladder, plan[i].seed)
    ensures !NoReport(plan, LEVEL_COUNT, LastCleanupFails(plan))
  {
    AnsweringHostGetsReport(plan, LEVEL_COUNT, LastCleanupFails(plan));
  }

  /** On every prepared plan that host is answered to the end, all sixty levels are
      sustainable, the evaluation looks valid, and nothing is written. */
  lemma NothingIsWritten(order: seq<Item>, ladder: seq<u64>, seeds: nat -> nat, plan: seq<RunPlan>, ceiling: u64,
                         x: Execution, r: Option<BenchmarkEvidence>)
    requires IsRunOrder(order) && Climbs(ladder) && plan == PreparedPlan(order, ladder, seeds)
    ensures !NoReport(plan, LEVEL_COUNT, LastCleanupFails(plan))
    ensures Reported(ladder, plan, LastCleanupFails(plan), ceiling, x, r) ==>
              r.None? && x.completedRuns == RUNS - 1 && !Evaluated(RunPairs(x.runs, ceiling)).state.Invalid?
  {
    PlanOfTwoVariants(order, ladder, seeds);
    LastCleanupFailsAnswers(plan, ladder);
    GoodExecutionIsFaithful(plan, ladder);
    if Reported(ladder, plan, LastCleanupFails(plan), ceiling, x, r) {
      ReportIsUnique(plan, LEVEL_COUNT, LastCleanupFails(plan), x, GoodExecution(plan));
      EvaluationLooksValidExactly(order, ladder, seeds, LastCleanupFails(plan), x, ceiling);
    }
  }

  // -------------------------------------------------------------------
  // The demonstrated gain
  // -------------------------------------------------------------------

  predicate ZeroOrAtLeast(x: u64, least: u64) {
    x == 0 || x >= least
  }

  lemma LowerBoundOnLadder(ladder: seq<u64>, p: RunPlan, host: Host, run: nat, e: RunEvidence, ceiling: u64,
                           least: u64)
    requires Climbs(ladder) && p.levels == PlanLevels(ladder, p.seed) && RunRecorded(p, LEVEL_COUNT, host, run, e)
    requires least <= ladder[0]
    ensures ZeroOrAtLeast(OrZero(BoundaryOf(e, ceiling).highestSustainable), least)
  {
    HighestIsMaximum(e.levels);
    forall l | l in e.levels
      ensures l.targetTouchedBytes >= least
    {
      var j :| 0 <= j < |e.levels| && e.levels[j] == l;
      assert l == Record(LEVEL_COUNT, p.variant, p.levels[j], host.level(run, j).value);
      assert ladder[0] <= ladder[j];
    }
  }

  lemma PairLowersOnLadder(runs: seq<RunEvidence>, ceiling: u64, rep: nat, least: u64)
    requires forall i | 0 <= i < |runs| ::
               ZeroOrAtLeast(OrZero(BoundaryOf(runs[i], ceiling).highestSustainable), least)
    ensures forall p | p in PairFor(runs, ceiling, rep) :: ZeroOrAtLeast(p.baselineLower, least)
  {
  }

  lemma LowersOnLadder(order: seq<Item>, ladder: seq<u64>, seeds: nat -> nat, host: Host, x: Execution, ceiling: u64,
                       least: u64)
    requires IsRunOrder(order) && Climbs(ladder) && Faithful(PreparedPlan(order, ladder, seeds), LEVEL_COUNT, host, x)
    requires least <= ladder[0]
    ensures forall p | p in RunPairs(x.runs, ceiling) :: ZeroOrAtLeast(p.baselineLower, least)
  {
    forall i | 0 <= i < |x.runs|
      ensures ZeroOrAtLeast(OrZero(BoundaryOf(x.runs[i], ceiling).highestSustainable), least)
    {
      RunOfPlan(order, ladder, seeds, host, x, i);
      LowerBoundOnLadder(ladder, PreparedPlan(order, ladder, seeds)[i], host, i, x.runs[i], ceiling, least);
    }
    PairLowersOnLadder(x.runs, ceiling, 0, least);
    PairLowersOnLadder(x.runs, ceiling, 1, least);
    PairLowersOnLadder(x.runs, ceiling, 2, least);
    InOneOfThree(PairFor(x.runs, ceiling, 0), PairFor(x.runs, ceiling, 1), PairFor(x.runs, ceiling, 2));
  }

  /** No execution on the ladder of a ceiling wraps, complete or not: the gain
      demonstrated is absent, or the percentage the medians give, for a baseline of
      at least one rung. */
  lemma LadderGainNeverWraps(order: seq<Item>, top: u64, ladder: seq<u64>, seeds: nat -> nat, host: Host,
                             x: Execution, ceiling: u64, pairs: seq<Pair>)
    requires IsRunOrder(order) && LadderFits(top) && |ladder| == LEVEL_COUNT
    requires forall i | 0 <= i < LEVEL_COUNT :: ladder[i] == Rung(top / ALIGNMENT_BYTES, i)
    requires Faithful(PreparedPlan(order, ladder, seeds), LEVEL_COUNT, host, x)
    requires pairs == RunPairs(x.runs, ceiling)
    ensures var e := Evaluated(pairs);
      e.demonstratedGain.Some? ==>
        && e.medianBaseline.Some? && e.medianCapacity.Some? && e.medianBaseline.value >= ALIGNMENT_BYTES
        && e.demonstratedGain.value
             == TruncDiv((e.medianCapacity.value - e.medianBaseline.value) * 100, e.medianBaseline.value)
  {
    LadderClimbs(top, ladder);
    FirstRung(top);
    LowersOnLadder(order, ladder, seeds, host, x, ceiling, ALIGNMENT_BYTES);
    GainOfLowers(pairs, ALIGNMENT_BYTES);
  }

  lemma FirstRung(top: u64)
    requires LadderFits(top)
    ensures Rung(top / ALIGNMENT_BYTES, 0) >= ALIGNMENT_BYTES
  {
    RungPositive(top / ALIGNMENT_BYTES, 0);
  }

  lemma GainOfLowers(pairs: seq<Pair>, least: u64)
    requires least >= 200 && forall p | p in pairs :: ZeroOrAtLeast(p.baselineLower, least)
    ensures var e := Evaluated(pairs);
      e.demonstratedGain.Some? ==>
        && e.medianBaseline.Some? && e.medianCapacity.Some? && e.medianBaseline.value >= least
        && e.demonstratedGain.value
             == TruncDiv((e.medianCapacity.value - e.medianBaseline.value) * 100, e.medianBaseline.value)
  {
    var e := Evaluated(pairs);
    if e.demonstratedGain.Some? {
      MedianComesFrom(BaselineLowers(pairs));
      var i :| 0 <= i < |pairs| && BaselineLowers(pairs)[i] == e.medianBaseline.value;
      assert pairs[i] in pairs;
      GainFits(e.medianBaseline.value, e.medianCapacity.value);
    }
  }
}
