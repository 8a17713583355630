/** From the evidence of six runs to boundaries, paired gains and a verdict. */
module CapacityEvaluation {
  import opened Wrappers
  import opened MachineInts
  import opened OrderStatistics
  import opened CapacitySearch
  import opened RunOrder

  datatype LevelClassification =
    | Sustainable
    | UnsustainableHealth
    | SafetyAbort
    | InvalidEvidence
    | LoadTransitionTimeout
    | LoadIpcFailure
    | TargetOwnershipRejected
    | TargetProtocolFailure
    | TargetHeartbeatFailure
    | TargetIntegrityFailure
    | ShadowCapabilityFailure
    | LiveActionFailure
    | CleanupFailure
    | RestoreFailure
    | ExecutionError

  datatype LevelEvidence = LevelEvidence(
    levelIndex: nat,
    targetTouchedBytes: u64,
    requestedDeltaBytes: u64,
    actualTouchedBytes: u64,
    classification: LevelClassification)

  datatype RunEvidence = RunEvidence(
    orderIndex: nat,
    variant: BenchmarkVariant,
    repetition: nat,
    seed: nat,
    passed: bool,
    levels: seq<LevelEvidence>,
    scopeCleanupPassed: bool,
    structuralRestorePassed: bool)

  datatype StopClassification = SafeCeilingReached | UnsustainableStop | InvalidStop

  datatype Boundary = Boundary(
    highestSustainable: Option<u64>,
    firstUnsustainable: Option<u64>,
    ceiling: u64,
    boundaryObserved: bool,
    rightCensored: bool,
    completedLevels: nat,
    stop: StopClassification,
    valid: bool)

  /** The largest size among the sustainable levels. */
  function Highest(levels: seq<LevelEvidence>): Option<u64> {
    if levels == [] then None
    else
      var before := Highest(levels[..|levels| - 1]);
      var last := levels[|levels| - 1];
      if !last.classification.Sustainable? then before
      else if before.Some? && before.value > last.targetTouchedBytes then before
      else Some(last.targetTouchedBytes)
  }

  function OrZero(x: Option<u64>): u64 {
    if x.Some? then x.value else 0
  }

  function FirstUnsustainable(levels: seq<LevelEvidence>): Option<u64> {
    if levels == [] then None
    else if levels[0].classification.UnsustainableHealth? then Some(levels[0].targetTouchedBytes)
    else FirstUnsustainable(levels[1..])
  }

  predicate AllSustainable(levels: seq<LevelEvidence>) {
    |levels| == LEVEL_COUNT && forall i | 0 <= i < |levels| :: levels[i].classification.Sustainable?
  }

  function BoundaryOf(run: RunEvidence, ceiling: u64): Boundary {
    var first := FirstUnsustainable(run.levels);
    var all := AllSustainable(run.levels);
    Boundary(Highest(run.levels), first, ceiling, first.Some?, all, |run.levels|,
             if all then SafeCeilingReached else if first.Some? then UnsustainableStop else InvalidStop,
             all || first.Some?)
  }

  /** `Highest` is the maximum over the sustainable levels. */
  lemma {:induction false} HighestIsMaximum(levels: seq<LevelEvidence>)
    ensures Highest(levels).None? <==> forall l | l in levels :: !l.classification.Sustainable?
    ensures Highest(levels).Some? ==>
              && (exists l :: l in levels && l.classification.Sustainable?
                              && l.targetTouchedBytes == Highest(levels).value)
              && (forall l | l in levels && l.classification.Sustainable? ::
                    l.targetTouchedBytes <= Highest(levels).value)
  {
    if levels != [] {
      var init, last := levels[..|levels| - 1], levels[|levels| - 1];
      HighestIsMaximum(init);
      assert levels == init + [last];
      if Highest(init).Some? {
        var l :| l in init && l.classification.Sustainable? && l.targetTouchedBytes == Highest(init).value;
        assert l in levels;
      }
      assert last in levels;
    }
  }

  /** What the levels of one run say of a capacity: a size that was sustained, or
      zero, and the first size that was not. */
  datatype Bracket = Bracket(lower: u64, upper: Option<u64>)

  ghost predicate Shows(levels: seq<LevelEvidence>, b: Bracket) {
    && (forall l | l in levels && l.classification.Sustainable? :: l.targetTouchedBytes <= b.lower)
    && (|| b.lower == 0
        || exists l :: l in levels && l.classification.Sustainable? && l.targetTouchedBytes == b.lower)
    && match b.upper
       case None => forall l | l in levels :: !l.classification.UnsustainableHealth?
       case Some(upper) => exists j :: FailsFirst(levels, j) && levels[j].targetTouchedBytes == upper
  }

  ghost predicate FailsFirst(levels: seq<LevelEvidence>, j: int) {
    && 0 <= j < |levels| && levels[j].classification.UnsustainableHealth?
    && forall i | 0 <= i < j :: !levels[i].classification.UnsustainableHealth?
  }

  lemma {:induction false} FirstIsFirst(levels: seq<LevelEvidence>, j: nat)
    requires FailsFirst(levels, j)
    ensures FirstUnsustainable(levels) == Some(levels[j].targetTouchedBytes)
  {
    if j > 0 {
      FirstIsFirst(levels[1..], j - 1);
    }
  }

  lemma {:induction false} NoneFails(levels: seq<LevelEvidence>)
    requires forall l | l in levels :: !l.classification.UnsustainableHealth?
    ensures FirstUnsustainable(levels).None?
  {
    if levels != [] {
      assert levels[0] in levels;
      NoneFails(levels[1..]);
    }
  }

  lemma {:induction false} SomeFails(levels: seq<LevelEvidence>) returns (j: nat)
    requires FirstUnsustainable(levels).Some?
    ensures FailsFirst(levels, j)
  {
    if levels[0].classification.UnsustainableHealth? {
      j := 0;
    } else {
      var i := SomeFails(levels[1..]);
      j := i + 1;
      assert forall k | 0 < k < j :: levels[k] == levels[1..][k - 1];
    }
  }

  lemma LowerIsHighest(levels: seq<LevelEvidence>, lower: u64)
    ensures OrZero(Highest(levels)) == lower <==>
              && (forall l | l in levels && l.classification.Sustainable? :: l.targetTouchedBytes <= lower)
              && (|| lower == 0
                  || exists l :: l in levels && l.classification.Sustainable? && l.targetTouchedBytes == lower)
  {
    HighestIsMaximum(levels);
  }

  /** Levels show exactly one bracket: the one their boundary carries. */
  lemma BoundaryShows(run: RunEvidence, ceiling: u64, b: Bracket)
    ensures Shows(run.levels, b) <==>
              b == Bracket(OrZero(BoundaryOf(run, ceiling).highestSustainable),
                           BoundaryOf(run, ceiling).firstUnsustainable)
  {
    var levels := run.levels;
    LowerIsHighest(levels, b.lower);
    if FirstUnsustainable(levels).Some? {
      var j := SomeFails(levels);
      FirstIsFirst(levels, j);
      assert levels[j] in levels;
      if b.upper.Some? && (exists j :: FailsFirst(levels, j) && levels[j].targetTouchedBytes == b.upper.value) {
        var k :| FailsFirst(levels, k) && levels[k].targetTouchedBytes == b.upper.value;
        FirstIsFirst(levels, k);
      }
    } else if l :| l in levels && l.classification.UnsustainableHealth? {
      SomeFirst(levels, l);
    } else {
      NoneFails(levels);
    }
  }

  /** What else a boundary says: ten sustainable levels reach the ceiling and censor
      the run; a failed level is an observed boundary; anything else does not count. */
  lemma BoundaryExactly(run: RunEvidence, ceiling: u64)
    ensures var b := BoundaryOf(run, ceiling);
      var reached := |run.levels| == 10 && forall l | l in run.levels :: l.classification == Sustainable;
      var failed := exists l :: l in run.levels && l.classification == UnsustainableHealth;
      && b.ceiling == ceiling && b.completedLevels == |run.levels|
      && b.rightCensored == reached && b.boundaryObserved == failed && b.valid == (reached || failed)
      && (b.stop == SafeCeilingReached <==> reached)
      && (b.stop == UnsustainableStop <==> failed)
      && (b.stop == InvalidStop <==> !reached && !failed)
  {
    var levels := run.levels;
    assert forall i | 0 <= i < |levels| :: levels[i] in levels;
    if FirstUnsustainable(levels).Some? {
      var j := SomeFails(levels);
    } else if l :| l in levels && l.classification.UnsustainableHealth? {
      SomeFirst(levels, l);
    }
  }

  lemma {:induction false} SomeFirst(levels: seq<LevelEvidence>, l: LevelEvidence)
    requires l in levels && l.classification.UnsustainableHealth?
    ensures FirstUnsustainable(levels).Some?
  {
    if !levels[0].classification.UnsustainableHealth? {
      SomeFirst(levels[1..], l);
    }
  }

  // -------------------------------------------------------------------
  // Percentages
  // -------------------------------------------------------------------

  function PercentFloor(numerator: i128, denominator: u64): Option<i64> {
    if denominator == 0 then None
    else
      match CheckedI128(numerator * 100)
      case None => None
      case Some(scaled) => TryI64(scaled / denominator)
  }

  function PercentCeil(numerator: i128, denominator: u64): Option<i64> {
    if denominator == 0 then None
    else
      match CheckedI128(numerator * 100)
      case None => None
      case Some(scaled) => TryI64(-((-scaled) / denominator))
  }

  /** The floor and the ceiling bracket the exact percentage within one percent. */
  lemma PercentsBracket(n: i128, d: u64)
    requires d > 0
    ensures PercentFloor(n, d).Some? ==>
              PercentFloor(n, d).value * d <= 100 * n < (PercentFloor(n, d).value + 1) * d
    ensures PercentCeil(n, d).Some? ==>
              (PercentCeil(n, d).value - 1) * d < 100 * n <= PercentCeil(n, d).value * d
  {
  }

  /** Rounding up is rounding the opposite down, and the two fail together
      except on the one value whose opposite does not fit. */
  lemma CeilIsNegatedFloor(n: i128, d: u64)
    requires n > I128_MIN
    ensures PercentCeil(n, d).Some? && PercentFloor(-n, d).Some? ==>
              PercentCeil(n, d).value == -PercentFloor(-n, d).value
    ensures PercentCeil(n, d).None? && PercentFloor(-n, d).Some? ==>
              PercentFloor(-n, d).value == I64_MIN
    ensures PercentCeil(n, d).Some? && PercentFloor(-n, d).None? ==>
              PercentCeil(n, d).value == I64_MIN
  {
  }

  // -------------------------------------------------------------------
  // Pairs
  // -------------------------------------------------------------------

  datatype Pair = Pair(
    repetition: nat,
    baselineLower: u64,
    baselineUpper: Option<u64>,
    baselineCensored: bool,
    capacityLower: u64,
    capacityUpper: Option<u64>,
    capacityCensored: bool,
    demonstratedDelta: i64,
    conservative: Option<i64>,
    possible: Option<i64>,
    valid: bool)

  /** The index of the first run of this variant and repetition. */
  function Position(runs: seq<RunEvidence>, variant: BenchmarkVariant, repetition: nat): (r: Option<nat>)
    ensures r.Some? ==>
              && r.value < |runs|
              && runs[r.value].variant == variant && runs[r.value].repetition == repetition
    ensures r.None? ==>
              forall i | 0 <= i < |runs| :: runs[i].variant != variant || runs[i].repetition != repetition
  {
    if runs == [] then None
    else if runs[0].variant == variant && runs[0].repetition == repetition then Some(0)
    else
      match Position(runs[1..], variant, repetition)
      case None => None
      case Some(i) => Some(i + 1)
  }

  function ClampI64(x: u64): i64 {
    if x <= I64_MAX then x else I64_MAX
  }

  function PairOf(b: Boundary, c: Boundary, repetition: nat): Pair {
    var bl, cl := OrZero(b.highestSustainable), OrZero(c.highestSustainable);
    var conservative :=
      if b.firstUnsustainable.None? then None
      else PercentFloor(cl - b.firstUnsustainable.value, b.firstUnsustainable.value);
    var possible :=
      if c.firstUnsustainable.None? then None
      else PercentCeil(c.firstUnsustainable.value - bl, bl);
    Pair(repetition, bl, b.firstUnsustainable, b.rightCensored, cl, c.firstUnsustainable, c.rightCensored,
         ClampI64(cl) - ClampI64(bl), conservative, possible, b.valid && c.valid)
  }

  /** The pair of one repetition, if both of its runs are there. */
  function PairFor(runs: seq<RunEvidence>, ceiling: u64, repetition: nat): seq<Pair> {
    var b, c := Position(runs, CachyosBaseline, repetition), Position(runs, NemorCapacity, repetition);
    if b.Some? && c.Some? then
      [PairOf(BoundaryOf(runs[b.value], ceiling), BoundaryOf(runs[c.value], ceiling), repetition)]
    else []
  }

  function RunPairs(runs: seq<RunEvidence>, ceiling: u64): seq<Pair> {
    PairFor(runs, ceiling, 0) + PairFor(runs, ceiling, 1) + PairFor(runs, ceiling, 2)
  }

  // -------------------------------------------------------------------
  // Evaluation
  // -------------------------------------------------------------------

  const REPETITIONS := 3
  const TARGET_PERCENT: i64 := 30

  datatype EvaluationState = Invalid | Censored | Complete

  datatype TargetStatus = DefinitivelyMet | DefinitivelyNotMet | Indeterminate

  datatype Evaluation = Evaluation(
    state: EvaluationState,
    pairs: seq<Pair>,
    medianBaseline: Option<u64>,
    medianCapacity: Option<u64>,
    medianDelta: Option<i64>,
    demonstratedGain: Option<i64>,
    conservative: Option<i64>,
    possible: Option<i64>,
    status: TargetStatus)

  /** The middle of the sorted values. */
  function Median(values: seq<int>): Option<int> {
    if |values| / 2 < |Sort(values)| then Some(Sort(values)[|values| / 2]) else None
  }

  function Present(values: seq<Option<i64>>): (r: seq<int>)
    ensures |r| <= |values|
    ensures forall x | x in r :: I64_MIN <= x <= I64_MAX
    ensures |r| == |values| <==> forall i | 0 <= i < |values| :: values[i].Some?
    ensures |r| == |values| ==> forall i | 0 <= i < |values| :: r[i] == values[i].value
  {
    if values == [] then []
    else (if values[0].Some? then [values[0].value] else []) + Present(values[1..])
  }

  predicate AllValid(pairs: seq<Pair>) {
    |pairs| == REPETITIONS && forall i | 0 <= i < |pairs| :: pairs[i].valid
  }

  predicate AnyCensored(pairs: seq<Pair>) {
    exists i | 0 <= i < |pairs| :: pairs[i].baselineCensored || pairs[i].capacityCensored
  }

  function BaselineLowers(pairs: seq<Pair>): seq<int> {
    seq(|pairs|, i requires 0 <= i < |pairs| => pairs[i].baselineLower)
  }

  function CapacityLowers(pairs: seq<Pair>): seq<int> {
    seq(|pairs|, i requires 0 <= i < |pairs| => pairs[i].capacityLower)
  }

  function Deltas(pairs: seq<Pair>): seq<int> {
    seq(|pairs|, i requires 0 <= i < |pairs| => pairs[i].demonstratedDelta)
  }

  function Conservatives(pairs: seq<Pair>): (r: seq<Option<i64>>)
    ensures |r| == |pairs| && forall i | 0 <= i < |pairs| :: r[i] == pairs[i].conservative
  {
    seq(|pairs|, i requires 0 <= i < |pairs| => pairs[i].conservative)
  }

  function Possibles(pairs: seq<Pair>): (r: seq<Option<i64>>)
    ensures |r| == |pairs| && forall i | 0 <= i < |pairs| :: r[i] == pairs[i].possible
  {
    seq(|pairs|, i requires 0 <= i < |pairs| => pairs[i].possible)
  }

  /** A median counts only when every pair contributes a value. */
  function FullMedian(valid: bool, values: seq<Option<i64>>): Option<int> {
    var present := Present(values);
    if valid && |present| == REPETITIONS then Median(present) else None
  }

  function DemonstratedGain(baseline: Option<int>, capacity: Option<int>, censored: bool): Option<i64> {
    if baseline.Some? && capacity.Some? && baseline.value > 0 && !censored then
      Some(WrapI64(TruncDiv((capacity.value - baseline.value) * 100, baseline.value)))
    else None
  }

  function StatusOf(conservative: Option<int>, possible: Option<int>): TargetStatus {
    if conservative.Some? && conservative.value >= TARGET_PERCENT then DefinitivelyMet
    else if possible.Some? && possible.value < TARGET_PERCENT then DefinitivelyNotMet
    else Indeterminate
  }

  lemma {:induction false} MedianComesFrom(values: seq<int>)
    ensures |Sort(values)| == |values|
    ensures Median(values).Some? <==> values != []
    ensures Median(values).Some? ==> Median(values).value in values
  {
    SortSorts(values);
    if values != [] {
      assert Sort(values)[|values| / 2] in multiset(Sort(values));
      assert Sort(values)[|values| / 2] in multiset(values);
    }
  }

  /** What the code takes for the median is the median: as many values lie below it
      and not above it as the middle position asks for. */
  lemma MedianIsMedian(values: seq<int>)
    requires values != []
    ensures Median(values).Some? && IsMedian(Reals(values), Median(values).value as real)
  {
    SortedElementIsKth(values, |values| / 2);
  }

  function Evaluated(pairs: seq<Pair>): Evaluation {
    var valid := AllValid(pairs);
    var censored := valid && AnyCensored(pairs);
    MedianComesFrom(BaselineLowers(pairs));
    MedianComesFrom(CapacityLowers(pairs));
    MedianComesFrom(Deltas(pairs));
    MedianComesFrom(Present(Conservatives(pairs)));
    MedianComesFrom(Present(Possibles(pairs)));
    var baseline, capacity := Median(BaselineLowers(pairs)), Median(CapacityLowers(pairs));
    var conservative := FullMedian(valid, Conservatives(pairs));
    var possible := FullMedian(valid, Possibles(pairs));
    Evaluation(
      if !valid then Invalid else if censored then Censored else Complete,
      pairs, baseline, capacity, Median(Deltas(pairs)),
      DemonstratedGain(baseline, capacity, censored), conservative, possible,
      StatusOf(conservative, possible))
  }

  /** The pairs of the first repetitions: of none, one, two or all three. */
  ghost function PairsBefore(runs: seq<RunEvidence>, ceiling: u64, repetitions: nat): seq<Pair>
    requires repetitions <= REPETITIONS
  {
    if repetitions == 0 then []
    else if repetitions == 1 then PairFor(runs, ceiling, 0)
    else if repetitions == 2 then PairFor(runs, ceiling, 0) + PairFor(runs, ceiling, 1)
    else RunPairs(runs, ceiling)
  }

  /** What a pair demonstrates is the difference of the sizes sustained, as long as
      both fit in 63 bits; a larger one counts as the largest that fits. */
  lemma DeltaExactly(b: Boundary, c: Boundary, repetition: nat)
    ensures var p := PairOf(b, c, repetition);
      && p.repetition == repetition
      && (p.capacityLower < 0x8000_0000_0000_0000 && p.baselineLower < 0x8000_0000_0000_0000 ==>
            p.demonstratedDelta == p.capacityLower - p.baselineLower)
      && (p.capacityLower >= 0x7FFF_FFFF_FFFF_FFFF && p.baselineLower < 0x8000_0000_0000_0000 ==>
            p.demonstratedDelta == 0x7FFF_FFFF_FFFF_FFFF - p.baselineLower)
      && (p.capacityLower < 0x8000_0000_0000_0000 && p.baselineLower >= 0x7FFF_FFFF_FFFF_FFFF ==>
            p.demonstratedDelta == p.capacityLower - 0x7FFF_FFFF_FFFF_FFFF)
      && (p.capacityLower >= 0x7FFF_FFFF_FFFF_FFFF && p.baselineLower >= 0x7FFF_FFFF_FFFF_FFFF ==>
            p.demonstratedDelta == 0)
  {
  }

  /** A gain is demonstrated exactly for a positive baseline median when nothing is
      censored. */
  lemma GainGivenExactly(pairs: seq<Pair>)
    ensures var e := Evaluated(pairs);
      e.demonstratedGain.Some? <==>
        e.medianBaseline.Some? && e.medianBaseline.value > 0 && e.state != Censored
  {
    MedianComesFrom(BaselineLowers(pairs));
    MedianComesFrom(CapacityLowers(pairs));
  }

  /** The demonstrated sizes reported are the medians over the pairs. */
  lemma DemonstratedMedians(pairs: seq<Pair>)
    requires pairs != []
    ensures Evaluated(pairs).medianBaseline.Some?
    ensures IsMedian(Reals(BaselineLowers(pairs)), Evaluated(pairs).medianBaseline.value as real)
    ensures Evaluated(pairs).medianCapacity.Some?
    ensures IsMedian(Reals(CapacityLowers(pairs)), Evaluated(pairs).medianCapacity.value as real)
    ensures Evaluated(pairs).medianDelta.Some?
    ensures IsMedian(Reals(Deltas(pairs)), Evaluated(pairs).medianDelta.value as real)
  {
    MedianIsMedian(BaselineLowers(pairs));
    MedianIsMedian(CapacityLowers(pairs));
    MedianIsMedian(Deltas(pairs));
  }

  method Evaluate(runs: seq<RunEvidence>, ceiling: u64) returns (boundaries: seq<Boundary>, evaluation: Evaluation)
    ensures |boundaries| == |runs|
    ensures forall i | 0 <= i < |runs| :: boundaries[i] == BoundaryOf(runs[i], ceiling)
    ensures evaluation == Evaluated(RunPairs(runs, ceiling))
  {
    boundaries := seq(|runs|, i requires 0 <= i < |runs| => BoundaryOf(runs[i], ceiling));
    var pairs: seq<Pair> := [];
    for repetition := 0 to REPETITIONS
      invariant pairs == PairsBefore(runs, ceiling, repetition)
    {
      var baselineIndex := Position(runs, CachyosBaseline, repetition);
      var capacityIndex := Position(runs, NemorCapacity, repetition);
      if baselineIndex.Some? && capacityIndex.Some? {
        pairs := pairs + [PairOf(boundaries[baselineIndex.value], boundaries[capacityIndex.value], repetition)];
      }
    }
    assert pairs == RunPairs(runs, ceiling);
    evaluation := Evaluated(pairs);
  }

  // -------------------------------------------------------------------
  // What the verdict means
  // -------------------------------------------------------------------

  /** The capacities the machine really has, unknown to the code, for one pair:
      positive, and within what the runs observed. */
  ghost predicate Brackets(p: Pair, baseline: real, capacity: real) {
    && baseline > 0.0 && capacity > 0.0
    && p.baselineLower as real <= baseline && p.capacityLower as real <= capacity
    && (p.baselineUpper.Some? ==> baseline < p.baselineUpper.value as real)
    && (p.capacityUpper.Some? ==> capacity < p.capacityUpper.value as real)
  }

  ghost function Gain(baseline: real, capacity: real): real
    requires baseline > 0.0
  {
    100.0 * (capacity - baseline) / baseline
  }

  /** The percentages of a pair are those of its own bounds. */
  ghost predicate Honest(p: Pair) {
    && p.conservative ==
         (if p.baselineUpper.None? then None
          else PercentFloor(p.capacityLower - p.baselineUpper.value, p.baselineUpper.value))
    && p.possible ==
         (if p.capacityUpper.None? then None
          else PercentCeil(p.capacityUpper.value - p.baselineLower, p.baselineLower))
  }

  lemma PairIsHonest(runs: seq<RunEvidence>, ceiling: u64, repetition: nat)
    ensures forall p | p in PairFor(runs, ceiling, repetition) :: Honest(p)
  {
  }

  lemma PairsAreHonest(runs: seq<RunEvidence>, ceiling: u64)
    ensures forall p | p in RunPairs(runs, ceiling) :: Honest(p)
  {
    PairIsHonest(runs, ceiling, 0);
    PairIsHonest(runs, ceiling, 1);
    PairIsHonest(runs, ceiling, 2);
    InOneOfThree(PairFor(runs, ceiling, 0), PairFor(runs, ceiling, 1), PairFor(runs, ceiling, 2));
  }

  lemma InOneOfThree(a: seq<Pair>, b: seq<Pair>, c: seq<Pair>)
    ensures forall p | p in a + b + c :: p in a || p in b || p in c
  {
  }

  lemma DivideThrough(q: real, n: real, d: real)
    requires d > 0.0
    ensures q * d <= n ==> q <= n / d
    ensures n < q * d ==> n / d < q
  {
  }

  lemma IntRealMul(a: int, b: int)
    ensures (a * b) as real == a as real * b as real
  {
  }

  /** `k` percent of anything below `u` stays below what `k` percent of `u` is
      below. */
  lemma RatioBelow(k: real, u: real, l: real, b: real, c: real)
    requires 0.0 < b < u && k * u <= 100.0 * l && l <= c && c > 0.0
    ensures k * b <= 100.0 * c
  {
  }

  lemma RatioAbove(k: real, l: real, u: real, b: real, c: real)
    requires 0.0 < l <= b && 100.0 * u <= k * l && 0.0 < c < u
    ensures 100.0 * c < k * b
  {
  }

  lemma GainAtLeast(q: int, lower: int, upper: int, baseline: real, capacity: real)
    requires upper > 0 && q * upper <= 100 * (lower - upper)
    requires 0.0 < baseline < upper as real && lower as real <= capacity && capacity > 0.0
    ensures q as real <= Gain(baseline, capacity)
  {
    var k := q as real + 100.0;
    IntRealMul(q, upper);
    assert k * upper as real == (q * upper) as real + 100.0 * upper as real;
    RatioBelow(k, upper as real, lower as real, baseline, capacity);
    assert k * baseline == q as real * baseline + 100.0 * baseline;
    DivideThrough(q as real, 100.0 * (capacity - baseline), baseline);
  }

  lemma GainBelow(q: int, lower: int, upper: int, baseline: real, capacity: real)
    requires lower > 0 && 100 * (upper - lower) <= q * lower
    requires baseline >= lower as real && capacity < upper as real && capacity > 0.0
    ensures Gain(baseline, capacity) < q as real
  {
    var k := q as real + 100.0;
    IntRealMul(q, lower);
    assert k * lower as real == (q * lower) as real + 100.0 * lower as real;
    RatioAbove(k, lower as real, upper as real, baseline, capacity);
    assert k * baseline == q as real * baseline + 100.0 * baseline;
    DivideThrough(q as real, 100.0 * (capacity - baseline), baseline);
  }

  /** One pair: the conservative percentage is at most the true gain and the
      possible percentage is above it. */
  lemma PairBracketsGain(p: Pair, baseline: real, capacity: real)
    requires Honest(p) && Brackets(p, baseline, capacity)
    ensures p.conservative.Some? ==> p.conservative.value as real <= Gain(baseline, capacity)
    ensures p.possible.Some? ==> Gain(baseline, capacity) < p.possible.value as real
  {
    if p.conservative.Some? {
      var upper := p.baselineUpper.value;
      PercentsBracket(p.capacityLower - upper, upper);
      GainAtLeast(p.conservative.value, p.capacityLower, upper, baseline, capacity);
    }
    if p.possible.Some? {
      var lower := p.baselineLower;
      PercentsBracket(p.capacityUpper.value - lower, lower);
      GainBelow(p.possible.value, lower, p.capacityUpper.value, baseline, capacity);
    }
  }

  ghost predicate TruthFits(pairs: seq<Pair>, baselines: seq<real>, capacities: seq<real>) {
    && |baselines| == |capacities| == |pairs|
    && forall i | 0 <= i < |pairs| :: Brackets(pairs[i], baselines[i], capacities[i])
  }

  ghost function Gains(baselines: seq<real>, capacities: seq<real>): (r: seq<real>)
    requires |baselines| == |capacities|
    requires forall i | 0 <= i < |baselines| :: baselines[i] > 0.0
    ensures |r| == |baselines|
    ensures forall i | 0 <= i < |r| :: r[i] == Gain(baselines[i], capacities[i])
  {
    seq(|baselines|, i requires 0 <= i < |baselines| => Gain(baselines[i], capacities[i]))
  }

  /** The verdict is sound: whatever the true capacities are, as long as they
      agree with what the runs observed, a definite verdict is true of the median
      of the true paired gains. */
  lemma VerdictIsSound(pairs: seq<Pair>, baselines: seq<real>, capacities: seq<real>, m: real)
    requires forall p | p in pairs :: Honest(p)
    requires TruthFits(pairs, baselines, capacities) && IsMedian(Gains(baselines, capacities), m)
    ensures var e := Evaluated(pairs);
      && (e.status == DefinitivelyMet ==> m >= TARGET_PERCENT as real)
      && (e.status == DefinitivelyNotMet ==> m < TARGET_PERCENT as real)
      && (e.conservative.Some? ==> e.conservative.value as real <= m)
      && (e.possible.Some? ==> m <= e.possible.value as real)
  {
    var gains := Gains(baselines, capacities);
    forall i | 0 <= i < |pairs|
      ensures pairs[i].conservative.Some? ==> pairs[i].conservative.value as real <= gains[i]
      ensures pairs[i].possible.Some? ==> gains[i] < pairs[i].possible.value as real
    {
      PairBracketsGain(pairs[i], baselines[i], capacities[i]);
    }
    var e := Evaluated(pairs);
    if e.conservative.Some? {
      var values := Present(Conservatives(pairs));
      SortedElementIsKth(values, |values| / 2);
      KthMonotone(Reals(values), gains, |values| / 2, e.conservative.value as real, m);
    }
    if e.possible.Some? {
      var values := Present(Possibles(pairs));
      SortedElementIsKth(values, |values| / 2);
      KthMonotone(gains, Reals(values), |values| / 2, m, e.possible.value as real);
    }
  }

  /** A censored baseline rules out the positive verdict, a censored capacity run
      the negative one. */
  lemma CensoringWithholdsVerdicts(pairs: seq<Pair>)
    requires forall p | p in pairs :: Honest(p)
    ensures (exists p :: p in pairs && p.baselineUpper.None?) ==> Evaluated(pairs).status != DefinitivelyMet
    ensures (exists p :: p in pairs && p.capacityUpper.None?) ==> Evaluated(pairs).status != DefinitivelyNotMet
  {
  }

  // -------------------------------------------------------------------
  // When a verdict is definite
  // -------------------------------------------------------------------

  predicate TwoOfThree(a: bool, b: bool, c: bool) {
    (a && b) || (a && c) || (b && c)
  }

  lemma MedianOfThree(x: int, y: int, z: int, t: int)
    ensures Median([x, y, z]).Some?
    ensures Median([x, y, z]).value >= t <==> TwoOfThree(x >= t, y >= t, z >= t)
    ensures Median([x, y, z]).value < t <==> TwoOfThree(x < t, y < t, z < t)
  {
    assert [x, y, z][1..] == [y, z] && [y, z][1..] == [z] && [z][1..] == [];
    assert Sort([z]) == [z];
    var two := if y <= z then [y, z] else [z, y];
    assert Sort([y, z]) == Insert(y, [z]) == two;
    assert two[1..] == [two[1]] && two[1..][1..] == [];
    assert Insert(x, two[1..]) == if x <= two[1] then [x, two[1]] else [two[1], x];
    assert Sort([x, y, z]) == Insert(x, two);
  }

  /** At least thirty percent, rounded down; at most twenty-nine, rounded up.  Both
      fit as long as what they are taken of is at least 200 bytes. */
  lemma ConservativeReaches(lower: u64, upper: u64)
    requires upper >= 200
    ensures var q := PercentFloor(lower - upper, upper);
      q.Some? && (q.value >= 30 <==> 100 * lower >= 130 * upper)
  {
    var n := (lower - upper) * 100;
    if lower >= upper {
      GainQuotient(n, upper);
    } else {
      assert n >= -100 * upper;
      FloorAtLeast(n, upper, -100);
    }
    FloorAtLeast(n, upper, 30);
  }

  lemma FloorAtLeast(n: int, d: nat, k: int)
    requires d > 0
    ensures n / d >= k <==> n >= k * d
  {
    var q, r := n / d, n % d;
    assert n == q * d + r;
    if q >= k {
      assert q * d >= k * d;
    } else {
      assert (q + 1) * d <= k * d;
    }
  }

  lemma PossibleReaches(upper: u64, lower: u64)
    requires lower >= 200 && upper > 0
    ensures var q := PercentCeil(upper - lower, lower);
      q.Some? && (q.value < 30 <==> 100 * upper <= 129 * lower)
  {
    var n := (upper - lower) * 100;
    FloorAtLeast(-n, lower, -29);
    FloorAtLeast(-n, lower, -I64_MAX);
    FloorAtLeast(-n, lower, 101);
    assert -n >= -I64_MAX * lower;
  }

  predicate Substantial(p: Pair) {
    && (p.baselineUpper.Some? ==> p.baselineUpper.value >= 200)
    && (p.baselineLower == 0 || p.baselineLower >= 200)
    && (p.capacityUpper.Some? ==> p.capacityUpper.value > 0)
  }

  lemma PercentsReach(p: Pair)
    requires Honest(p) && Substantial(p)
    ensures p.conservative.Some? <==> p.baselineUpper.Some?
    ensures p.conservative.Some? ==>
              (p.conservative.value >= 30 <==> 100 * p.capacityLower >= 130 * p.baselineUpper.value)
    ensures p.possible.Some? <==> p.capacityUpper.Some? && p.baselineLower > 0
    ensures p.possible.Some? ==> (p.possible.value < 30 <==> 100 * p.capacityUpper.value <= 129 * p.baselineLower)
  {
    if p.baselineUpper.Some? {
      ConservativeReaches(p.capacityLower, p.baselineUpper.value);
    }
    if p.capacityUpper.Some? && p.baselineLower > 0 {
      PossibleReaches(p.capacityUpper.value, p.baselineLower);
    }
  }

  /** The capacity reached at least 1.3 times the size the baseline failed. */
  predicate WellAbove(p: Pair) {
    p.baselineUpper.Some? && 100 * p.capacityLower >= 130 * p.baselineUpper.value
  }

  /** The capacity failed within 1.29 times the size the baseline sustained. */
  predicate WellBelow(p: Pair) {
    p.capacityUpper.Some? && p.baselineLower > 0 && 100 * p.capacityUpper.value <= 129 * p.baselineLower
  }

  lemma MediansOfThree(pairs: seq<Pair>)
    requires |pairs| == 3 && AllValid(pairs)
    ensures var e := Evaluated(pairs);
      && (e.conservative.Some? <==> forall i | 0 <= i < 3 :: pairs[i].conservative.Some?)
      && (e.conservative.Some? ==>
            (e.conservative.value >= 30 <==>
             TwoOfThree(pairs[0].conservative.value >= 30, pairs[1].conservative.value >= 30,
                        pairs[2].conservative.value >= 30)))
      && (e.possible.Some? <==> forall i | 0 <= i < 3 :: pairs[i].possible.Some?)
      && (e.possible.Some? ==>
            (e.possible.value < 30 <==>
             TwoOfThree(pairs[0].possible.value < 30, pairs[1].possible.value < 30, pairs[2].possible.value < 30)))
  {
    var conservatives, possibles := Present(Conservatives(pairs)), Present(Possibles(pairs));
    if |conservatives| == 3 {
      assert conservatives == [conservatives[0], conservatives[1], conservatives[2]];
      MedianOfThree(conservatives[0], conservatives[1], conservatives[2], 30);
    }
    if |possibles| == 3 {
      assert possibles == [possibles[0], possibles[1], possibles[2]];
      MedianOfThree(possibles[0], possibles[1], possibles[2], 30);
    }
  }

  /** The verdict is definite exactly when two of the three pairs say so, and no
      bound that would be needed is missing. */
  lemma StatusExactly(pairs: seq<Pair>)
    requires |pairs| == 3 && AllValid(pairs) && forall p | p in pairs :: Honest(p) && Substantial(p)
    ensures var e := Evaluated(pairs);
      && (e.status == DefinitivelyMet <==> ThreePairsMeet(pairs))
      && (e.status == DefinitivelyNotMet <==> !ThreePairsMeet(pairs) && ThreePairsMiss(pairs))
  {
    assert pairs[0] in pairs && pairs[1] in pairs && pairs[2] in pairs;
    PercentsReach(pairs[0]);
    PercentsReach(pairs[1]);
    PercentsReach(pairs[2]);
    MediansOfThree(pairs);
  }

  predicate ThreePairsMeet(pairs: seq<Pair>)
    requires |pairs| == 3
  {
    && pairs[0].baselineUpper.Some? && pairs[1].baselineUpper.Some? && pairs[2].baselineUpper.Some?
    && TwoOfThree(WellAbove(pairs[0]), WellAbove(pairs[1]), WellAbove(pairs[2]))
  }

  predicate ThreePairsMiss(pairs: seq<Pair>)
    requires |pairs| == 3
  {
    && pairs[0].capacityUpper.Some? && pairs[1].capacityUpper.Some? && pairs[2].capacityUpper.Some?
    && pairs[0].baselineLower > 0 && pairs[1].baselineLower > 0 && pairs[2].baselineLower > 0
    && TwoOfThree(WellBelow(pairs[0]), WellBelow(pairs[1]), WellBelow(pairs[2]))
  }

  ghost predicate GainDoesNotWrap(baseline: u64, capacity: u64)
    requires baseline > 0
  {
    DemonstratedGain(Some(baseline), Some(capacity), false)
      == Some(TruncDiv((capacity - baseline) * 100, baseline))
  }

  /** The demonstrated percentage is cast to 64 bits; it cannot wrap, whatever the
      capacity median, exactly when the baseline median is at least 200 bytes. */
  lemma DemonstratedGainNeverWraps(baseline: u64)
    requires baseline > 0
    ensures (forall c: u64 :: GainDoesNotWrap(baseline, c)) <==> baseline >= 200
  {
    if baseline >= 200 {
      forall c: u64
        ensures GainDoesNotWrap(baseline, c)
      {
        GainFits(baseline, c);
      }
    } else {
      GainWraps(baseline);
    }
  }

  lemma GainFits(baseline: u64, c: u64)
    requires baseline >= 200
    ensures GainDoesNotWrap(baseline, c)
  {
    var q := TruncDiv((c - baseline) * 100, baseline);
    if c >= baseline {
      GainQuotient((c - baseline) * 100, baseline);
    } else {
      LossQuotient((baseline - c) * 100, baseline);
    }
    WrapFits(q);
  }

  lemma GainQuotient(n: nat, d: nat)
    requires d >= 200 && n <= 100 * (U64_MAX - 200)
    ensures 0 <= n / d <= I64_MAX
  {
  }

  lemma LossQuotient(n: nat, d: nat)
    requires d >= 200 && n <= 100 * d
    ensures 0 <= n / d <= 100
  {
  }

  lemma GainWraps(baseline: u64)
    requires 0 < baseline < 200
    ensures !GainDoesNotWrap(baseline, U64_MAX)
  {
  }

}
