/** The frozen pressure plan: the memory set aside for the host, the levels
    derived from what is left, and the validation every plan has to pass. */
module PressurePlan {
  import opened Wrappers
  import opened MachineInts
  import opened RunOrder

  datatype PlannedLevelState =
    | Planned
    | CompletedSustainable
    | CompletedUnsustainable
    | InvalidLevel
    | Aborted
    | NotExecutedAfterUnsustainable
    | NotExecutedAfterInvalid
    | NotExecutedAfterSafetyAbort

  datatype PlannedLevel = PlannedLevel(
    levelIndex: nat,
    targetLogicalBytes: u64,
    targetTouchedBytes: u64,
    seed: nat,
    state: PlannedLevelState)

  // -------------------------------------------------------------------
  // Headroom
  // -------------------------------------------------------------------

  datatype HeadroomPolicy = HeadroomPolicy(
    hostReservePermille: nat,
    minimumHostReserve: u64,
    runnerReserve: u64,
    observerReserve: u64,
    rollbackReserve: u64,
    varianceReserve: u64)

  datatype HeadroomReserve = HeadroomReserve(
    host: u64,
    runner: u64,
    observer: u64,
    rollback: u64,
    variance: u64,
    totalReserved: u64,
    effectiveMaximum: u64)

  predicate PolicyUsable(p: HeadroomPolicy) {
    && 0 < p.hostReservePermille <= 1000
    && p.minimumHostReserve > 0 && p.runnerReserve > 0 && p.observerReserve > 0
    && p.rollbackReserve > 0 && p.varianceReserve > 0
  }

  function CheckedAdd(x: Option<u64>, y: u64): Option<u64> {
    if x.Some? && x.value + y <= U64_MAX then Some(x.value + y) else None
  }

  function CheckedMul(x: u64, y: nat): (r: Option<u64>)
    ensures r.Some? ==> r.value == x * y
  {
    if 0 <= x * y <= U64_MAX then Some(x * y) else None
  }

  function Max(x: u64, y: u64): u64 {
    if x >= y then x else y
  }

  function Derive(p: HeadroomPolicy, available: u64): Option<HeadroomReserve> {
    if !PolicyUsable(p) || available == 0 then None
    else
      var scaled := CheckedMul(available, p.hostReservePermille);
      if scaled.None? then None
      else
        var host := Max(scaled.value / 1000, p.minimumHostReserve);
        var total := CheckedAdd(CheckedAdd(CheckedAdd(CheckedAdd(Some(host),
                       p.runnerReserve), p.observerReserve), p.rollbackReserve), p.varianceReserve);
        if total.None? || total.value > available then None
        else Some(HeadroomReserve(host, p.runnerReserve, p.observerReserve, p.rollbackReserve, p.varianceReserve,
                                  total.value, available - total.value))
  }

  /** Nothing is lost: the reserve is the sum of its parts, the parts are what the
      policy asks for, and reserve plus effective maximum is what was available. */
  lemma DeriveConserves(p: HeadroomPolicy, available: u64)
    requires Derive(p, available).Some?
    ensures var r := Derive(p, available).value;
      && r.totalReserved + r.effectiveMaximum == available
      && r.host + r.runner + r.observer + r.rollback + r.variance == r.totalReserved
      && r.host >= p.minimumHostReserve
      && available * p.hostReservePermille < (r.host + 1) * 1000
      && (r.host == p.minimumHostReserve || r.host * 1000 <= available * p.hostReservePermille)
      && r.runner == p.runnerReserve && r.observer == p.observerReserve
      && r.rollback == p.rollbackReserve && r.variance == p.varianceReserve
  {
  }

  /** More available memory never lowers the effective maximum. */
  lemma DeriveIsMonotone(p: HeadroomPolicy, less: u64, more: u64)
    requires less <= more && Derive(p, less).Some? && Derive(p, more).Some?
    ensures Derive(p, less).value.effectiveMaximum <= Derive(p, more).value.effectiveMaximum
  {
    HostShareGrowsSlower(p.hostReservePermille, less, more - less);
  }

  /** A share of at most a thousand thousandths grows no faster than the whole. */
  lemma HostShareGrowsSlower(permille: nat, x: nat, extra: nat)
    requires permille <= 1000
    ensures x * permille / 1000 <= (x + extra) * permille / 1000 <= x * permille / 1000 + extra
  {
  }

  lemma ScaleAtMost(x: nat, k: nat, top: nat)
    requires k <= top
    ensures 0 <= x * k <= x * top
  {
  }

  /** The derivation succeeds exactly when the share is between one and a thousand
      thousandths and representable, no reserve is zero, and the other reserves fit
      into what is available beside the share and beside the minimum: it is never
      refused for an overflowing sum alone. */
  lemma DeriveSucceedsExactly(p: HeadroomPolicy, available: u64)
    ensures var others := p.runnerReserve + p.observerReserve + p.rollbackReserve + p.varianceReserve;
      Derive(p, available).Some? <==>
        && 1 <= p.hostReservePermille <= 1000
        && p.minimumHostReserve > 0 && p.runnerReserve > 0 && p.observerReserve > 0
        && p.rollbackReserve > 0 && p.varianceReserve > 0
        && available * p.hostReservePermille < 0x1_0000_0000_0000_0000
        && available * p.hostReservePermille / 1000 + others <= available
        && p.minimumHostReserve + others <= available
  {
  }

  // -------------------------------------------------------------------
  // Plan
  // -------------------------------------------------------------------

  datatype Float = NotFinite | Finite(value: real)

  datatype RefinementMode = DeterministicBracket | DisabledForFrameworkPilot

  datatype RefinementPolicy = RefinementPolicy(mode: RefinementMode, granularity: u64, maximumRefinements: u64)

  datatype Watchdog = Watchdog(
    heartbeatTimeout: u64,
    transitionTimeout: u64,
    levelTimeout: u64,
    totalTimeout: u64)

  datatype HealthPolicy = HealthPolicy(
    version: nat,
    hostPsiEmergency: Float,
    cgroupPsiUnsustainable: Float,
    hostOomForbidden: bool,
    requestOom: bool,
    zeroLimitsMeanZeroTolerance: bool)

  datatype StopPolicy = StopPolicy(
    stopAfterFirstUnsustainable: bool,
    stopImmediatelyOnSafetyAbort: bool,
    neverUseSafetyAbortAsBound: bool)

  datatype Scenario = ProgressiveMemoryPressure | OtherScenario(name: string)

  /** What names the experiment: compared with fixed values, all at once. */
  datatype Contract = Contract(
    version: nat,
    scenario: Scenario,
    scenarioVersion: nat,
    variants: seq<BenchmarkVariant>,
    generatorId: string,
    generatorVersion: nat,
    transientScopeRequired: bool,
    exactOwnedWorkerRequired: bool)

  datatype Plan = Plan(
    contract: Contract,
    levels: seq<PlannedLevel>,
    hold: u64,
    stabilization: u64,
    sampleInterval: u64,
    workerMemoryMax: u64,
    watchdog: Watchdog,
    health: HealthPolicy,
    stop: StopPolicy,
    refinement: RefinementPolicy,
    maximumLevels: u64,
    maximumDuration: u64,
    headroom: HeadroomReserve)

  const MAX_PRESSURE_LEVELS: u64 := 12
  const MAX_PRESSURE_DURATION_MS: u64 := 15 * 60 * 1000

  predicate PercentRange(f: Float) {
    f.Finite? && 0.0 <= f.value <= 100.0
  }

  predicate ContractFixed(c: Contract, generatorId: string, generatorVersion: nat) {
    && c.version == 2
    && c.scenario == ProgressiveMemoryPressure
    && c.scenarioVersion == 1
    && c.variants == [CachyosBaseline, NemorObserve]
    && c.generatorId == generatorId
    && c.generatorVersion == generatorVersion
    && c.transientScopeRequired
    && c.exactOwnedWorkerRequired
  }

  predicate Bounded(p: Plan) {
    && 0 < |p.levels| <= p.maximumLevels <= MAX_PRESSURE_LEVELS
    && 0 < p.maximumDuration <= MAX_PRESSURE_DURATION_MS
    && 0 < p.hold && 0 < p.stabilization
    && 0 < p.sampleInterval <= p.hold
    && 0 < p.watchdog.heartbeatTimeout && 0 < p.watchdog.transitionTimeout && 0 < p.watchdog.levelTimeout
    && 0 < p.watchdog.totalTimeout <= p.maximumDuration
  }

  predicate Safe(p: Plan) {
    && p.health.version == 1
    && PercentRange(p.health.hostPsiEmergency) && PercentRange(p.health.cgroupPsiUnsustainable)
    && !p.health.requestOom && p.health.hostOomForbidden && p.health.zeroLimitsMeanZeroTolerance
    && p.stop.stopAfterFirstUnsustainable && p.stop.stopImmediatelyOnSafetyAbort
    && p.stop.neverUseSafetyAbortAsBound
    && p.refinement.granularity > 0
    && p.refinement.maximumRefinements <= p.maximumLevels
    && (p.refinement.mode.DeterministicBracket? <==> p.refinement.maximumRefinements != 0)
  }

  /** What one level may take, or that the sum overflows. */
  function Lifecycle(p: Plan): Option<u64> {
    CheckedAdd(CheckedAdd(CheckedAdd(Some(p.watchdog.transitionTimeout), p.stabilization), p.hold),
               p.watchdog.heartbeatTimeout)
  }

  predicate InTime(p: Plan) {
    var lifecycle := Lifecycle(p);
    && lifecycle.Some?
    && p.watchdog.levelTimeout >= lifecycle.value
    && |p.levels| + p.refinement.maximumRefinements <= U64_MAX
    && var duration := CheckedMul(|p.levels| + p.refinement.maximumRefinements, lifecycle.value);
       && duration.Some?
       && duration.value <= p.maximumDuration
       && duration.value <= p.watchdog.totalTimeout
  }

  /** The levels are unused, numbered from zero, positive, strictly increasing and
      within both limits. */
  predicate LevelsFit(levels: seq<PlannedLevel>, memoryMax: u64, effectiveMaximum: u64) {
    && (forall i | 0 <= i < |levels| ::
          && levels[i].levelIndex == i
          && levels[i].state == Planned
          && levels[i].targetTouchedBytes == levels[i].targetLogicalBytes
          && 0 < levels[i].targetLogicalBytes
          && levels[i].targetLogicalBytes <= memoryMax
          && levels[i].targetLogicalBytes <= effectiveMaximum)
    && forall i, j | 0 <= i < j < |levels| :: levels[i].targetLogicalBytes < levels[j].targetLogicalBytes
  }

  predicate Valid(p: Plan, generatorId: string, generatorVersion: nat) {
    && ContractFixed(p.contract, generatorId, generatorVersion)
    && Bounded(p)
    && Safe(p)
    && InTime(p)
    && 0 < p.workerMemoryMax <= p.headroom.effectiveMaximum
    && LevelsFit(p.levels, p.workerMemoryMax, p.headroom.effectiveMaximum)
  }

  /** The level loop: it keeps the previous size and the indices seen, and accepts
      exactly the levels that fit. */
  method ValidateLevels(levels: seq<PlannedLevel>, memoryMax: u64, effectiveMaximum: u64) returns (ok: bool)
    ensures ok <==> LevelsFit(levels, memoryMax, effectiveMaximum)
  {
    var previous: u64 := 0;
    var indices: set<nat> := {};
    var i := 0;
    while i < |levels|
      invariant 0 <= i <= |levels|
      invariant LevelsFit(levels[..i], memoryMax, effectiveMaximum)
      invariant previous == if i == 0 then 0 else levels[i - 1].targetLogicalBytes
      invariant forall k | k in indices :: k < i
    {
      var level := levels[i];
      if level.targetLogicalBytes == 0 || level.targetTouchedBytes != level.targetLogicalBytes
         || level.targetLogicalBytes <= previous || level.targetTouchedBytes > memoryMax
         || level.targetTouchedBytes > effectiveMaximum || level.state != Planned
         || level.levelIndex != i || level.levelIndex in indices {
        return false;
      }
      indices := indices + {level.levelIndex};
      previous := level.targetLogicalBytes;
      i := i + 1;
    }
    assert levels[..i] == levels;
    ok := true;
  }

  method ValidatePlan(p: Plan, generatorId: string, generatorVersion: nat) returns (ok: bool)
    ensures ok <==> Valid(p, generatorId, generatorVersion)
  {
    if !ContractFixed(p.contract, generatorId, generatorVersion) || !Bounded(p) || !Safe(p) || !InTime(p)
       || p.workerMemoryMax == 0 || p.workerMemoryMax > p.headroom.effectiveMaximum {
      return false;
    }
    ok := ValidateLevels(p.levels, p.workerMemoryMax, p.headroom.effectiveMaximum);
  }

  /** Overflow never decides about the time a plan takes: one level takes the sum of
      four durations, and all levels and refinements together their number of times
      that. */
  lemma InTimeExactly(p: Plan)
    requires p.hold > 0
    ensures var lifecycle := p.watchdog.transitionTimeout + p.stabilization + p.hold + p.watchdog.heartbeatTimeout;
      InTime(p) <==>
        && lifecycle <= p.watchdog.levelTimeout
        && (|p.levels| + p.refinement.maximumRefinements) * lifecycle <= p.maximumDuration
        && (|p.levels| + p.refinement.maximumRefinements) * lifecycle <= p.watchdog.totalTimeout
  {
    var lifecycle := p.watchdog.transitionTimeout + p.stabilization + p.hold + p.watchdog.heartbeatTimeout;
    var count := |p.levels| + p.refinement.maximumRefinements;
    CountAtMost(1, lifecycle, count);
    assert count <= lifecycle * count == count * lifecycle;
  }

  /** What else a valid plan is: the fixed experiment, at most twelve levels and
      fifteen minutes, watchdogs that run, finite thresholds between zero and a
      hundred, no provoked out-of-memory event, and stops that cannot be switched
      off. */
  lemma ValidExactly(p: Plan, generatorId: string, generatorVersion: nat)
    ensures Valid(p, generatorId, generatorVersion) <==>
              && InTime(p) && LevelsFit(p.levels, p.workerMemoryMax, p.headroom.effectiveMaximum)
              && p.contract == Contract(2, ProgressiveMemoryPressure, 1, [CachyosBaseline, NemorObserve], generatorId,
                                        generatorVersion, true, true)
              && 1 <= |p.levels| <= p.maximumLevels <= 12 && 1 <= p.maximumDuration <= 900_000
              && p.stabilization >= 1 && 1 <= p.sampleInterval <= p.hold
              && 1 <= p.workerMemoryMax <= p.headroom.effectiveMaximum
              && p.watchdog.heartbeatTimeout >= 1 && p.watchdog.transitionTimeout >= 1
              && p.watchdog.levelTimeout >= 1 && 1 <= p.watchdog.totalTimeout <= p.maximumDuration
              && p.health.hostPsiEmergency.Finite? && p.health.cgroupPsiUnsustainable.Finite?
              && 0.0 <= p.health.hostPsiEmergency.value <= 100.0
              && 0.0 <= p.health.cgroupPsiUnsustainable.value <= 100.0
              && p.health == HealthPolicy(1, p.health.hostPsiEmergency, p.health.cgroupPsiUnsustainable, true, false,
                                          true)
              && p.stop == StopPolicy(true, true, true)
              && p.refinement.granularity >= 1 && p.refinement.maximumRefinements <= p.maximumLevels
              && (p.refinement.mode == DeterministicBracket <==> p.refinement.maximumRefinements >= 1)
  {
  }

  /** Levels that fit: numbered from zero, unused, of one size for both targets, and
      growing from at least one byte to at most either limit. */
  lemma LevelsFitExactly(levels: seq<PlannedLevel>, memoryMax: u64, effectiveMaximum: u64)
    ensures LevelsFit(levels, memoryMax, effectiveMaximum) <==>
              && (forall i | 0 <= i < |levels| ::
                    levels[i] == PlannedLevel(i, levels[i].targetLogicalBytes, levels[i].targetLogicalBytes,
                                              levels[i].seed, Planned))
              && (levels != [] ==>
                    && levels[0].targetLogicalBytes >= 1
                    && levels[|levels| - 1].targetLogicalBytes <= memoryMax
                    && levels[|levels| - 1].targetLogicalBytes <= effectiveMaximum)
              && (forall i | 0 <= i < |levels| - 1 ::
                    levels[i].targetLogicalBytes < levels[i + 1].targetLogicalBytes)
  {
    if forall i | 0 <= i < |levels| - 1 :: levels[i].targetLogicalBytes < levels[i + 1].targetLogicalBytes {
      forall i, j | 0 <= i < j < |levels|
        ensures levels[i].targetLogicalBytes < levels[j].targetLogicalBytes
      {
        StepsIncrease(levels, i, j);
      }
    }
  }

  /** A valid plan fits its own watchdogs: all planned levels and all refinements,
      each taking its whole lifecycle, end before the total timeout, which is at
      most fifteen minutes. */
  lemma ValidPlanEndsInTime(p: Plan, generatorId: string, generatorVersion: nat, run: nat)
    requires Valid(p, generatorId, generatorVersion) && run <= |p.levels| + p.refinement.maximumRefinements
    ensures Lifecycle(p).Some?
    ensures run * Lifecycle(p).value <= p.watchdog.totalTimeout <= MAX_PRESSURE_DURATION_MS
    ensures p.hold < Lifecycle(p).value <= p.watchdog.levelTimeout
    ensures p.hold < MAX_PRESSURE_DURATION_MS
  {
    assert InTime(p);
    CountAtMost(run, |p.levels| + p.refinement.maximumRefinements, Lifecycle(p).value);
    CountAtMost(1, |p.levels| + p.refinement.maximumRefinements, Lifecycle(p).value);
  }

  lemma CountAtMost(k: nat, top: nat, x: nat)
    requires k <= top
    ensures k * x <= top * x
  {
  }

  // -------------------------------------------------------------------
  // Freezing the levels
  // -------------------------------------------------------------------

  datatype PilotPolicy = PilotPolicy(permilles: seq<nat>, alignment: u64)

  /** The size a fraction of the effective maximum is frozen to, if representable. */
  function FrozenBytes(effectiveMaximum: u64, permille: nat, alignment: u64): Option<u64>
    requires alignment > 0 && permille <= 1000
  {
    var scaled := CheckedMul(effectiveMaximum, permille);
    if scaled.None? then None
    else
      FloorMultiple(scaled.value / 1000, alignment);
      Some(scaled.value / 1000 / alignment * alignment)
  }

  lemma FloorMultiple(x: nat, a: nat)
    requires a > 0
    ensures 0 <= x / a * a <= x
  {
  }

  /** A frozen size is the largest multiple of the alignment within its fraction of
      the effective maximum; there is none exactly when the product overflows. */
  lemma FrozenBytesExactly(effectiveMaximum: u64, permille: nat, alignment: u64, b: u64)
    requires alignment > 0 && permille <= 1000
    ensures FrozenBytes(effectiveMaximum, permille, alignment).None? <==>
              effectiveMaximum * permille >= 0x1_0000_0000_0000_0000
    ensures FrozenBytes(effectiveMaximum, permille, alignment) == Some(b) ==>
              && b % alignment == 0
              && b * 1000 <= effectiveMaximum * permille < (b + alignment) * 1000
  {
    ScaleAtMost(effectiveMaximum, permille, 1000);
    var scaled := effectiveMaximum * permille;
    var share := scaled / 1000;
    assert share == share / alignment * alignment + share % alignment;
    MultipleHasNoRemainder(share / alignment, alignment);
  }

  predicate PilotUsable(p: PilotPolicy) {
    && p.alignment > 0
    && p.permilles != []
    && forall i | 0 <= i < |p.permilles| :: 0 < p.permilles[i] <= 1000
  }

  /** Every fraction is representable and the sizes are positive and increase. */
  predicate Freezes(p: PilotPolicy, effectiveMaximum: u64) {
    && PilotUsable(p)
    && (forall i | 0 <= i < |p.permilles| ::
          var b := FrozenBytes(effectiveMaximum, p.permilles[i], p.alignment);
          b.Some? && b.value > 0)
    && forall i | 0 <= i < |p.permilles| - 1 ::
         FrozenBytes(effectiveMaximum, p.permilles[i], p.alignment).value
         < FrozenBytes(effectiveMaximum, p.permilles[i + 1], p.alignment).value
  }

  /** When the fractions freeze, in plain numbers; only neighbours are compared. */
  lemma FreezesExactly(p: PilotPolicy, effectiveMaximum: u64)
    ensures Freezes(p, effectiveMaximum) <==>
              && p.alignment >= 1 && |p.permilles| >= 1
              && (forall i | 0 <= i < |p.permilles| ::
                    && 1 <= p.permilles[i] <= 1000
                    && effectiveMaximum * p.permilles[i] < 0x1_0000_0000_0000_0000
                    && effectiveMaximum * p.permilles[i] / 1000 >= p.alignment)
              && (forall i | 0 <= i < |p.permilles| - 1 ::
                    && FrozenBytes(effectiveMaximum, p.permilles[i], p.alignment).value
                       < FrozenBytes(effectiveMaximum, p.permilles[i + 1], p.alignment).value)
  {
    if PilotUsable(p) {
      forall i | 0 <= i < |p.permilles|
        ensures FrozenBytes(effectiveMaximum, p.permilles[i], p.alignment).Some? <==>
                  effectiveMaximum * p.permilles[i] < 0x1_0000_0000_0000_0000
        ensures var b := FrozenBytes(effectiveMaximum, p.permilles[i], p.alignment);
          b.Some? ==> (b.value > 0 <==> effectiveMaximum * p.permilles[i] / 1000 >= p.alignment)
      {
        FrozenIsPositive(effectiveMaximum, p.permilles[i], p.alignment);
      }
    }
  }

  lemma FrozenIsPositive(effectiveMaximum: u64, permille: nat, alignment: u64)
    requires alignment > 0 && permille <= 1000
    ensures var b := FrozenBytes(effectiveMaximum, permille, alignment);
      && (b.Some? <==> effectiveMaximum * permille < 0x1_0000_0000_0000_0000)
      && (b.Some? ==> (b.value > 0 <==> effectiveMaximum * permille / 1000 >= alignment))
  {
    ScaleAtMost(effectiveMaximum, permille, 1000);
    var share := effectiveMaximum * permille / 1000;
    var q := share / alignment;
    assert share == q * alignment + share % alignment;
    if q >= 1 {
      CountAtMost(1, q, alignment);
    }
  }

  function FrozenLevel(p: PilotPolicy, effectiveMaximum: u64, seed: nat, i: nat): PlannedLevel
    requires PilotUsable(p) && i < |p.permilles|
    requires FrozenBytes(effectiveMaximum, p.permilles[i], p.alignment).Some?
  {
    var bytes := FrozenBytes(effectiveMaximum, p.permilles[i], p.alignment).value;
    PlannedLevel(i, bytes, bytes, seed, Planned)
  }

  method FreezeLevels(p: PilotPolicy, reserve: HeadroomReserve, seed: nat) returns (r: Option<seq<PlannedLevel>>)
    ensures r.Some? <==> Freezes(p, reserve.effectiveMaximum)
    ensures r.Some? ==>
              && |r.value| == |p.permilles|
              && forall i | 0 <= i < |p.permilles| ::
                   r.value[i] == FrozenLevel(p, reserve.effectiveMaximum, seed, i)
  {
    if !PilotUsable(p) {
      return None;
    }
    var levels: seq<PlannedLevel> := [];
    for i := 0 to |p.permilles|
      invariant |levels| == i
      invariant forall k | 0 <= k < i ::
                  && FrozenBytes(reserve.effectiveMaximum, p.permilles[k], p.alignment).Some?
                  && levels[k] == FrozenLevel(p, reserve.effectiveMaximum, seed, k)
    {
      var bytes := FrozenBytes(reserve.effectiveMaximum, p.permilles[i], p.alignment);
      if bytes.None? {
        return None;
      }
      levels := levels + [PlannedLevel(i, bytes.value, bytes.value, seed, Planned)];
    }
    if (exists i | 0 <= i < |levels| :: levels[i].targetLogicalBytes == 0)
       || !(forall i | 0 <= i < |levels| - 1 :: levels[i].targetLogicalBytes < levels[i + 1].targetLogicalBytes) {
      return None;
    }
    r := Some(levels);
  }

  lemma FrozenWithinMaximum(effectiveMaximum: u64, permille: nat, alignment: u64)
    requires alignment > 0 && permille <= 1000
    ensures var b := FrozenBytes(effectiveMaximum, permille, alignment);
      b.Some? ==> b.value <= effectiveMaximum && b.value % alignment == 0
  {
    ScaleAtMost(effectiveMaximum, permille, 1000);
    var scaled := effectiveMaximum * permille;
    FloorMultiple(scaled / 1000, alignment);
    MultipleHasNoRemainder(scaled / 1000 / alignment, alignment);
  }

  lemma MultipleHasNoRemainder(k: nat, a: nat)
    requires a > 0
    ensures k * a % a == 0
  {
    var q, r := k * a / a, k * a % a;
    assert k * a == q * a + r;
    assert (k - q) * a == r;
    NonzeroIsLarge(k - q, a);
  }

  lemma NonzeroIsLarge(m: int, a: nat)
    requires a > 0
    ensures m != 0 ==> m * a >= a || m * a < 0
  {
  }

  lemma {:induction false} StepsIncrease(levels: seq<PlannedLevel>, i: nat, j: nat)
    requires forall k | 0 <= k < |levels| - 1 :: levels[k].targetLogicalBytes < levels[k + 1].targetLogicalBytes
    requires i < j < |levels|
    ensures levels[i].targetLogicalBytes < levels[j].targetLogicalBytes
  {
    if i < j - 1 {
      StepsIncrease(levels, i, j - 1);
    }
    assert levels[j - 1].targetLogicalBytes < levels[j - 1 + 1].targetLogicalBytes;
  }

  /** Frozen levels pass the level loop of the plan they are frozen for, for every
      worker limit from the top level to the effective maximum, and for no worker
      limit below the top level. */
  lemma FrozenLevelsFit(p: PilotPolicy, effectiveMaximum: u64, seed: nat, memoryMax: u64, levels: seq<PlannedLevel>)
    requires Freezes(p, effectiveMaximum)
    requires |levels| == |p.permilles|
    requires forall i | 0 <= i < |p.permilles| :: levels[i] == FrozenLevel(p, effectiveMaximum, seed, i)
    ensures LevelsFit(levels, memoryMax, effectiveMaximum) <==> memoryMax >= levels[|levels| - 1].targetLogicalBytes
  {
    forall i, j | 0 <= i < j < |levels|
      ensures levels[i].targetLogicalBytes < levels[j].targetLogicalBytes
    {
      StepsIncrease(levels, i, j);
    }
    forall i | 0 <= i < |levels|
      ensures levels[i].targetLogicalBytes <= effectiveMaximum
    {
      FrozenWithinMaximum(effectiveMaximum, p.permilles[i], p.alignment);
    }
  }
}
