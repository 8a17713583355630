/** The evidence of pressure levels, its contract, and the simulated run that stops
    at the first level that is not sustainable. */
module PressureRun {
  import opened Wrappers
  import opened MachineInts
  import opened RunOrder
  import opened PressurePlan

  datatype HealthGate =
    | WorkerAlive
    | WorkerIdentity
    | HeartbeatFresh
    | WorkerIntegrity
    | CgroupMembership
    | MemoryLimitContract
    | HostPsi
    | CgroupPsi
    | MajorFaults
    | SwapIn
    | SwapOut
    | BlockWrites
    | WorkerCpu
    | RunnerCpu
    | ObserverContract
    | ElapsedDuration
    | RestoreOwnership

  /** Names the code formats, kept as what they are formatted from. */
  datatype Name =
    | Blank
    | SimulatedExperiment
    | RunName(variant: BenchmarkVariant, repetition: nat)
    | IntegrityName(seed: nat, touched: u64)
    | WorkloadName(seed: nat, touched: u64)
    | OtherName(text: string)

  datatype Reason =
    | AllPlannedLevelsCompleted
    | Given(text: string)
    | AbortReason(kind: SafetyAbortClass)
    | WorkerContractFailure
    | SimulatedOutcome

  datatype GateResult = GateResult(passed: bool, mandatory: bool, reason: Option<Reason>)

  datatype SafetyAbortClass =
    | HostPsiEmergency
    | HostOomDetected
    | CgroupOwnershipLost
    | WorkerIdentityLost
    | WorkerHeartbeatTimeout
    | WatchdogTimeout
    | MemoryLimitContractBroken
    | ObserverContractBroken
    | RestoreFailure

  datatype Classification = Sustainable | UnsustainableHealth | InvalidLevelEvidence | SafetyAbort

  datatype Acknowledgement = Acknowledgement(
    experimentId: Name,
    runId: Name,
    levelIndex: nat,
    seed: nat,
    priorTouched: u64,
    requestedDelta: int,
    actualTouched: u64,
    workerPid: nat,
    workerStartTicks: nat,
    generatorId: string,
    generatorVersion: nat,
    integrityIdentity: Name,
    acknowledgedNs: nat)

  datatype Evidence = Evidence(
    version: nat,
    experimentId: Name,
    runId: Name,
    variant: BenchmarkVariant,
    repetition: nat,
    levelIndex: nat,
    plannedBytes: u64,
    actualTouched: u64,
    ack: Acknowledgement,
    workerMemoryMax: u64,
    generatorId: string,
    generatorVersion: nat,
    workloadIdentity: Name,
    integrityIdentity: Name,
    startedNs: nat,
    endedNs: nat,
    stabilization: u64,
    duration: u64,
    sampleCount: nat,
    rawSamples: nat,
    watchdogTriggered: bool,
    oom: u64,
    oomKill: u64,
    gates: map<HealthGate, GateResult>,
    classification: Classification,
    safetyAbort: Option<SafetyAbortClass>,
    failureReason: Option<Reason>)

  const LEVEL_EVIDENCE_VERSION := 2

  function RequiredGates(variant: BenchmarkVariant): set<HealthGate> {
    {WorkerAlive, WorkerIdentity, HeartbeatFresh, WorkerIntegrity, CgroupMembership, MemoryLimitContract, HostPsi,
     CgroupPsi, MajorFaults, SwapIn, SwapOut, BlockWrites, WorkerCpu, RunnerCpu, ElapsedDuration}
    + if variant == NemorObserve then {ObserverContract} else {}
  }

  // -------------------------------------------------------------------
  // The evidence contract
  // -------------------------------------------------------------------

  /** What the level before was planned to touch. */
  function PriorTouched(p: Plan, levelIndex: nat): u64
    requires levelIndex <= |p.levels|
  {
    if levelIndex == 0 then 0 else p.levels[levelIndex - 1].targetTouchedBytes
  }

  predicate AckMatches(a: Acknowledgement, e: Evidence, level: PlannedLevel, prior: u64) {
    && level.targetTouchedBytes >= prior
    && a.experimentId == e.experimentId
    && a.runId == e.runId
    && a.levelIndex == level.levelIndex
    && a.seed == level.seed
    && a.priorTouched == prior
    && a.requestedDelta == level.targetTouchedBytes - prior
    && a.workerPid != 0
    && a.workerStartTicks != 0
    && a.generatorId == e.generatorId
    && a.generatorVersion == e.generatorVersion
    && a.integrityIdentity == e.integrityIdentity
    && a.acknowledgedNs <= e.startedNs
  }

  predicate MatchesPlan(e: Evidence, level: PlannedLevel, p: Plan) {
    && e.version == LEVEL_EVIDENCE_VERSION
    && e.levelIndex == level.levelIndex
    && e.plannedBytes == level.targetLogicalBytes
    && e.workerMemoryMax == p.workerMemoryMax
    && e.generatorId == p.contract.generatorId
    && e.generatorVersion == p.contract.generatorVersion
    && e.duration <= p.watchdog.levelTimeout
    && e.workloadIdentity != Blank && e.integrityIdentity != Blank
    && (if e.classification.InvalidLevelEvidence? then e.stabilization == 0 else e.stabilization >= p.stabilization)
    && e.endedNs > e.startedNs
  }

  function Distance(x: nat, y: nat): nat {
    if x >= y then x - y else y - x
  }

  /** The level was measured for the whole hold, sampled often enough; or, if it is
      invalid, it does not claim any measurement. */
  predicate TimingCovered(e: Evidence, p: Plan)
    requires p.sampleInterval > 0 && e.endedNs > e.startedNs
  {
    var elapsed := (e.endedNs - e.startedNs) / 1_000_000;
    var minimumDuration := if p.hold >= p.sampleInterval then p.hold - p.sampleInterval else 0;
    && p.hold + (p.sampleInterval - 1) <= U64_MAX
    && var minimumSamples := (p.hold + (p.sampleInterval - 1)) / p.sampleInterval;
       && (if e.classification.InvalidLevelEvidence? then
             e.duration == 0 && e.sampleCount == 0 && e.rawSamples == 0
           else
             && e.duration >= minimumDuration && elapsed >= minimumDuration
             && Distance(elapsed, e.duration) <= p.sampleInterval
             && e.sampleCount >= minimumSamples)
       && (e.rawSamples != 0 ==> e.rawSamples == e.sampleCount)
  }

  predicate ClassificationEarned(e: Evidence, level: PlannedLevel) {
    && (e.classification.Sustainable? ==>
          && e.gates.Keys == RequiredGates(e.variant)
          && e.actualTouched == level.targetTouchedBytes
          && !e.watchdogTriggered && e.oom == 0 && e.oomKill == 0
          && forall g | g in e.gates :: e.gates[g].mandatory && e.gates[g].passed)
    && (e.classification.UnsustainableHealth? ==> e.actualTouched == level.targetTouchedBytes)
    && (e.classification.SafetyAbort? <==> e.safetyAbort.Some?)
  }

  predicate EvidenceValid(e: Evidence, level: PlannedLevel, p: Plan)
    requires p.sampleInterval > 0 && level.levelIndex <= |p.levels|
  {
    && MatchesPlan(e, level, p)
    && AckMatches(e.ack, e, level, PriorTouched(p, level.levelIndex))
    && e.actualTouched == e.ack.actualTouched
    && TimingCovered(e, p)
    && ClassificationEarned(e, level)
  }

  /** The timing of a level that is not invalid: stabilised and held to within one
      interval, by its own account and by the clock, with a sample for every interval
      begun; an invalid level claims none of it. */
  lemma TimingExactly(e: Evidence, p: Plan)
    requires p.sampleInterval > 0 && e.endedNs > e.startedNs
    ensures var elapsed := (e.endedNs - e.startedNs) / 1_000_000;
      TimingCovered(e, p) <==>
        && p.hold + p.sampleInterval <= 0x1_0000_0000_0000_0000
        && (e.rawSamples == 0 || e.rawSamples == e.sampleCount)
        && if e.classification == InvalidLevelEvidence then e.duration == 0 && e.sampleCount == 0 && e.rawSamples == 0
           else
             && e.duration + p.sampleInterval >= p.hold && elapsed + p.sampleInterval >= p.hold
             && elapsed <= e.duration + p.sampleInterval && e.duration <= elapsed + p.sampleInterval
             && e.sampleCount * p.sampleInterval >= p.hold
  {
    SamplesCover(e.sampleCount, p.hold, p.sampleInterval);
  }

  lemma SamplesCover(count: nat, hold: nat, interval: nat)
    requires interval > 0
    ensures count >= (hold + (interval - 1)) / interval <==> count * interval >= hold
  {
    var n := hold + (interval - 1);
    var q, rest := n / interval, n % interval;
    assert n == q * interval + rest;
    if count >= q {
      CountAtMost(q, count, interval);
    } else {
      CountAtMost(count + 1, q, interval);
      assert (count + 1) * interval == count * interval + interval;
    }
  }

  /** What evidence is worth: it is of this level of this plan, acknowledged before it
      started by a live worker that was asked for exactly the missing bytes, and its
      timing is covered; a level that stopped without an abort class, or at the wrong
      size, is not evidence. */
  lemma ValidEvidenceExactly(e: Evidence, level: PlannedLevel, p: Plan)
    requires p.sampleInterval > 0 && level.levelIndex <= |p.levels|
    ensures var prior := if level.levelIndex == 0 then 0 else p.levels[level.levelIndex - 1].targetTouchedBytes;
      EvidenceValid(e, level, p) <==>
        && e.version == 2 && e.levelIndex == level.levelIndex == e.ack.levelIndex
        && e.plannedBytes == level.targetLogicalBytes && e.workerMemoryMax == p.workerMemoryMax
        && e.generatorId == p.contract.generatorId == e.ack.generatorId
        && e.generatorVersion == p.contract.generatorVersion == e.ack.generatorVersion
        && e.workloadIdentity != Blank && e.integrityIdentity == e.ack.integrityIdentity != Blank
        && e.ack.experimentId == e.experimentId && e.ack.runId == e.runId && e.ack.seed == level.seed
        && e.ack.workerPid > 0 && e.ack.workerStartTicks > 0
        && e.ack.priorTouched == prior && e.ack.requestedDelta == level.targetTouchedBytes - prior >= 0
        && e.actualTouched == e.ack.actualTouched
        && e.ack.acknowledgedNs <= e.startedNs < e.endedNs
        && e.duration <= p.watchdog.levelTimeout
        && (if e.classification == InvalidLevelEvidence then e.stabilization == 0
            else e.stabilization >= p.stabilization)
        && TimingCovered(e, p)
        && (e.classification == SafetyAbort <==> e.safetyAbort.Some?)
        && (e.classification == UnsustainableHealth ==> e.actualTouched == level.targetTouchedBytes)
        && (e.classification == Sustainable ==>
              && e.actualTouched == level.targetTouchedBytes
              && !e.watchdogTriggered && e.oom == 0 && e.oomKill == 0
              && e.gates.Keys == RequiredGates(e.variant)
              && forall g | g in e.gates :: e.gates[g].mandatory && e.gates[g].passed)
  {
  }

  /** A valid sustainable level touched exactly what was planned without any
      out-of-memory event or watchdog, and passed every gate there is: fifteen, and
      the observer's for the observed variant. */
  lemma SustainableEvidenceMeans(e: Evidence, level: PlannedLevel, p: Plan, gate: HealthGate)
    requires p.sampleInterval > 0 && level.levelIndex <= |p.levels|
    requires EvidenceValid(e, level, p) && e.classification == Sustainable
    ensures e.actualTouched == level.targetTouchedBytes && !e.watchdogTriggered && e.oom == 0 && e.oomKill == 0
    ensures gate in e.gates <==>
              gate != RestoreOwnership && (gate == ObserverContract ==> e.variant == NemorObserve)
    ensures gate in e.gates ==> e.gates[gate].mandatory && e.gates[gate].passed
  {
    assert gate in e.gates.Keys <==> gate in RequiredGates(e.variant);
  }

  // -------------------------------------------------------------------
  // Simulated levels
  // -------------------------------------------------------------------

  datatype Outcome =
    | Sustained
    | Unhealthy(reason: string)
    | Abort(kind: SafetyAbortClass)
    | Mismatch(touched: u64)

  function ClassOf(o: Outcome): Classification {
    match o
    case Sustained => Sustainable
    case Unhealthy(_) => UnsustainableHealth
    case Abort(_) => SafetyAbort
    case Mismatch(_) => InvalidLevelEvidence
  }

  function ReasonOf(o: Outcome): Option<Reason> {
    match o
    case Sustained => None
    case Unhealthy(reason) => Some(Given(reason))
    case Abort(kind) => Some(AbortReason(kind))
    case Mismatch(_) => Some(WorkerContractFailure)
  }

  function FailedGate(abort: Option<SafetyAbortClass>): HealthGate {
    match abort
    case None => WorkerIntegrity
    case Some(HostPsiEmergency) => HostPsi
    case Some(HostOomDetected) => HostPsi
    case Some(CgroupOwnershipLost) => CgroupMembership
    case Some(WorkerIdentityLost) => WorkerIdentity
    case Some(WorkerHeartbeatTimeout) => HeartbeatFresh
    case Some(WatchdogTimeout) => ElapsedDuration
    case Some(MemoryLimitContractBroken) => MemoryLimitContract
    case Some(ObserverContractBroken) => ObserverContract
    case Some(RestoreFailure) => RestoreOwnership
  }

  function SimulatedGate(sustained: bool, gate: HealthGate, failed: HealthGate): GateResult {
    var passed := sustained || gate != failed;
    GateResult(passed, true, if passed then None else Some(SimulatedOutcome))
  }

  function SimulatedGates(variant: BenchmarkVariant, o: Outcome): map<HealthGate, GateResult> {
    var failed := FailedGate(if o.Abort? then Some(o.kind) else None);
    map g | g in RequiredGates(variant) :: SimulatedGate(o.Sustained?, g, failed)
  }

  /** At least one sample, and one per whole interval. */
  function Samples(p: Plan): nat
    requires p.sampleInterval > 0
  {
    if p.hold / p.sampleInterval >= 1 then p.hold / p.sampleInterval else 1
  }

  /** The samples of a level: the whole intervals in its hold, and one at least. */
  lemma SamplesExactly(p: Plan)
    requires p.sampleInterval > 0
    ensures p.hold < p.sampleInterval ==> Samples(p) == 1
    ensures p.hold >= p.sampleInterval ==>
              Samples(p) * p.sampleInterval <= p.hold < (Samples(p) + 1) * p.sampleInterval
  {
    assert p.hold == p.hold / p.sampleInterval * p.sampleInterval + p.hold % p.sampleInterval;
    if p.hold >= p.sampleInterval {
      RoundingUpIsExact(p.hold, p.sampleInterval);
    }
  }

  function Simulated(p: Plan, i: nat, variant: BenchmarkVariant, repetition: nat, o: Outcome): Evidence
    requires i < |p.levels| && p.sampleInterval > 0
  {
    var level := p.levels[i];
    var invalid := o.Mismatch?;
    var touched := if o.Mismatch? then o.touched else level.targetTouchedBytes;
    var prior := PriorTouched(p, i);
    var start := i * 1_000_000;
    Evidence(
      LEVEL_EVIDENCE_VERSION, SimulatedExperiment, RunName(variant, repetition), variant, repetition, i,
      level.targetLogicalBytes, touched,
      Acknowledgement(SimulatedExperiment, RunName(variant, repetition), i, level.seed, prior,
                      level.targetTouchedBytes - prior,
                      touched, 4242, 31337, p.contract.generatorId, p.contract.generatorVersion,
                      IntegrityName(level.seed, touched), start),
      p.workerMemoryMax, p.contract.generatorId, p.contract.generatorVersion,
      WorkloadName(level.seed, touched), IntegrityName(level.seed, touched),
      start, start + (if invalid then 1 else p.hold * 1_000_000),
      if invalid then 0 else p.stabilization,
      if invalid then 0 else p.hold,
      if invalid then 0 else Samples(p),
      0,
      o == Abort(WatchdogTimeout),
      if o == Abort(HostOomDetected) then 1 else 0,
      0,
      SimulatedGates(variant, o),
      ClassOf(o),
      if o.Abort? then Some(o.kind) else None,
      ReasonOf(o))
  }

  /** Which gate an outcome fails. */
  predicate Fails(o: Outcome, gate: HealthGate) {
    match o
    case Sustained => false
    case Unhealthy(_) => gate == WorkerIntegrity
    case Mismatch(_) => gate == WorkerIntegrity
    case Abort(kind) =>
      || (gate == HostPsi && (kind == HostPsiEmergency || kind == HostOomDetected))
      || (gate == CgroupMembership && kind == CgroupOwnershipLost)
      || (gate == WorkerIdentity && kind == WorkerIdentityLost)
      || (gate == HeartbeatFresh && kind == WorkerHeartbeatTimeout)
      || (gate == ElapsedDuration && kind == WatchdogTimeout)
      || (gate == MemoryLimitContract && kind == MemoryLimitContractBroken)
      || (gate == ObserverContract && kind == ObserverContractBroken)
      || (gate == RestoreOwnership && kind == RestoreFailure)
  }

  /** A simulated level reports every required gate, all passed but the one its
      outcome fails. */
  lemma SimulatedGatesExactly(variant: BenchmarkVariant, o: Outcome, gate: HealthGate)
    ensures var gates := SimulatedGates(variant, o);
      && gates.Keys == RequiredGates(variant)
      && (gate in gates ==>
            gates[gate] == GateResult(!Fails(o, gate), true, if Fails(o, gate) then Some(SimulatedOutcome) else None))
  {
    var failed := FailedGate(if o.Abort? then Some(o.kind) else None);
    FailsExactly(o, gate);
    assert SimulatedGates(variant, o) == map g | g in RequiredGates(variant) :: SimulatedGate(o.Sustained?, g, failed);
  }

  lemma FailsExactly(o: Outcome, gate: HealthGate)
    ensures Fails(o, gate) <==> !o.Sustained? && gate == FailedGate(if o.Abort? then Some(o.kind) else None)
  {
  }

  /** What else it shows, by its outcome. */
  lemma SimulatedShows(p: Plan, i: nat, variant: BenchmarkVariant, repetition: nat, o: Outcome)
    requires i < |p.levels| && p.sampleInterval > 0
    ensures var e := Simulated(p, i, variant, repetition, o);
      && e.gates == SimulatedGates(variant, o)
      && e.levelIndex == i && e.variant == variant && e.repetition == repetition
      && e.plannedBytes == p.levels[i].targetLogicalBytes
      && e.actualTouched == (if o.Mismatch? then o.touched else p.levels[i].targetTouchedBytes)
      && e.startedNs == i * 1_000_000 == e.ack.acknowledgedNs && e.rawSamples == 0
      && e.endedNs == e.startedNs + (if o.Mismatch? then 1 else p.hold * 1_000_000)
      && e.stabilization == (if o.Mismatch? then 0 else p.stabilization)
      && e.duration == (if o.Mismatch? then 0 else p.hold)
      && e.sampleCount == (if o.Mismatch? then 0 else Samples(p))
      && e.ack.workerPid == 4242 && e.ack.workerStartTicks == 31337
      && (e.watchdogTriggered <==> o == Abort(WatchdogTimeout))
      && e.oom == (if o == Abort(HostOomDetected) then 1 else 0) && e.oomKill == 0
      && match o
         case Sustained =>
           e.classification == Sustainable && e.failureReason == None && e.safetyAbort == None
         case Unhealthy(reason) =>
           e.classification == UnsustainableHealth && e.failureReason == Some(Given(reason)) && e.safetyAbort == None
         case Mismatch(_) =>
           && e.classification == InvalidLevelEvidence && e.failureReason == Some(WorkerContractFailure)
           && e.safetyAbort == None
         case Abort(kind) =>
           && e.classification == SafetyAbort && e.failureReason == Some(AbortReason(kind))
           && e.safetyAbort == Some(kind)
  {
  }

  lemma RoundingUpIsExact(n: nat, d: nat)
    requires 0 < d <= n
    ensures n / d >= 1
    ensures n / d >= (n + (d - 1)) / d <==> n % d == 0
  {
    var q, r := n / d, n % d;
    assert n == q * d + r;
    var up := (n + (d - 1)) / d;
    if r == 0 {
      QuotientIs(n + (d - 1), d, q, d - 1);
    } else {
      assert n + (d - 1) == (q + 1) * d + (r - 1) by {
        assert (q + 1) * d == q * d + d;
      }
      QuotientIs(n + (d - 1), d, q + 1, r - 1);
    }
    assert q == 0 ==> q * d == 0;
  }

  lemma QuotientIs(n: nat, d: nat, q: nat, r: nat)
    requires d > 0 && n == q * d + r && r < d
    ensures n / d == q
  {
    var x, y := n / d, n % d;
    assert n == x * d + y;
    assert (x - q) * d == r - y;
    NonzeroIsLarge(x - q, d);
    NonzeroIsLarge(q - x, d);
    assert (q - x) * d == y - r;
  }

  /** A simulated level satisfies its own contract exactly when the sampling
      interval divides the hold, or the level is invalid and claims no samples. */
  lemma {:induction false} SimulatedIsValidExactly(p: Plan, generatorId: string, generatorVersion: nat, i: nat,
                                                   variant: BenchmarkVariant, repetition: nat, o: Outcome)
    requires Valid(p, generatorId, generatorVersion) && i < |p.levels|
    ensures EvidenceValid(Simulated(p, i, variant, repetition, o), p.levels[i], p) <==>
            p.hold % p.sampleInterval == 0 || o.Mismatch?
  {
    var e := Simulated(p, i, variant, repetition, o);
    ValidPlanEndsInTime(p, generatorId, generatorVersion, 0);
    RoundingUpIsExact(p.hold, p.sampleInterval);
    assert i > 0 ==> p.levels[i - 1].targetLogicalBytes < p.levels[i].targetLogicalBytes;
    assert MatchesPlan(e, p.levels[i], p);
    assert AckMatches(e.ack, e, p.levels[i], PriorTouched(p, i));
    assert ClassificationEarned(e, p.levels[i]) by {
      assert e.gates.Keys == RequiredGates(variant);
    }
    assert !o.Mismatch? ==> (e.endedNs - e.startedNs) / 1_000_000 == p.hold;
  }

  /** A plan of one level, held for three milliseconds and sampled every two. */
  function UnevenPlan(): Plan {
    Plan(Contract(2, ProgressiveMemoryPressure, 1, [CachyosBaseline, NemorObserve], "g", 1, true, true),
         [PlannedLevel(0, 1, 1, 0, Planned)],
         3, 1, 2, 1,
         Watchdog(1, 1, 6, 6),
         HealthPolicy(1, Finite(0.0), Finite(0.0), true, false, true),
         StopPolicy(true, true, true),
         RefinementPolicy(DisabledForFrameworkPilot, 1, 0),
         1, 6,
         HeadroomReserve(1, 1, 1, 1, 1, 5, 1))
  }

  /** That plan is valid, and its sustained level fails the evidence contract: one
      sample is taken where two are asked for. */
  lemma UnevenPlanFails(variant: BenchmarkVariant, repetition: nat)
    ensures Valid(UnevenPlan(), "g", 1)
    ensures var e := Simulated(UnevenPlan(), 0, variant, repetition, Sustained);
      e.sampleCount == 1 && !EvidenceValid(e, UnevenPlan().levels[0], UnevenPlan())
  {
    assert Lifecycle(UnevenPlan()) == Some(6);
    SimulatedIsValidExactly(UnevenPlan(), "g", 1, 0, variant, repetition, Sustained);
  }

  // -------------------------------------------------------------------
  // The run
  // -------------------------------------------------------------------

  function HighestSustainable(levels: seq<Evidence>, exactOnly: bool): Option<u64> {
    if levels == [] then None
    else
      var before, last := HighestSustainable(levels[..|levels| - 1], exactOnly), levels[|levels| - 1];
      if !last.classification.Sustainable? || (exactOnly && last.actualTouched != last.plannedBytes) then before
      else if before.Some? && before.value > last.actualTouched then before
      else Some(last.actualTouched)
  }

  function LowestUnsustainable(levels: seq<Evidence>): Option<u64> {
    if levels == [] then None
    else
      var before, last := LowestUnsustainable(levels[..|levels| - 1]), levels[|levels| - 1];
      if !last.classification.UnsustainableHealth? || last.actualTouched != last.plannedBytes then before
      else if before.Some? && before.value < last.plannedBytes then before
      else Some(last.plannedBytes)
  }

  predicate CountsBelow(l: Evidence, exactOnly: bool) {
    l.classification == Sustainable && (exactOnly ==> l.actualTouched == l.plannedBytes)
  }

  predicate CountsAbove(l: Evidence) {
    l.classification == UnsustainableHealth && l.actualTouched == l.plannedBytes
  }

  /** Of any levels in any order, the highest bound is the largest size of those that
      count, and the lowest the smallest. */
  lemma {:induction false} BoundsAreExtreme(levels: seq<Evidence>, exactOnly: bool)
    ensures match HighestSustainable(levels, exactOnly)
            case None => forall l | l in levels :: !CountsBelow(l, exactOnly)
            case Some(high) =>
              && (exists l :: l in levels && CountsBelow(l, exactOnly) && l.actualTouched == high)
              && (forall l | l in levels && CountsBelow(l, exactOnly) :: l.actualTouched <= high)
    ensures match LowestUnsustainable(levels)
            case None => forall l | l in levels :: !CountsAbove(l)
            case Some(low) =>
              && (exists l :: l in levels && CountsAbove(l) && l.plannedBytes == low)
              && (forall l | l in levels && CountsAbove(l) :: low <= l.plannedBytes)
  {
    if levels != [] {
      var init, last := levels[..|levels| - 1], levels[|levels| - 1];
      BoundsAreExtreme(init, exactOnly);
      assert levels == init + [last] && last in levels;
      assert forall l | l in init :: l in levels;
      assert forall l | l in levels :: l in init || l == last;
    }
  }

  function FirstAbort(levels: seq<Evidence>): Option<SafetyAbortClass> {
    if levels == [] then None
    else if levels[0].safetyAbort.Some? then levels[0].safetyAbort
    else FirstAbort(levels[1..])
  }

  predicate AnyInvalid(levels: seq<Evidence>) {
    exists i | 0 <= i < |levels| :: levels[i].classification.InvalidLevelEvidence?
  }

  /** The digest stands for what is digested. */
  datatype Digest = Digest(highest: Option<u64>, lowest: Option<u64>, complete: bool, abort: Option<SafetyAbortClass>)

  datatype CapacityResult = CapacityResult(
    highest: Option<u64>,
    lowest: Option<u64>,
    searchComplete: bool,
    safetyAbort: Option<SafetyAbortClass>,
    digest: Digest)
  {
    predicate ValidFor(levels: seq<Evidence>) {
      && digest == Digest(highest, lowest, searchComplete, safetyAbort)
      && highest == HighestSustainable(levels, true)
      && lowest == LowestUnsustainable(levels)
      && (searchComplete ==> safetyAbort.None? && !AnyInvalid(levels) && highest.Some? && lowest.Some?)
    }
  }

  datatype Run = Run(
    plannedLevels: seq<PlannedLevel>,
    levels: seq<Evidence>,
    highest: Option<u64>,
    lowest: Option<u64>,
    refinementEligible: bool,
    invalidEvidence: bool,
    safetyAbort: Option<SafetyAbortClass>,
    stoppedReason: Reason,
    capacity: CapacityResult)

  function Summarize(planned: seq<PlannedLevel>, levels: seq<Evidence>, stoppedReason: Reason): Run {
    var highest, lowest := HighestSustainable(levels, false), LowestUnsustainable(levels);
    var abort, invalid := FirstAbort(levels), AnyInvalid(levels);
    Run(planned, levels, highest, lowest,
        abort.None? && !invalid && highest.Some? && lowest.Some? && highest.value < lowest.value,
        invalid, abort, stoppedReason,
        CapacityResult(highest, lowest, false, abort, Digest(highest, lowest, false, abort)))
  }

  /** A capacity result is determined by the levels it is valid for, up to whether it
      calls the search complete; and it may only do so without any abort or invalid
      evidence and with both bounds. */
  lemma ValidCapacityIsDetermined(a: CapacityResult, b: CapacityResult, levels: seq<Evidence>)
    requires a.ValidFor(levels) && b.ValidFor(levels)
    ensures a.highest == b.highest == HighestSustainable(levels, true) && a.lowest == b.lowest
    ensures a.searchComplete == b.searchComplete && a.safetyAbort == b.safetyAbort ==> a == b
    ensures a.searchComplete ==>
              && a.safetyAbort == None && a.highest.Some? && a.lowest.Some?
              && forall l | l in levels :: l.classification != InvalidLevelEvidence
  {
  }

  /** What a summary offers for refinement, whatever the levels: two bounds in order,
      without any abort or invalid evidence. */
  lemma SummaryOffersExactly(planned: seq<PlannedLevel>, levels: seq<Evidence>, stoppedReason: Reason)
    ensures var r := Summarize(planned, levels, stoppedReason);
      r.refinementEligible <==>
        && r.highest.Some? && r.lowest.Some? && r.highest.value < r.lowest.value
        && (forall l | l in levels :: l.safetyAbort == None && l.classification != InvalidLevelEvidence)
  {
    AbortIsFound(levels);
  }

  lemma {:induction false} AbortIsFound(levels: seq<Evidence>)
    ensures FirstAbort(levels) == None <==> forall l | l in levels :: l.safetyAbort == None
  {
    if levels != [] {
      AbortIsFound(levels[1..]);
      assert levels == [levels[0]] + levels[1..];
    }
  }

  function StateAfter(c: Classification): PlannedLevelState {
    match c
    case Sustainable => CompletedSustainable
    case UnsustainableHealth => CompletedUnsustainable
    case InvalidLevelEvidence => InvalidLevel
    case SafetyAbort => Aborted
  }

  function LaterState(c: Classification): PlannedLevelState {
    match c
    case Sustainable => Planned
    case UnsustainableHealth => NotExecutedAfterUnsustainable
    case InvalidLevelEvidence => NotExecutedAfterInvalid
    case SafetyAbort => NotExecutedAfterSafetyAbort
  }

  function OutcomeAt(outcomes: map<nat, Outcome>, i: nat): Outcome {
    if i in outcomes then outcomes[i] else Sustained
  }

  /** The first `n` levels were executed: all but the last sustainable, and each
      with the evidence of its outcome. */
  predicate Executed(p: Plan, variant: BenchmarkVariant, repetition: nat, outcomes: map<nat, Outcome>,
                     levels: seq<Evidence>)
    requires p.sampleInterval > 0
  {
    && |levels| <= |p.levels|
    && (forall i {:trigger levels[i]} | 0 <= i < |levels| ::
          levels[i] == Simulated(p, i, variant, repetition, OutcomeAt(outcomes, i)))
    && forall i | 0 <= i < |levels| - 1 :: OutcomeAt(outcomes, i).Sustained?
  }

  /** What became of every planned level. */
  predicate Marked(p: Plan, outcomes: map<nat, Outcome>, n: nat, planned: seq<PlannedLevel>) {
    && |planned| == |p.levels| && n <= |planned|
    && (forall i {:trigger planned[i]} | 0 <= i < n ::
          planned[i] == p.levels[i].(state := StateAfter(ClassOf(OutcomeAt(outcomes, i)))))
    && forall i {:trigger planned[i]} | n <= i < |planned| ::
         planned[i] == p.levels[i].(state :=
           if n == 0 then Planned else LaterState(ClassOf(OutcomeAt(outcomes, n - 1))))
  }

  function StoppedReason(outcomes: map<nat, Outcome>, n: nat): Reason {
    if n > 0 && ReasonOf(OutcomeAt(outcomes, n - 1)).Some? then ReasonOf(OutcomeAt(outcomes, n - 1)).value
    else AllPlannedLevelsCompleted
  }

  predicate RunsToStop(p: Plan, variant: BenchmarkVariant, repetition: nat, outcomes: map<nat, Outcome>, r: Run)
    requires p.sampleInterval > 0
  {
    var n := |r.levels|;
    && n > 0
    && Executed(p, variant, repetition, outcomes, r.levels)
    && Marked(p, outcomes, n, r.plannedLevels)
    && (n == |p.levels| || !OutcomeAt(outcomes, n - 1).Sustained?)
    && r == Summarize(r.plannedLevels, r.levels, StoppedReason(outcomes, n))
  }

  method MarkLater(planned: seq<PlannedLevel>, from: nat, state: PlannedLevelState) returns (r: seq<PlannedLevel>)
    requires from <= |planned|
    ensures |r| == |planned| && r[..from] == planned[..from]
    ensures forall i | from <= i < |r| :: r[i] == planned[i].(state := state)
  {
    r := planned;
    for i := from to |planned|
      invariant |r| == |planned| && r[..from] == planned[..from]
      invariant forall k | from <= k < i :: r[k] == planned[k].(state := state)
      invariant r[i..] == planned[i..]
    {
      assert r[i] == r[i..][0] == planned[i];
      r := r[i := r[i].(state := state)];
    }
  }

  /** One level, simulated and validated. */
  method SimulateLevel(p: Plan, generatorId: string, generatorVersion: nat, i: nat, variant: BenchmarkVariant,
                       repetition: nat, o: Outcome)
    returns (r: Option<Evidence>)
    requires Valid(p, generatorId, generatorVersion) && i < |p.levels|
    ensures r.Some? <==> p.hold % p.sampleInterval == 0 || o.Mismatch?
    ensures r.Some? ==> r.value == Simulated(p, i, variant, repetition, o)
  {
    SimulatedIsValidExactly(p, generatorId, generatorVersion, i, variant, repetition, o);
    var e := Simulated(p, i, variant, repetition, o);
    r := if EvidenceValid(e, p.levels[i], p) then Some(e) else None;
  }

  /** Marking level `n` as done and, if the run stops there, all later ones. */
  method MarkLevel(p: Plan, outcomes: map<nat, Outcome>, n: nat, planned: seq<PlannedLevel>)
    returns (r: seq<PlannedLevel>)
    requires Marked(p, outcomes, n, planned) && n < |p.levels|
    requires forall i | 0 <= i < |p.levels| :: p.levels[i].state == Planned
    requires forall i | 0 <= i < n :: OutcomeAt(outcomes, i).Sustained?
    ensures Marked(p, outcomes, n + 1, r)
  {
    var c := ClassOf(OutcomeAt(outcomes, n));
    r := planned[n := planned[n].(state := StateAfter(c))];
    if !c.Sustainable? {
      r := MarkLater(r, n + 1, LaterState(c));
      assert forall i | 0 <= i <= n :: r[i] == r[..n + 1][i];
    }
  }

  predicate AllSustained(outcomes: map<nat, Outcome>, n: nat) {
    forall k | 0 <= k < n :: OutcomeAt(outcomes, k).Sustained?
  }

  /** How far a run has come. */
  predicate Progress(p: Plan, variant: BenchmarkVariant, repetition: nat, outcomes: map<nat, Outcome>,
                     levels: seq<Evidence>, planned: seq<PlannedLevel>, stoppedReason: Reason)
    requires p.sampleInterval > 0
  {
    && Executed(p, variant, repetition, outcomes, levels)
    && Marked(p, outcomes, |levels|, planned)
    && stoppedReason == StoppedReason(outcomes, |levels|)
  }

  method RecordLevel(p: Plan, variant: BenchmarkVariant, repetition: nat, outcomes: map<nat, Outcome>,
                     levels: seq<Evidence>, planned: seq<PlannedLevel>, stoppedReason: Reason, e: Evidence)
    returns (levels': seq<Evidence>, planned': seq<PlannedLevel>, stoppedReason': Reason)
    requires p.sampleInterval > 0 && |levels| < |p.levels|
    requires forall i | 0 <= i < |p.levels| :: p.levels[i].state == Planned
    requires Progress(p, variant, repetition, outcomes, levels, planned, stoppedReason)
    requires AllSustained(outcomes, |levels|)
    requires e == Simulated(p, |levels|, variant, repetition, OutcomeAt(outcomes, |levels|))
    ensures levels' == levels + [e]
    ensures Progress(p, variant, repetition, outcomes, levels', planned', stoppedReason')
  {
    stoppedReason' := if e.failureReason.Some? then e.failureReason.value else stoppedReason;
    levels' := levels + [e];
    planned' := MarkLevel(p, outcomes, |levels|, planned);
  }

  lemma ValidBasics(p: Plan, generatorId: string, generatorVersion: nat)
    requires Valid(p, generatorId, generatorVersion)
    ensures p.levels != [] && p.sampleInterval > 0
    ensures forall i | 0 <= i < |p.levels| :: p.levels[i].state == Planned
  {
  }

  method RunLevels(p: Plan, generatorId: string, generatorVersion: nat, variant: BenchmarkVariant,
                   repetition: nat, outcomes: map<nat, Outcome>)
    returns (r: Option<seq<Evidence>>, planned: seq<PlannedLevel>, stoppedReason: Reason)
    requires Valid(p, generatorId, generatorVersion)
    ensures r.Some? <==> p.hold % p.sampleInterval == 0 || OutcomeAt(outcomes, 0).Mismatch?
    ensures r.Some? ==>
              && r.value != []
              && Progress(p, variant, repetition, outcomes, r.value, planned, stoppedReason)
              && (|r.value| == |p.levels| || !OutcomeAt(outcomes, |r.value| - 1).Sustained?)
  {
    ValidBasics(p, generatorId, generatorVersion);
    var levels: seq<Evidence> := [];
    planned, stoppedReason := p.levels, AllPlannedLevelsCompleted;
    var i := 0;
    while i < |p.levels|
      invariant |levels| == i <= |p.levels|
      invariant Progress(p, variant, repetition, outcomes, levels, planned, stoppedReason)
      invariant AllSustained(outcomes, i)
      invariant i > 0 ==> p.hold % p.sampleInterval == 0
    {
      var outcome := OutcomeAt(outcomes, i);
      var result := SimulateLevel(p, generatorId, generatorVersion, i, variant, repetition, outcome);
      if result.None? {
        return None, planned, stoppedReason;
      }
      levels, planned, stoppedReason :=
        RecordLevel(p, variant, repetition, outcomes, levels, planned, stoppedReason, result.value);
      if !result.value.classification.Sustainable? {
        break;
      }
      i := i + 1;
    }
    r := Some(levels);
  }

  /** The simulation succeeds exactly for a valid plan whose interval divides its
      hold, or whose first level fails the worker's contract; and then it runs to
      the first level that is not sustainable. */
  method SimulatePressureRun(p: Plan, generatorId: string, generatorVersion: nat, variant: BenchmarkVariant,
                             repetition: nat, outcomes: map<nat, Outcome>)
    returns (r: Option<Run>)
    ensures r.Some? <==>
              && Valid(p, generatorId, generatorVersion)
              && (p.hold % p.sampleInterval == 0 || OutcomeAt(outcomes, 0).Mismatch?)
    ensures r.Some? ==> RunsToStop(p, variant, repetition, outcomes, r.value)
  {
    var valid := ValidatePlan(p, generatorId, generatorVersion);
    if !valid {
      return None;
    }
    var levels, planned, stoppedReason :=
      RunLevels(p, generatorId, generatorVersion, variant, repetition, outcomes);
    if levels.None? {
      return None;
    }
    r := Some(Summarize(planned, levels.value, stoppedReason));
  }

  /** What became of every planned level, and why the run stopped, by its last
      outcome; nothing else about a planned level changes. */
  lemma MarksOfRun(p: Plan, variant: BenchmarkVariant, repetition: nat, outcomes: map<nat, Outcome>, r: Run)
    requires p.sampleInterval > 0 && RunsToStop(p, variant, repetition, outcomes, r)
    ensures var n, planned := |r.levels|, r.plannedLevels;
      && |planned| == |p.levels| && 0 < n <= |p.levels|
      && (forall i | 0 <= i < |planned| :: planned[i] == p.levels[i].(state := planned[i].state))
      && (forall i | 0 <= i < n - 1 ::
            planned[i].state == CompletedSustainable && (i in outcomes ==> outcomes[i] == Sustained))
      && match if n - 1 in outcomes then outcomes[n - 1] else Sustained
         case Sustained =>
           n == |p.levels| && planned[n - 1].state == CompletedSustainable
           && r.stoppedReason == AllPlannedLevelsCompleted
         case Unhealthy(reason) =>
           && planned[n - 1].state == CompletedUnsustainable && r.stoppedReason == Given(reason)
           && forall i | n <= i < |planned| :: planned[i].state == NotExecutedAfterUnsustainable
         case Abort(kind) =>
           && planned[n - 1].state == Aborted && r.stoppedReason == AbortReason(kind)
           && forall i | n <= i < |planned| :: planned[i].state == NotExecutedAfterSafetyAbort
         case Mismatch(_) =>
           && planned[n - 1].state == InvalidLevel && r.stoppedReason == WorkerContractFailure
           && forall i | n <= i < |planned| :: planned[i].state == NotExecutedAfterInvalid
  {
  }

  // -------------------------------------------------------------------
  // What a run says about capacity
  // -------------------------------------------------------------------

  /** As much of the evidence of a run as its bounds are drawn from. */
  predicate Outline(p: Plan, outcomes: map<nat, Outcome>, levels: seq<Evidence>) {
    && |levels| <= |p.levels|
    && forall i {:trigger levels[i]} | 0 <= i < |levels| ::
         var o := OutcomeAt(outcomes, i);
         && levels[i].classification == ClassOf(o)
         && levels[i].plannedBytes == p.levels[i].targetTouchedBytes
         && (!o.Mismatch? ==> levels[i].actualTouched == p.levels[i].targetTouchedBytes)
         && levels[i].safetyAbort == (if o.Abort? then Some(o.kind) else None)
  }

  predicate StrictlyIncreasing(levels: seq<PlannedLevel>) {
    forall i, j | 0 <= i < j < |levels| :: levels[i].targetTouchedBytes < levels[j].targetTouchedBytes
  }

  lemma {:induction false} ExecutedHasOutline(p: Plan, generatorId: string, generatorVersion: nat,
                                              variant: BenchmarkVariant, repetition: nat,
                                              outcomes: map<nat, Outcome>, levels: seq<Evidence>)
    requires Valid(p, generatorId, generatorVersion) && Executed(p, variant, repetition, outcomes, levels)
    ensures Outline(p, outcomes, levels) && StrictlyIncreasing(p.levels)
    ensures forall i | 0 <= i < |levels| - 1 :: OutcomeAt(outcomes, i).Sustained?
  {
  }

  lemma {:induction false} BoundsOfSustained(p: Plan, outcomes: map<nat, Outcome>, levels: seq<Evidence>,
                                             exactOnly: bool)
    requires Outline(p, outcomes, levels) && StrictlyIncreasing(p.levels)
    requires forall i | 0 <= i < |levels| :: OutcomeAt(outcomes, i).Sustained?
    ensures HighestSustainable(levels, exactOnly) ==
            if levels == [] then None else Some(p.levels[|levels| - 1].targetTouchedBytes)
    ensures LowestUnsustainable(levels) == None
  {
    if levels != [] {
      BoundsOfSustained(p, outcomes, levels[..|levels| - 1], exactOnly);
    }
  }

  lemma {:induction false} OnlyLastAborts(levels: seq<Evidence>)
    requires levels != [] && forall i | 0 <= i < |levels| - 1 :: levels[i].safetyAbort.None?
    ensures FirstAbort(levels) == levels[|levels| - 1].safetyAbort
  {
    if |levels| > 1 {
      OnlyLastAborts(levels[1..]);
    }
  }

  /** The number of levels sustained, and the sizes the levels bound. */
  function SustainedLevels(outcomes: map<nat, Outcome>, n: nat): nat
    requires n > 0
  {
    if OutcomeAt(outcomes, n - 1).Sustained? then n else n - 1
  }

  lemma {:induction false} BoundsOfLevels(p: Plan, outcomes: map<nat, Outcome>, levels: seq<Evidence>, exactOnly: bool)
    requires levels != [] && Outline(p, outcomes, levels) && StrictlyIncreasing(p.levels)
    requires forall i | 0 <= i < |levels| - 1 :: OutcomeAt(outcomes, i).Sustained?
    ensures var last, sustained := OutcomeAt(outcomes, |levels| - 1), SustainedLevels(outcomes, |levels|);
      && HighestSustainable(levels, exactOnly) ==
           (if sustained == 0 then None else Some(p.levels[sustained - 1].targetTouchedBytes))
      && LowestUnsustainable(levels) ==
           (if last.Unhealthy? then Some(p.levels[|levels| - 1].targetTouchedBytes) else None)
  {
    if OutcomeAt(outcomes, |levels| - 1).Sustained? {
      BoundsOfSustained(p, outcomes, levels, exactOnly);
    } else {
      BoundsOfSustained(p, outcomes, levels[..|levels| - 1], exactOnly);
    }
  }

  lemma {:induction false} FlagsOfLevels(p: Plan, outcomes: map<nat, Outcome>, levels: seq<Evidence>)
    requires levels != [] && Outline(p, outcomes, levels)
    requires forall i | 0 <= i < |levels| - 1 :: OutcomeAt(outcomes, i).Sustained?
    ensures var last := OutcomeAt(outcomes, |levels| - 1);
      && FirstAbort(levels) == (if last.Abort? then Some(last.kind) else None)
      && (AnyInvalid(levels) <==> last.Mismatch?)
  {
    OnlyLastAborts(levels);
    assert levels[|levels| - 1].classification == ClassOf(OutcomeAt(outcomes, |levels| - 1));
  }

  /** The bounds of a run, by how it stopped: the highest sustainable size is that
      of the last level that was sustained, and only a health failure makes a
      level an upper bound; an abort or invalid evidence never does. */
  lemma {:induction false} BoundsOfRun(p: Plan, generatorId: string, generatorVersion: nat,
                                       variant: BenchmarkVariant, repetition: nat, outcomes: map<nat, Outcome>,
                                       r: Run)
    requires Valid(p, generatorId, generatorVersion) && RunsToStop(p, variant, repetition, outcomes, r)
    ensures var last, sustained := OutcomeAt(outcomes, |r.levels| - 1), SustainedLevels(outcomes, |r.levels|);
      && r.highest == (if sustained == 0 then None else Some(p.levels[sustained - 1].targetTouchedBytes))
      && r.lowest == (if last.Unhealthy? then Some(p.levels[|r.levels| - 1].targetTouchedBytes) else None)
      && r.safetyAbort == (if last.Abort? then Some(last.kind) else None)
      && (r.invalidEvidence <==> last.Mismatch?)
  {
    ExecutedHasOutline(p, generatorId, generatorVersion, variant, repetition, outcomes, r.levels);
    BoundsOfLevels(p, outcomes, r.levels, false);
    FlagsOfLevels(p, outcomes, r.levels);
  }

  /** Refinement is allowed exactly when both bounds exist and nothing was aborted
      or invalid, and then they are in order. */
  lemma {:induction false} RefinementEligibleExactly(p: Plan, generatorId: string, generatorVersion: nat,
                                                     variant: BenchmarkVariant, repetition: nat,
                                                     outcomes: map<nat, Outcome>, r: Run)
    requires Valid(p, generatorId, generatorVersion) && RunsToStop(p, variant, repetition, outcomes, r)
    ensures r.refinementEligible <==> |r.levels| > 1 && OutcomeAt(outcomes, |r.levels| - 1).Unhealthy?
    ensures r.refinementEligible <==>
              r.highest.Some? && r.lowest.Some? && r.safetyAbort.None? && !r.invalidEvidence
    ensures r.highest.Some? && r.lowest.Some? ==> r.highest.value < r.lowest.value
  {
    BoundsOfRun(p, generatorId, generatorVersion, variant, repetition, outcomes, r);
    ExecutedHasOutline(p, generatorId, generatorVersion, variant, repetition, outcomes, r.levels);
  }

  /** The capacity result validates against the levels it was drawn from. */
  lemma {:induction false} CapacityOfRunValidates(p: Plan, generatorId: string, generatorVersion: nat,
                                                  variant: BenchmarkVariant, repetition: nat,
                                                  outcomes: map<nat, Outcome>, r: Run)
    requires Valid(p, generatorId, generatorVersion) && RunsToStop(p, variant, repetition, outcomes, r)
    ensures r.capacity.ValidFor(r.levels)
  {
    ExecutedHasOutline(p, generatorId, generatorVersion, variant, repetition, outcomes, r.levels);
    BoundsOfLevels(p, outcomes, r.levels, false);
    BoundsOfLevels(p, outcomes, r.levels, true);
    SummaryValidates(r.plannedLevels, r.levels, StoppedReason(outcomes, |r.levels|));
  }

  lemma SummaryValidates(planned: seq<PlannedLevel>, levels: seq<Evidence>, stoppedReason: Reason)
    requires HighestSustainable(levels, false) == HighestSustainable(levels, true)
    ensures Summarize(planned, levels, stoppedReason).capacity.ValidFor(levels)
  {
  }
}
