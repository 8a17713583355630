/** The plan-only orchestration contract: a planner, and a validator that has to
    agree with it. */
module Orchestration {
  import opened Wrappers

  datatype Component =
    | DamonTelemetry
    | CgroupProtection
    | CompressionZram
    | StorageTiering
    | DamosReclaim
    | KsmEligibility

  const ORDER: seq<Component> :=
    [DamonTelemetry, CgroupProtection, CompressionZram, StorageTiering, DamosReclaim, KsmEligibility]

  datatype Capability =
    | CgroupV2
    | MemoryController
    | SystemdTransientUnits
    | Swap
    | ZramControl
    | Zswap
    | OwnedSwapfile
    | ValidatedBootTiering
    | DamonVaddr
    | DamonOwnedSession
    | DamosPageout
    | DamosAddressFence
    | Ksm
    | KsmProcessOptIn

  datatype Prerequisite =
    | OwnedCgroupHarness
    | ZramLifecycle
    | ZswapNvmeBoot
    | DamonMonitor
    | DamosEvidence
    | KsmSelective

  function Dependencies(c: Component): seq<Component> {
    if c.DamosReclaim? then [DamonTelemetry] else []
  }

  function RequiredCapabilities(c: Component): set<Capability> {
    match c
    case DamonTelemetry => {DamonOwnedSession, DamonVaddr}
    case CgroupProtection => {CgroupV2, MemoryController, SystemdTransientUnits}
    case CompressionZram => {Swap, ZramControl}
    case StorageTiering => {OwnedSwapfile, ValidatedBootTiering, Zswap}
    case DamosReclaim => {DamosAddressFence, DamosPageout, DamonVaddr}
    case KsmEligibility => {Ksm, KsmProcessOptIn}
  }

  function RequiredEvidence(c: Component): Prerequisite {
    match c
    case DamonTelemetry => DamonMonitor
    case CgroupProtection => OwnedCgroupHarness
    case CompressionZram => ZramLifecycle
    case StorageTiering => ZswapNvmeBoot
    case DamosReclaim => DamosEvidence
    case KsmEligibility => KsmSelective
  }

  datatype Ownership = ExactOwned(resourceId: string) | ReadOnlyHost | Ambiguous(reason: string)
  {
    predicate Bound() {
      ExactOwned? && resourceId != ""
    }
  }

  datatype Request = Request(desired: bool, required: bool, ownership: Ownership)

  datatype ComponentState = Eligible | Unavailable | Disallowed | Deferred

  datatype ComponentPlan = ComponentPlan(
    component: Component,
    state: ComponentState,
    ownership: Ownership,
    requiredCapabilities: set<Capability>,
    missingCapabilities: set<Capability>,
    requiredEvidence: Prerequisite,
    dependencies: seq<Component>,
    reason: Option<Reason>)

  datatype Reason = NotSelected | CapabilityUnavailable | EvidenceMissing | OtherReason(text: string)

  /** What the evidence and the plan are bound to. */
  datatype Provenance = Provenance(
    sourceCommit: string,
    sourceStateId: string,
    benchmarkBinary: string,
    config: string,
    environment: string)

  /** The contract a component is listed with: the one of the table, or another. */
  datatype ContractName = TableEntry(of: Component) | OtherContract(id: string, version: string)

  datatype ContractIdentity = ContractIdentity(component: Component, contract: ContractName)

  datatype Payload = Payload(
    evidenceVersion: nat,
    validationId: string,
    provenance: Provenance,
    components: set<Component>,
    contracts: seq<ContractIdentity>,
    ownership: map<Component, Ownership>,
    resourceIdentities: map<string, string>,
    capabilities: set<Capability>,
    individualEvidence: set<Prerequisite>,
    applyOrder: seq<Component>,
    rollbackOrder: seq<Component>,
    startedNs: nat,
    endedNs: nat,
    boundedExecutionPassed: bool,
    cleanupPassed: bool,
    restorePassed: bool,
    hostOomObserved: bool,
    safetyPassed: map<Component, bool>,
    pass: bool)

  datatype CombinedEvidence = CombinedEvidence(payload: Payload, payloadHash: string)

  datatype Mode = Observe | OtherMode(name: string)

  datatype Input = Input(
    contractVersion: nat,
    productionMode: Mode,
    allowAutomaticActions: bool,
    capabilities: set<Capability>,
    evidence: set<Prerequisite>,
    provenance: Provenance,
    combined: Option<CombinedEvidence>,
    components: map<Component, Request>)

  datatype Variant = NemorCapacityVariant | OtherVariant(name: string)

  datatype Plan = Plan(
    contractVersion: nat,
    variant: Variant,
    productionMode: Mode,
    allowAutomaticActions: bool,
    activationAuthorized: bool,
    capabilities: set<Capability>,
    evidence: set<Prerequisite>,
    combinedValidationId: Option<string>,
    provenance: Provenance,
    combined: Option<CombinedEvidence>,
    components: seq<ComponentPlan>,
    applyOrder: seq<Component>,
    rollbackOrder: seq<Component>,
    hostOomProhibited: bool,
    restoreFailureInvalidates: bool)

  datatype Error =
    | UnsupportedVersion(version: nat)
    | ProductionModeChanged
    | AutomaticActionsEnabled
    | AmbiguousOwnership(component: Component, why: Option<string>)
    | RequiredCapabilityMissing(component: Component, missing: set<Capability>)
    | RequiredEvidenceMissing(component: Component, evidence: Prerequisite)
    | DependencyMissing(component: Component, dependency: Component)
    | IncompatibleOwnedTarget
    | CombinedEvidenceMissing
    | CombinedEvidenceIntegrity
    | CombinedEvidenceVersion
    | CombinedEvidenceInvalid
    | CombinedEvidenceBindingMismatch
    | InvalidApplyOrder
    | InvalidRollbackOrder
    | InconsistentComponentState(component: Component)
    | ActivationAuthorized
    | SafetyInvariantViolated
    | InvalidComponentSet

  const CONTRACT_VERSION := 2
  const EVIDENCE_VERSION := 1

  // -------------------------------------------------------------------
  // Orders
  // -------------------------------------------------------------------

  function Reverse<T>(s: seq<T>): (r: seq<T>)
    ensures |r| == |s| && forall i | 0 <= i < |s| :: r[i] == s[|s| - 1 - i]
  {
    seq(|s|, i requires 0 <= i < |s| => s[|s| - 1 - i])
  }

  /** The components of a set, in the order of a list. */
  function InOrder(order: seq<Component>, members: set<Component>): seq<Component> {
    if order == [] then []
    else (if order[0] in members then [order[0]] else []) + InOrder(order[1..], members)
  }

  /** The eligible components, in the order of the plans. */
  function EligibleOrder(items: seq<ComponentPlan>): seq<Component> {
    if items == [] then []
    else (if items[0].state.Eligible? then [items[0].component] else []) + EligibleOrder(items[1..])
  }

  function EligibleSet(items: seq<ComponentPlan>): set<Component> {
    set i | 0 <= i < |items| && items[i].state.Eligible? :: items[i].component
  }

  function ComponentSet(items: seq<ComponentPlan>): set<Component> {
    set i | 0 <= i < |items| :: items[i].component
  }

  function EligibleOwnership(items: seq<ComponentPlan>): map<Component, Ownership> {
    if items == [] then map[]
    else
      var last, before := items[|items| - 1], EligibleOwnership(items[..|items| - 1]);
      if last.state.Eligible? then before[last.component := last.ownership] else before
  }

  function ContractsFor(members: set<Component>): (r: seq<ContractIdentity>)
    ensures |r| == |InOrder(ORDER, members)|
    ensures forall i | 0 <= i < |r| ::
              r[i] == ContractIdentity(InOrder(ORDER, members)[i], TableEntry(InOrder(ORDER, members)[i]))
  {
    var ordered := InOrder(ORDER, members);
    seq(|ordered|, i requires 0 <= i < |ordered| => ContractIdentity(ordered[i], TableEntry(ordered[i])))
  }

  // -------------------------------------------------------------------
  // Combined evidence
  // -------------------------------------------------------------------

  predicate PayloadComplete(p: Payload) {
    && p.validationId != ""
    && p.provenance.sourceCommit != "" && p.provenance.sourceStateId != "" && p.provenance.benchmarkBinary != ""
    && p.provenance.config != "" && p.provenance.environment != ""
    && |p.components| >= 2
    && p.endedNs >= p.startedNs
    && (set c | c in p.applyOrder) == p.components
    && p.rollbackOrder == Reverse(p.applyOrder)
    && |p.contracts| == |p.components|
    && |p.ownership| == |p.components|
    && |p.safetyPassed| == |p.components|
    && p.resourceIdentities != map[]
    && (set i | 0 <= i < |p.contracts| :: p.contracts[i].component) == p.components
    && p.safetyPassed.Keys == p.components
    && p.contracts == ContractsFor(p.components)
    && p.individualEvidence != {}
    && (forall c | c in p.ownership :: p.ownership[c].Bound())
    && (p.pass ==>
          && p.boundedExecutionPassed && p.cleanupPassed && p.restorePassed && !p.hostOomObserved
          && forall c | c in p.safetyPassed :: p.safetyPassed[c])
  }

  lemma ContractsOnlyName(contracts: seq<ContractIdentity>, members: set<Component>)
    requires (set i | 0 <= i < |contracts| :: contracts[i].component) == members
    ensures forall i | 0 <= i < |contracts| :: contracts[i].component in members
  {
  }

  /** What complete evidence has. */
  lemma CompletePayloadHas(p: Payload)
    requires PayloadComplete(p)
    ensures |p.components| >= 2 && p.endedNs >= p.startedNs && p.contracts == ContractsFor(p.components)
    ensures |p.rollbackOrder| == |p.applyOrder|
    ensures forall i | 0 <= i < |p.applyOrder| :: p.rollbackOrder[|p.applyOrder| - 1 - i] == p.applyOrder[i]
    ensures p.components == set c | c in p.applyOrder
    ensures forall i | 0 <= i < |p.contracts| :: p.contracts[i].component in p.components
    ensures |p.contracts| == |p.ownership| == |p.safetyPassed| == |p.components|
    ensures p.pass ==> forall c | c in p.components :: p.safetyPassed[c]
  {
    ContractsOnlyName(p.contracts, p.components);
  }

  function IntegrityError(e: CombinedEvidence, hash: Payload -> string): Option<Error> {
    if e.payloadHash != hash(e.payload) then Some(CombinedEvidenceIntegrity)
    else if e.payload.evidenceVersion != EVIDENCE_VERSION then Some(CombinedEvidenceVersion)
    else if !PayloadComplete(e.payload) then Some(CombinedEvidenceInvalid)
    else None
  }

  predicate Binds(p: Payload, capabilities: set<Capability>, evidence: set<Prerequisite>, provenance: Provenance,
                  items: seq<ComponentPlan>, applyOrder: seq<Component>)
  {
    var eligible := set c | c in applyOrder;
    && p.pass
    && p.components == eligible
    && p.ownership == EligibleOwnership(items)
    && p.contracts == ContractsFor(eligible)
    && p.capabilities == capabilities
    && p.individualEvidence == evidence
    && p.applyOrder == applyOrder
    && p.rollbackOrder == Reverse(applyOrder)
    && p.provenance == provenance
  }

  function BindingError(e: CombinedEvidence, hash: Payload -> string, capabilities: set<Capability>,
                        evidence: set<Prerequisite>, provenance: Provenance, items: seq<ComponentPlan>,
                        applyOrder: seq<Component>): Option<Error>
  {
    var integrity := IntegrityError(e, hash);
    if integrity.Some? then integrity
    else if !Binds(e.payload, capabilities, evidence, provenance, items, applyOrder) then
      Some(CombinedEvidenceBindingMismatch)
    else None
  }

  // -------------------------------------------------------------------
  // Planner
  // -------------------------------------------------------------------

  function InputError(input: Input): Option<Error> {
    if input.contractVersion != CONTRACT_VERSION then Some(UnsupportedVersion(input.contractVersion))
    else if input.productionMode != Observe then Some(ProductionModeChanged)
    else if input.allowAutomaticActions then Some(AutomaticActionsEnabled)
    else None
  }

  function RequestFor(input: Input, c: Component): Request {
    if c in input.components then input.components[c] else Request(false, false, ReadOnlyHost)
  }

  function PlanComponent(input: Input, c: Component): Result<ComponentPlan, Error> {
    var request := RequestFor(input, c);
    var missing := RequiredCapabilities(c) - input.capabilities;
    if request.desired && request.ownership.Ambiguous? then
      Err(AmbiguousOwnership(c, Some(request.ownership.reason)))
    else if request.desired && !request.ownership.Bound() then Err(AmbiguousOwnership(c, None))
    else if request.desired && missing != {} && request.required then Err(RequiredCapabilityMissing(c, missing))
    else if request.desired && missing == {} && RequiredEvidence(c) !in input.evidence && request.required then
      Err(RequiredEvidenceMissing(c, RequiredEvidence(c)))
    else
      var (state, reason) :=
        if !request.desired then (Deferred, Some(NotSelected))
        else if missing != {} then (Unavailable, Some(CapabilityUnavailable))
        else if RequiredEvidence(c) !in input.evidence then (Deferred, Some(EvidenceMissing))
        else (Eligible, None);
      Ok(ComponentPlan(c, state, request.ownership, RequiredCapabilities(c), missing, RequiredEvidence(c),
                       Dependencies(c), reason))
  }

  /** The first error among components, if there is one. */
  function ComponentError(input: Input, order: seq<Component>): Option<Error> {
    if order == [] then None
    else
      var before, last := ComponentError(input, order[..|order| - 1]), PlanComponent(input, order[|order| - 1]);
      if before.Some? then before else if last.Err? then Some(last.error) else None
  }

  predicate Planned(input: Input, order: seq<Component>, items: seq<ComponentPlan>) {
    && |items| == |order|
    && forall i | 0 <= i < |order| :: PlanComponent(input, order[i]) == Ok(items[i])
  }

  function MissingDependency(c: Component, dependencies: seq<Component>, eligible: set<Component>): Option<Error> {
    if dependencies == [] then None
    else if dependencies[0] !in eligible then Some(DependencyMissing(c, dependencies[0]))
    else MissingDependency(c, dependencies[1..], eligible)
  }

  function DependencyError(items: seq<ComponentPlan>, eligible: set<Component>): Option<Error> {
    if items == [] then None
    else
      var first := if items[0].state.Eligible?
                   then MissingDependency(items[0].component, items[0].dependencies, eligible) else None;
      if first.Some? then first else DependencyError(items[1..], eligible)
  }

  /** The resource an eligible component owns exactly. */
  function ExactId(items: seq<ComponentPlan>, c: Component): Option<string> {
    if items == [] then None
    else if items[0].component == c && items[0].state.Eligible? then
      if items[0].ownership.ExactOwned? then Some(items[0].ownership.resourceId) else None
    else ExactId(items[1..], c)
  }

  predicate SharedTarget(items: seq<ComponentPlan>) {
    ExactId(items, DamosReclaim).Some? && ExactId(items, DamosReclaim) == ExactId(items, KsmEligibility)
  }

  /** What the planner finds wrong with its component plans, before it writes its
      own plan. */
  function SelectionError(input: Input, hash: Payload -> string, items: seq<ComponentPlan>): Option<Error> {
    var dependency := DependencyError(items, EligibleSet(items));
    if dependency.Some? then dependency
    else if SharedTarget(items) then Some(IncompatibleOwnedTarget)
    else if |EligibleOrder(items)| <= 1 then None
    else if input.combined.None? then Some(CombinedEvidenceMissing)
    else BindingError(input.combined.value, hash, input.capabilities, input.evidence, input.provenance, items,
                      EligibleOrder(items))
  }

  function PlanFor(input: Input, items: seq<ComponentPlan>): Plan
    requires |EligibleOrder(items)| > 1 ==> input.combined.Some?
  {
    var applyOrder := EligibleOrder(items);
    Plan(CONTRACT_VERSION, NemorCapacityVariant, input.productionMode, input.allowAutomaticActions, false,
         input.capabilities, input.evidence,
         if |applyOrder| > 1 then Some(input.combined.value.payload.validationId) else None,
         input.provenance, input.combined, items, applyOrder, Reverse(applyOrder), true, true)
  }

  // -------------------------------------------------------------------
  // Validator
  // -------------------------------------------------------------------

  predicate TableMatches(item: ComponentPlan) {
    && item.requiredCapabilities == RequiredCapabilities(item.component)
    && item.requiredEvidence == RequiredEvidence(item.component)
    && item.dependencies == Dependencies(item.component)
  }

  predicate EligibilityEarned(item: ComponentPlan, capabilities: set<Capability>, evidence: set<Prerequisite>) {
    && item.missingCapabilities == {}
    && item.requiredCapabilities <= capabilities
    && item.requiredEvidence in evidence
    && item.reason.None?
    && item.ownership.Bound()
  }

  function ItemError(items: seq<ComponentPlan>, capabilities: set<Capability>, evidence: set<Prerequisite>,
                     eligible: set<Component>): Option<Error>
  {
    if items == [] then None
    else
      var item := items[0];
      if !TableMatches(item) || (item.state.Eligible? && !EligibilityEarned(item, capabilities, evidence)) then
        Some(InconsistentComponentState(item.component))
      else
        var missing := if item.state.Eligible? then MissingDependency(item.component, item.dependencies, eligible)
                       else None;
        if missing.Some? then missing else ItemError(items[1..], capabilities, evidence, eligible)
  }

  function CombinedError(plan: Plan, hash: Payload -> string, eligible: set<Component>): Option<Error> {
    if |eligible| > 1 then
      if plan.combinedValidationId.None? || plan.combined.None? then Some(CombinedEvidenceMissing)
      else
        var binding := BindingError(plan.combined.value, hash, plan.capabilities, plan.evidence, plan.provenance,
                                    plan.components, plan.applyOrder);
        if binding.Some? then binding
        else if plan.combinedValidationId.value != plan.combined.value.payload.validationId then
          Some(CombinedEvidenceBindingMismatch)
        else None
    else if plan.combinedValidationId.Some? || plan.combined.Some? then Some(CombinedEvidenceBindingMismatch)
    else None
  }

  function PlanError(plan: Plan, hash: Payload -> string): Option<Error> {
    var eligible := EligibleSet(plan.components);
    if plan.contractVersion != CONTRACT_VERSION then Some(UnsupportedVersion(plan.contractVersion))
    else if plan.productionMode != Observe then Some(ProductionModeChanged)
    else if plan.allowAutomaticActions then Some(AutomaticActionsEnabled)
    else if plan.activationAuthorized then Some(ActivationAuthorized)
    else if plan.variant != NemorCapacityVariant || !plan.hostOomProhibited || !plan.restoreFailureInvalidates then
      Some(SafetyInvariantViolated)
    else if |plan.components| != |ORDER| || ComponentSet(plan.components) != (set c | c in ORDER) then
      Some(InvalidComponentSet)
    else if plan.applyOrder != InOrder(ORDER, eligible) then Some(InvalidApplyOrder)
    else if plan.rollbackOrder != Reverse(plan.applyOrder) then Some(InvalidRollbackOrder)
    else
      var item := ItemError(plan.components, plan.capabilities, plan.evidence, eligible);
      if item.Some? then item else CombinedError(plan, hash, eligible)
  }

  // -------------------------------------------------------------------
  // Agreement
  // -------------------------------------------------------------------

  /** Filtering the plans and filtering the order by the set of eligible components
      give the same list. */
  lemma {:induction false} FiltersAgree(order: seq<Component>, items: seq<ComponentPlan>, eligible: set<Component>)
    requires |items| == |order|
    requires forall i | 0 <= i < |order| ::
               items[i].component == order[i] && (items[i].state.Eligible? <==> order[i] in eligible)
    ensures EligibleOrder(items) == InOrder(order, eligible)
  {
    if order != [] {
      FiltersAgree(order[1..], items[1..], eligible);
    }
  }

  lemma PlannedShape(input: Input, order: seq<Component>, items: seq<ComponentPlan>)
    requires Planned(input, order, items) && Distinct(order)
    ensures forall i | 0 <= i < |order| :: items[i].component == order[i]
    ensures forall i | 0 <= i < |order| :: items[i].state.Eligible? <==> order[i] in EligibleSet(items)
    ensures ComponentSet(items) == set c | c in order
  {
  }

  lemma PlannedItemIsSound(input: Input, c: Component, item: ComponentPlan)
    requires PlanComponent(input, c) == Ok(item)
    ensures TableMatches(item)
    ensures item.state.Eligible? ==> EligibilityEarned(item, input.capabilities, input.evidence)
  {
    assert RequiredCapabilities(c) - input.capabilities == {} ==> RequiredCapabilities(c) <= input.capabilities by {
      assert forall x | x in RequiredCapabilities(c) && x !in input.capabilities ::
          x in RequiredCapabilities(c) - input.capabilities;
    }
  }

  /** On the planner's own items the validator finds exactly the dependency errors
      the planner looks for. */
  lemma {:induction false} ItemErrorsAgree(input: Input, order: seq<Component>, items: seq<ComponentPlan>,
                                           eligible: set<Component>)
    requires Planned(input, order, items)
    ensures ItemError(items, input.capabilities, input.evidence, eligible) == DependencyError(items, eligible)
  {
    if items != [] {
      var item, rest := items[0], items[1..];
      PlannedItemIsSound(input, order[0], item);
      assert forall i | 0 <= i < |rest| :: rest[i] == items[i + 1] && order[1..][i] == order[i + 1];
      ItemErrorsAgree(input, order[1..], rest, eligible);
      var missing := if item.state.Eligible? then MissingDependency(item.component, item.dependencies, eligible)
                     else None;
      assert DependencyError(items, eligible) == if missing.Some? then missing else DependencyError(rest, eligible);
      assert ItemError(items, input.capabilities, input.evidence, eligible)
          == if missing.Some? then missing else ItemError(rest, input.capabilities, input.evidence, eligible);
    }
  }

  lemma HeadNotInRest(order: seq<Component>)
    requires Distinct(order) && order != []
    ensures order[0] !in order[1..] && Distinct(order[1..])
  {
  }

  lemma {:induction false} InOrderMembers(order: seq<Component>, members: set<Component>, c: Component)
    ensures c in InOrder(order, members) <==> c in order && c in members
  {
    if order != [] {
      InOrderMembers(order[1..], members, c);
      assert order == [order[0]] + order[1..];
    }
  }

  lemma {:induction false} InOrderSize(order: seq<Component>, members: set<Component>)
    requires Distinct(order) && members <= set c | c in order
    ensures |InOrder(order, members)| == |members|
  {
    if order == [] {
    } else {
      var head, rest := order[0], order[1..];
      HeadNotInRest(order);
      assert order == [head] + rest;
      InOrderSize(rest, members - {head});
      WithoutHead(rest, members, head);
    }
  }

  lemma {:induction false} WithoutHead(rest: seq<Component>, members: set<Component>, head: Component)
    requires head !in rest
    ensures InOrder(rest, members - {head}) == InOrder(rest, members)
  {
    if rest != [] {
      WithoutHead(rest[1..], members, head);
    }
  }

  lemma OrderIsComplete()
    ensures Distinct(ORDER) && |ORDER| == 6
    ensures forall c: Component :: c in ORDER
  {
    forall c: Component
      ensures c in ORDER
    {
      match c {
        case DamonTelemetry => assert ORDER[0] == c;
        case CgroupProtection => assert ORDER[1] == c;
        case CompressionZram => assert ORDER[2] == c;
        case StorageTiering => assert ORDER[3] == c;
        case DamosReclaim => assert ORDER[4] == c;
        case KsmEligibility => assert ORDER[5] == c;
      }
    }
  }

  predicate StrayEvidence(input: Input, items: seq<ComponentPlan>) {
    input.combined.Some? && |EligibleOrder(items)| <= 1
  }

  /** Dependencies and combined evidence are in order. */
  predicate Backed(input: Input, hash: Payload -> string, items: seq<ComponentPlan>) {
    && DependencyError(items, EligibleSet(items)).None?
    && (|EligibleOrder(items)| > 1 ==>
          && input.combined.Some?
          && BindingError(input.combined.value, hash, input.capabilities, input.evidence, input.provenance, items,
                          EligibleOrder(items)).None?)
  }

  /** The planner's last step, validating its own plan, can fail for one reason only
      once everything before it passed: combined evidence was supplied although at
      most one component is eligible.  Of what comes before, the validator does not
      need the check for a shared target: it accepts plans with one, and only the
      planner keeps them out. */
  lemma SelfCheckAgrees(input: Input, hash: Payload -> string, order: seq<Component>, items: seq<ComponentPlan>)
    requires order == ORDER && InputError(input).None? && Planned(input, order, items)
    requires Backed(input, hash, items)
    ensures PlanError(PlanFor(input, items), hash)
         == if StrayEvidence(input, items) then Some(CombinedEvidenceBindingMismatch) else None
  {
    var eligible := EligibleSet(items);
    OrderIsComplete();
    PlannedShape(input, order, items);
    FiltersAgree(order, items, eligible);
    ItemErrorsAgree(input, order, items, eligible);
    InOrderSize(order, eligible);
    CombinedErrorsAgree(input, hash, items);
    StructureIsFine(PlanFor(input, items), hash, order);
  }

  lemma CombinedErrorsAgree(input: Input, hash: Payload -> string, items: seq<ComponentPlan>)
    requires Backed(input, hash, items) && |EligibleSet(items)| == |EligibleOrder(items)|
    ensures CombinedError(PlanFor(input, items), hash, EligibleSet(items))
         == if StrayEvidence(input, items) then Some(CombinedEvidenceBindingMismatch) else None
  {
  }

  lemma StructureIsFine(plan: Plan, hash: Payload -> string, order: seq<Component>)
    requires order == ORDER
    requires plan.contractVersion == CONTRACT_VERSION && plan.productionMode == Observe
    requires !plan.allowAutomaticActions && !plan.activationAuthorized && plan.variant == NemorCapacityVariant
    requires plan.hostOomProhibited && plan.restoreFailureInvalidates
    requires |plan.components| == |order| && ComponentSet(plan.components) == set c | c in order
    requires plan.applyOrder == InOrder(order, EligibleSet(plan.components))
    requires plan.rollbackOrder == Reverse(plan.applyOrder)
    requires ItemError(plan.components, plan.capabilities, plan.evidence, EligibleSet(plan.components)).None?
    ensures PlanError(plan, hash) == CombinedError(plan, hash, EligibleSet(plan.components))
  {
  }

  /** A plan in which page-out and merging share one owned target is refused by the
      planner alone. */
  lemma OnlyThePlannerSeesSharing(input: Input, hash: Payload -> string, order: seq<Component>,
                                  items: seq<ComponentPlan>)
    requires order == ORDER && InputError(input).None? && Planned(input, order, items)
    requires Backed(input, hash, items) && !StrayEvidence(input, items) && SharedTarget(items)
    ensures SelectionError(input, hash, items) == Some(IncompatibleOwnedTarget)
    ensures PlanError(PlanFor(input, items), hash).None?
  {
    SelfCheckAgrees(input, hash, order, items);
  }

  method PlanComponents(input: Input, order: seq<Component>) returns (r: Result<seq<ComponentPlan>, Error>)
    ensures ComponentError(input, order).Some? ==> r == Err(ComponentError(input, order).value)
    ensures ComponentError(input, order).None? ==> r.Ok? && Planned(input, order, r.value)
  {
    var items := [];
    for i := 0 to |order|
      invariant |items| == i
      invariant Planned(input, order[..i], items)
      invariant ComponentError(input, order[..i]) == None
    {
      assert order[..i + 1][..i] == order[..i];
      var item := PlanComponent(input, order[i]);
      if item.Err? {
        FirstErrorStays(input, order, i + 1);
        return Err(item.error);
      }
      items := items + [item.value];
    }
    assert order[..|order|] == order;
    r := Ok(items);
  }

  /** All errors the planner can report, in the order it looks for them. */
  method PlanOrchestration(input: Input, hash: Payload -> string) returns (r: Result<Plan, Error>)
    ensures InputError(input).Some? ==> r == Err(InputError(input).value)
    ensures InputError(input).None? && ComponentError(input, ORDER).Some? ==>
              r == Err(ComponentError(input, ORDER).value)
    ensures InputError(input).None? && ComponentError(input, ORDER).None? ==>
              exists items ::
                && Planned(input, ORDER, items)
                && r == (if SelectionError(input, hash, items).Some? then Err(SelectionError(input, hash, items).value)
                         else if StrayEvidence(input, items) then Err(CombinedEvidenceBindingMismatch)
                         else Ok(PlanFor(input, items)))
    ensures r.Ok? ==> PlanError(r.value, hash).None?
  {
    var wrong := InputError(input);
    if wrong.Some? {
      return Err(wrong.value);
    }
    var planned := PlanComponents(input, ORDER);
    if planned.Err? {
      return Err(planned.error);
    }
    var items := planned.value;
    wrong := SelectionError(input, hash, items);
    if wrong.Some? {
      return Err(wrong.value);
    }
    var plan := PlanFor(input, items);
    SelfCheckAgrees(input, hash, ORDER, items);
    wrong := PlanError(plan, hash);
    r := if wrong.Some? then Err(wrong.value) else Ok(plan);
  }

  lemma {:induction false} FirstErrorStays(input: Input, order: seq<Component>, i: nat)
    requires i <= |order| && ComponentError(input, order[..i]).Some?
    ensures ComponentError(input, order) == ComponentError(input, order[..i])
  {
    if i == |order| {
      assert order[..i] == order;
    } else {
      var init := order[..|order| - 1];
      assert init[..i] == order[..i];
      FirstErrorStays(input, init, i);
    }
  }

  // -------------------------------------------------------------------
  // Accepted plans
  // -------------------------------------------------------------------

  ghost predicate Before(s: seq<Component>, a: Component, b: Component) {
    exists i, j :: 0 <= i < j < |s| && s[i] == a && s[j] == b
  }

  /** Filtering keeps the order. */
  lemma {:induction false} InOrderKeepsOrder(order: seq<Component>, members: set<Component>, i: nat, j: nat)
    requires i < j < |order| && order[i] in members && order[j] in members
    requires Distinct(order)
    ensures Before(InOrder(order, members), order[i], order[j])
  {
    var rest, tail := order[1..], InOrder(order[1..], members);
    if i > 0 {
      InOrderKeepsOrder(rest, members, i - 1, j - 1);
      var k, l :| 0 <= k < l < |tail| && tail[k] == order[i] && tail[l] == order[j];
      var shift := if order[0] in members then 1 else 0;
      assert InOrder(order, members)[k + shift] == order[i] && InOrder(order, members)[l + shift] == order[j];
    } else {
      InOrderMembers(rest, members, order[j]);
      assert rest[j - 1] == order[j];
      var l :| 0 <= l < |tail| && tail[l] == order[j];
      assert InOrder(order, members)[0] == order[0] && InOrder(order, members)[l + 1] == order[j];
    }
  }

  lemma ReverseTurns(s: seq<Component>, a: Component, b: Component)
    requires Before(s, a, b)
    ensures Before(Reverse(s), b, a)
  {
    var i, j :| 0 <= i < j < |s| && s[i] == a && s[j] == b;
    var r := Reverse(s);
    assert r[|s| - 1 - j] == b && r[|s| - 1 - i] == a;
  }

  lemma {:induction false} NoItemError(items: seq<ComponentPlan>, capabilities: set<Capability>,
                                       evidence: set<Prerequisite>, eligible: set<Component>, i: nat)
    requires ItemError(items, capabilities, evidence, eligible).None? && i < |items|
    ensures TableMatches(items[i])
    ensures items[i].state.Eligible? ==>
              && EligibilityEarned(items[i], capabilities, evidence)
              && MissingDependency(items[i].component, items[i].dependencies, eligible).None?
  {
    if i > 0 {
      NoItemError(items[1..], capabilities, evidence, eligible, i - 1);
    }
  }

  /** In every plan the validator accepts, whoever wrote it: a component is applied
      only with its dependency applied before it and rolled back after it, only
      with its capabilities and evidence at hand, and only on a resource it owns;
      and nothing is ever activated. */
  lemma AcceptedPlanIsOrdered(plan: Plan, hash: Payload -> string, c: Component)
    requires PlanError(plan, hash).None? && c in plan.applyOrder
    ensures !plan.activationAuthorized && plan.productionMode == Observe
    ensures RequiredCapabilities(c) <= plan.capabilities && RequiredEvidence(c) in plan.evidence
    ensures exists i :: 0 <= i < |plan.components| && plan.components[i].component == c
                        && plan.components[i].state.Eligible? && plan.components[i].ownership.Bound()
                        && plan.components[i].missingCapabilities == {} && plan.components[i].reason.None?
    ensures forall d | d in Dependencies(c) :: Before(plan.applyOrder, d, c) && Before(plan.rollbackOrder, c, d)
  {
    var eligible, order := EligibleSet(plan.components), ORDER;
    OrderIsComplete();
    InOrderMembers(order, eligible, c);
    var i :| 0 <= i < |plan.components| && plan.components[i].state.Eligible? && plan.components[i].component == c;
    NoItemError(plan.components, plan.capabilities, plan.evidence, eligible, i);
    DependenciesAreOrdered(plan.applyOrder, order, eligible, c);
  }

  lemma {:induction false} AllFound(c: Component, dependencies: seq<Component>, eligible: set<Component>, d: Component)
    requires MissingDependency(c, dependencies, eligible).None? && d in dependencies
    ensures d in eligible
  {
    if d != dependencies[0] {
      AllFound(c, dependencies[1..], eligible, d);
    }
  }

  lemma DependenciesAreOrdered(applyOrder: seq<Component>, order: seq<Component>, eligible: set<Component>,
                               c: Component)
    requires order == ORDER && Distinct(order)
    requires applyOrder == InOrder(order, eligible) && c in eligible
    requires MissingDependency(c, Dependencies(c), eligible).None?
    ensures forall d | d in Dependencies(c) :: Before(applyOrder, d, c) && Before(Reverse(applyOrder), c, d)
  {
    forall d | d in Dependencies(c)
      ensures Before(applyOrder, d, c) && Before(Reverse(applyOrder), c, d)
    {
      AllFound(c, Dependencies(c), eligible, d);
      assert order[0] == d && order[4] == c;
      InOrderKeepsOrder(order, eligible, 0, 4);
      ReverseTurns(applyOrder, d, c);
    }
  }

  /** Page-out is never accepted without telemetry, which is applied before it and
      rolled back after it. */
  lemma PageOutFollowsTelemetry(plan: Plan, hash: Payload -> string)
    requires PlanError(plan, hash).None? && DamosReclaim in plan.applyOrder
    ensures Before(plan.applyOrder, DamonTelemetry, DamosReclaim)
    ensures Before(plan.rollbackOrder, DamosReclaim, DamonTelemetry)
  {
    AcceptedPlanIsOrdered(plan, hash, DamosReclaim);
    assert DamonTelemetry in Dependencies(DamosReclaim);
  }

  lemma FirstOrRest(items: seq<ComponentPlan>, c: Component)
    requires items != []
    ensures c in EligibleSet(items) <==>
              (items[0].state.Eligible? && items[0].component == c) || c in EligibleSet(items[1..])
  {
    var rest := items[1..];
    if i :| 0 <= i < |rest| && rest[i].state.Eligible? && rest[i].component == c {
      assert items[i + 1].state.Eligible? && items[i + 1].component == c;
    }
    if i :| 0 <= i < |items| && items[i].state.Eligible? && items[i].component == c && i > 0 {
      assert rest[i - 1].state.Eligible? && rest[i - 1].component == c;
    }
  }

  lemma MissingDependencyExactly(c: Component, eligible: set<Component>)
    ensures MissingDependency(c, Dependencies(c), eligible) ==
            if c == DamosReclaim && DamonTelemetry !in eligible
            then Some(DependencyMissing(DamosReclaim, DamonTelemetry)) else None
  {
    if c == DamosReclaim {
      assert Dependencies(c)[0] == DamonTelemetry && Dependencies(c)[1..] == [];
    }
  }

  lemma {:induction false} DependencyErrorExactly(items: seq<ComponentPlan>, eligible: set<Component>)
    requires forall i | 0 <= i < |items| :: TableMatches(items[i])
    requires forall i | 0 <= i < |items| && items[i].state.Eligible? :: items[i].component in eligible
    ensures DependencyError(items, eligible) ==
            if DamosReclaim in EligibleSet(items) && DamonTelemetry !in eligible
            then Some(DependencyMissing(DamosReclaim, DamonTelemetry)) else None
  {
    if items != [] {
      var rest := items[1..];
      assert forall i | 0 <= i < |rest| :: rest[i] == items[i + 1];
      DependencyErrorExactly(rest, eligible);
      MissingDependencyExactly(items[0].component, eligible);
      FirstOrRest(items, DamosReclaim);
    }
  }

  /** The one dependency there is: the planner refuses page-out without telemetry,
      and has no other complaint of that kind. */
  lemma PageOutNeedsTelemetry(input: Input, hash: Payload -> string, order: seq<Component>,
                              items: seq<ComponentPlan>)
    requires order == ORDER && Planned(input, order, items)
    ensures SelectionError(input, hash, items) == Some(DependencyMissing(DamosReclaim, DamonTelemetry)) <==>
              DamosReclaim in EligibleSet(items) && DamonTelemetry !in EligibleSet(items)
    ensures forall c, d :: SelectionError(input, hash, items) == Some(DependencyMissing(c, d)) ==>
                             c == DamosReclaim && d == DamonTelemetry
  {
    forall i | 0 <= i < |items|
      ensures TableMatches(items[i])
    {
      PlannedItemIsSound(input, order[i], items[i]);
    }
    DependencyErrorExactly(items, EligibleSet(items));
  }

  /** What the planner wants of its input before anything else, and what it reports
      first. */
  lemma InputErrorExactly(input: Input)
    ensures InputError(input) ==
            if input.contractVersion != 2 then Some(UnsupportedVersion(input.contractVersion))
            else if !input.productionMode.Observe? then Some(ProductionModeChanged)
            else if input.allowAutomaticActions then Some(AutomaticActionsEnabled)
            else None
  {
  }

  lemma {:induction false} ExactIdOf(items: seq<ComponentPlan>, i: nat)
    requires i < |items| && forall j | 0 <= j < |items| && j != i :: items[j].component != items[i].component
    ensures ExactId(items, items[i].component) ==
            if items[i].state == Eligible && items[i].ownership.ExactOwned?
            then Some(items[i].ownership.resourceId) else None
  {
    if i > 0 {
      ExactIdOf(items[1..], i - 1);
    } else if !items[0].state.Eligible? {
      NotThere(items[1..], items[0].component);
    }
  }

  lemma {:induction false} NotThere(items: seq<ComponentPlan>, c: Component)
    requires forall j | 0 <= j < |items| :: items[j].component != c
    ensures ExactId(items, c).None?
  {
    if items != [] {
      NotThere(items[1..], c);
    }
  }

  /** Page-out and merging share a target when both are eligible on resources of the
      same name. */
  lemma SharedTargetExactly(input: Input, order: seq<Component>, items: seq<ComponentPlan>)
    requires order == ORDER && Planned(input, order, items)
    ensures |items| == 6 && items[4].component == DamosReclaim && items[5].component == KsmEligibility
    ensures SharedTarget(items) <==>
              && items[4].state == Eligible && items[5].state == Eligible
              && items[4].ownership.ExactOwned? && items[5].ownership.ExactOwned?
              && items[4].ownership.resourceId == items[5].ownership.resourceId
  {
    OrderIsComplete();
    PlannedShape(input, order, items);
    ExactIdOf(items, 4);
    ExactIdOf(items, 5);
  }

  /** After the dependencies and the shared target, the planner asks for combined
      evidence exactly when two or more components are eligible. */
  lemma EvidenceIsAskedForExactly(input: Input, hash: Payload -> string, order: seq<Component>,
                                  items: seq<ComponentPlan>)
    requires order == ORDER && Planned(input, order, items)
    requires DependencyError(items, EligibleSet(items)).None? && !SharedTarget(items)
    ensures |EligibleSet(items)| <= 1 ==> SelectionError(input, hash, items).None?
    ensures |EligibleSet(items)| >= 2 ==>
              SelectionError(input, hash, items) ==
              if input.combined.None? then Some(CombinedEvidenceMissing)
              else BindingError(input.combined.value, hash, input.capabilities, input.evidence, input.provenance,
                                items, EligibleOrder(items))
  {
    OrderIsComplete();
    PlannedShape(input, order, items);
    FiltersAgree(order, items, EligibleSet(items));
    InOrderSize(order, EligibleSet(items));
  }

  /** The fixed part of every accepted plan. */
  lemma AcceptedPlanIsFixed(plan: Plan, hash: Payload -> string)
    requires PlanError(plan, hash).None?
    ensures plan.contractVersion == 2 && plan.productionMode.Observe? && plan.variant.NemorCapacityVariant?
    ensures !plan.allowAutomaticActions && !plan.activationAuthorized
    ensures plan.hostOomProhibited && plan.restoreFailureInvalidates
    ensures |plan.components| == 6 && forall c: Component :: c in ComponentSet(plan.components)
    ensures forall i | 0 <= i < |plan.applyOrder| ::
              |plan.rollbackOrder| == |plan.applyOrder|
              && plan.rollbackOrder[|plan.applyOrder| - 1 - i] == plan.applyOrder[i]
  {
    OrderIsComplete();
  }

  /** The validator's first complaints about a plan, in its order. */
  lemma PlanErrorsInOrder(plan: Plan, hash: Payload -> string)
    ensures var e := PlanError(plan, hash);
      if plan.contractVersion != 2 then e == Some(UnsupportedVersion(plan.contractVersion))
      else if !plan.productionMode.Observe? then e == Some(ProductionModeChanged)
      else if plan.allowAutomaticActions then e == Some(AutomaticActionsEnabled)
      else if plan.activationAuthorized then e == Some(ActivationAuthorized)
      else if !plan.variant.NemorCapacityVariant? || !plan.hostOomProhibited || !plan.restoreFailureInvalidates
      then e == Some(SafetyInvariantViolated)
      else if |plan.components| != 6 || (exists c: Component :: c !in ComponentSet(plan.components))
      then e == Some(InvalidComponentSet)
      else (plan.applyOrder != InOrder(ORDER, EligibleSet(plan.components)) ==> e == Some(InvalidApplyOrder))
  {
    OrderIsComplete();
  }

  /** What each component needs of the machine and of earlier evidence. */
  predicate Equipped(c: Component, capabilities: set<Capability>, evidence: set<Prerequisite>) {
    match c
    case DamonTelemetry => DamonOwnedSession in capabilities && DamonVaddr in capabilities && DamonMonitor in evidence
    case CgroupProtection =>
      && CgroupV2 in capabilities && MemoryController in capabilities && SystemdTransientUnits in capabilities
      && OwnedCgroupHarness in evidence
    case CompressionZram => Swap in capabilities && ZramControl in capabilities && ZramLifecycle in evidence
    case StorageTiering =>
      && OwnedSwapfile in capabilities && ValidatedBootTiering in capabilities && Zswap in capabilities
      && ZswapNvmeBoot in evidence
    case DamosReclaim =>
      && DamosAddressFence in capabilities && DamosPageout in capabilities && DamonVaddr in capabilities
      && DamosEvidence in evidence
    case KsmEligibility => Ksm in capabilities && KsmProcessOptIn in capabilities && KsmSelective in evidence
  }

  lemma EquippedExactly(c: Component, capabilities: set<Capability>, evidence: set<Prerequisite>)
    ensures Equipped(c, capabilities, evidence) <==>
              RequiredCapabilities(c) <= capabilities && RequiredEvidence(c) in evidence
  {
  }

  /** The planner's answer for one component, by what was asked for and what is at
      hand: it is eligible exactly when it is desired, bound to a named resource and
      equipped; a component that is not required is never an error for lack of
      equipment. */
  lemma ComponentPlannedExactly(input: Input, c: Component)
    ensures var r, request := PlanComponent(input, c), RequestFor(input, c);
      var owned := request.ownership.ExactOwned? && request.ownership.resourceId != "";
      && (r.Ok? && r.value.state == Eligible <==>
            request.desired && owned && Equipped(c, input.capabilities, input.evidence))
      && (r.Ok? && r.value.state == Deferred && r.value.reason == Some(NotSelected) <==> !request.desired)
      && (r.Err? && r.error.AmbiguousOwnership? <==> request.desired && !owned)
      && (request.desired && request.ownership.Ambiguous? ==>
            r == Err(AmbiguousOwnership(c, Some(request.ownership.reason))))
      && (request.desired && !owned && !request.ownership.Ambiguous? ==> r == Err(AmbiguousOwnership(c, None)))
      && (r.Err? && !r.error.AmbiguousOwnership? <==>
            request.desired && owned && request.required && !Equipped(c, input.capabilities, input.evidence))
      && (r.Err? && r.error.RequiredEvidenceMissing? ==> RequiredCapabilities(c) <= input.capabilities)
      && (r.Ok? && r.value.state == Unavailable <==>
            request.desired && owned && !request.required && !(RequiredCapabilities(c) <= input.capabilities))
      && (r.Ok? ==> r.value.component == c && r.value.ownership == request.ownership)
  {
    var missing := RequiredCapabilities(c) - input.capabilities;
    EquippedExactly(c, input.capabilities, input.evidence);
    assert missing == {} <==> RequiredCapabilities(c) <= input.capabilities by {
      assert forall x | x in RequiredCapabilities(c) && x !in input.capabilities :: x in missing;
    }
  }

  /** An accepted plan applies components in one fixed order, each equipped. */
  lemma AcceptedPlanIsEquipped(plan: Plan, hash: Payload -> string, c: Component)
    requires PlanError(plan, hash).None? && c in plan.applyOrder
    ensures Equipped(c, plan.capabilities, plan.evidence)
  {
    AcceptedPlanIsOrdered(plan, hash, c);
    EquippedExactly(c, plan.capabilities, plan.evidence);
  }

  /** The position of a component in every apply order. */
  function Place(c: Component): nat {
    match c
    case DamonTelemetry => 0
    case CgroupProtection => 1
    case CompressionZram => 2
    case StorageTiering => 3
    case DamosReclaim => 4
    case KsmEligibility => 5
  }

  lemma AcceptedOrderIsFixed(plan: Plan, hash: Payload -> string, c: Component, d: Component)
    requires PlanError(plan, hash).None? && c in plan.applyOrder && d in plan.applyOrder && Place(c) < Place(d)
    ensures Before(plan.applyOrder, c, d) && Before(plan.rollbackOrder, d, c)
  {
    var eligible, order := EligibleSet(plan.components), ORDER;
    OrderIsComplete();
    InOrderMembers(order, eligible, c);
    InOrderMembers(order, eligible, d);
    PlaceIsPosition(order, c);
    PlaceIsPosition(order, d);
    InOrderKeepsOrder(order, eligible, Place(c), Place(d));
    ReverseTurns(plan.applyOrder, c, d);
  }

  lemma PlaceIsPosition(order: seq<Component>, c: Component)
    requires order == ORDER
    ensures Place(c) < |order| && order[Place(c)] == c
  {
  }

  lemma {:induction false} OwnershipIsOfItems(items: seq<ComponentPlan>)
    ensures EligibleOwnership(items).Keys == EligibleSet(items)
    ensures forall c | c in EligibleOwnership(items) ::
              exists i :: 0 <= i < |items| && items[i].component == c && items[i].state.Eligible?
                          && items[i].ownership == EligibleOwnership(items)[c]
  {
    if items != [] {
      var init, last := items[..|items| - 1], items[|items| - 1];
      OwnershipIsOfItems(init);
      assert items == init + [last];
      forall c
        ensures c in EligibleSet(items) <==>
                c in EligibleSet(init) || (last.state.Eligible? && c == last.component)
      {
        if i :| 0 <= i < |init| && init[i].state.Eligible? && init[i].component == c {
          assert items[i].state.Eligible? && items[i].component == c;
        }
        if last.state.Eligible? && c == last.component {
          assert items[|items| - 1].component == c;
        }
      }
      forall c | c in EligibleOwnership(items)
        ensures exists i :: 0 <= i < |items| && items[i].component == c && items[i].state.Eligible?
                            && items[i].ownership == EligibleOwnership(items)[c]
      {
        if last.state.Eligible? && c == last.component {
          assert items[|items| - 1].component == c;
        } else {
          var i :| 0 <= i < |init| && init[i].component == c && init[i].state.Eligible?
                   && init[i].ownership == EligibleOwnership(init)[c];
          assert items[i].component == c;
        }
      }
    }
  }

  /** Two or more components are only ever accepted together on evidence that is
      intact and complete, that passed for exactly these components and each of
      them, on these resources, in exactly this order and its reverse, and on the
      same capabilities, evidence, commit, binary, configuration and environment. */
  lemma AcceptedPlanIsBacked(plan: Plan, hash: Payload -> string)
    requires PlanError(plan, hash).None?
    ensures |EligibleSet(plan.components)| > 1 <==> plan.combined.Some?
    ensures plan.combined.Some? ==>
              var p, eligible := plan.combined.value.payload, EligibleSet(plan.components);
              && plan.combined.value.payloadHash == hash(p) && p.evidenceVersion == 1
              && plan.combinedValidationId == Some(p.validationId) && p.validationId != ""
              && p.pass && p.boundedExecutionPassed && p.cleanupPassed && p.restorePassed && !p.hostOomObserved
              && p.startedNs <= p.endedNs && p.resourceIdentities != map[]
              && p.components == (set c | c in plan.applyOrder) == p.safetyPassed.Keys
              && (forall c | c in p.safetyPassed :: p.safetyPassed[c])
              && (forall c | c in p.ownership :: p.ownership[c].ExactOwned? && p.ownership[c].resourceId != "")
              && p.applyOrder == plan.applyOrder && p.rollbackOrder == plan.rollbackOrder
              && p.capabilities == plan.capabilities && p.individualEvidence == plan.evidence && plan.evidence != {}
              && p.provenance == plan.provenance
              && p.provenance.sourceCommit != "" && p.provenance.sourceStateId != ""
              && p.provenance.benchmarkBinary != "" && p.provenance.config != "" && p.provenance.environment != ""
    ensures plan.combined.Some? ==>
              var ownership := plan.combined.value.payload.ownership;
              && ownership.Keys == EligibleSet(plan.components)
              && forall c | c in ownership ::
                   exists i :: 0 <= i < |plan.components| && plan.components[i].component == c
                               && plan.components[i].state.Eligible? && plan.components[i].ownership == ownership[c]
  {
    OwnershipIsOfItems(plan.components);
  }

  /** The contracts such evidence lists are those of the table, one per component, in
      the fixed order. */
  lemma AcceptedContractsAreTheTable(plan: Plan, hash: Payload -> string)
    requires PlanError(plan, hash).None? && plan.combined.Some?
    ensures var contracts := plan.combined.value.payload.contracts;
      && |contracts| == |plan.applyOrder|
      && forall i | 0 <= i < |contracts| ::
           contracts[i] == ContractIdentity(plan.applyOrder[i], TableEntry(plan.applyOrder[i]))
  {
    var eligible, order := EligibleSet(plan.components), ORDER;
    OrderIsComplete();
    assert (set c | c in plan.applyOrder) == eligible by {
      forall c
        ensures c in plan.applyOrder <==> c in eligible
      {
        InOrderMembers(order, eligible, c);
      }
    }
    assert plan.combined.value.payload.contracts == ContractsFor(eligible);
  }

  // -------------------------------------------------------------------
  // Concrete inputs
  // -------------------------------------------------------------------

  /** Nothing is selected, and combined evidence is supplied all the same. */
  function StrayInput(provenance: Provenance, e: CombinedEvidence): Input {
    Input(CONTRACT_VERSION, Observe, false, {}, {}, provenance, Some(e), map[])
  }

  function Unselected(c: Component): ComponentPlan {
    ComponentPlan(c, Deferred, ReadOnlyHost, RequiredCapabilities(c), RequiredCapabilities(c), RequiredEvidence(c),
                  Dependencies(c), Some(NotSelected))
  }

  lemma {:induction false} UnselectedPlanned(input: Input, order: seq<Component>)
    requires input.components == map[] && input.capabilities == {}
    ensures ComponentError(input, order).None?
    ensures Planned(input, order, seq(|order|, i requires 0 <= i < |order| => Unselected(order[i])))
  {
    forall c: Component
      ensures PlanComponent(input, c) == Ok(Unselected(c))
    {
      assert RequiredCapabilities(c) - {} == RequiredCapabilities(c);
    }
    if order != [] {
      UnselectedPlanned(input, order[..|order| - 1]);
    }
  }

  lemma {:induction false} NoneEligible(items: seq<ComponentPlan>)
    requires forall i | 0 <= i < |items| :: !items[i].state.Eligible?
    ensures EligibleOrder(items) == [] && DependencyError(items, EligibleSet(items)).None?
    ensures ExactId(items, DamosReclaim).None?
  {
    NoneEligibleFor(items, EligibleSet(items));
  }

  lemma {:induction false} NoneEligibleFor(items: seq<ComponentPlan>, eligible: set<Component>)
    requires forall i | 0 <= i < |items| :: !items[i].state.Eligible?
    ensures EligibleOrder(items) == [] && DependencyError(items, eligible).None?
    ensures ExactId(items, DamosReclaim).None?
  {
    if items != [] {
      NoneEligibleFor(items[1..], eligible);
    }
  }

  /** All checks before it pass, and the self-check refuses the plan. */
  lemma StrayEvidenceIsRefused(provenance: Provenance, e: CombinedEvidence, hash: Payload -> string,
                               order: seq<Component>)
    requires order == ORDER
    ensures var input := StrayInput(provenance, e);
      && InputError(input).None? && ComponentError(input, order).None?
      && exists items ::
           && Planned(input, order, items) && SelectionError(input, hash, items).None?
           && PlanError(PlanFor(input, items), hash) == Some(CombinedEvidenceBindingMismatch)
  {
    var input := StrayInput(provenance, e);
    UnselectedPlanned(input, order);
    var items := seq(|order|, i requires 0 <= i < |order| => Unselected(order[i]));
    NoneEligible(items);
    assert SelectionError(input, hash, items).None?;
    SelfCheckAgrees(input, hash, order, items);
  }

  const SOMEWHERE: Provenance := Provenance("c", "s", "b", "f", "e")

  const TARGET: Ownership := ExactOwned("t")

  /** Telemetry, page-out and merging. */
  function SharingOrder(): seq<Component> {
    [DamonTelemetry, DamosReclaim, KsmEligibility]
  }

  function SharingMembers(): set<Component> {
    {DamonTelemetry, DamosReclaim, KsmEligibility}
  }

  function SharingCapabilities(): set<Capability> {
    RequiredCapabilities(DamonTelemetry) + RequiredCapabilities(DamosReclaim) + RequiredCapabilities(KsmEligibility)
  }

  function SharingEvidence(): set<Prerequisite> {
    {DamonMonitor, DamosEvidence, KsmSelective}
  }

  function SharingPayload(): Payload {
    Payload(EVIDENCE_VERSION, "v", SOMEWHERE, SharingMembers(), ContractsFor(SharingMembers()),
            map c | c in SharingMembers() :: TARGET, map["t" := "t"], SharingCapabilities(), SharingEvidence(),
            SharingOrder(), Reverse(SharingOrder()), 0, 0, true, true, true, false,
            map c | c in SharingMembers() :: true, true)
  }

  /** All three selected on one target, with evidence that passed for just that. */
  function SharingInput(hash: Payload -> string): Input {
    Input(CONTRACT_VERSION, Observe, false, SharingCapabilities(), SharingEvidence(), SOMEWHERE,
          Some(CombinedEvidence(SharingPayload(), hash(SharingPayload()))),
          map c | c in SharingMembers() :: Request(true, true, TARGET))
  }

  function Selected(c: Component): ComponentPlan {
    ComponentPlan(c, Eligible, TARGET, RequiredCapabilities(c), {}, RequiredEvidence(c), Dependencies(c), None)
  }

  function LeftAside(c: Component): ComponentPlan {
    ComponentPlan(c, Deferred, ReadOnlyHost, RequiredCapabilities(c), RequiredCapabilities(c) - SharingCapabilities(),
                  RequiredEvidence(c), Dependencies(c), Some(NotSelected))
  }

  function SharingItems(): seq<ComponentPlan> {
    [Selected(DamonTelemetry), LeftAside(CgroupProtection), LeftAside(CompressionZram), LeftAside(StorageTiering),
     Selected(DamosReclaim), Selected(KsmEligibility)]
  }

  lemma SelectedPlanned(hash: Payload -> string, c: Component)
    requires c in SharingMembers()
    ensures PlanComponent(SharingInput(hash), c) == Ok(Selected(c))
  {
    assert RequiredCapabilities(c) <= SharingCapabilities();
    assert RequiredCapabilities(c) - SharingCapabilities() == {};
  }

  lemma LeftAsidePlanned(hash: Payload -> string, c: Component)
    requires c !in SharingMembers()
    ensures PlanComponent(SharingInput(hash), c) == Ok(LeftAside(c))
  {
  }

  lemma SharingPlanned(hash: Payload -> string, order: seq<Component>)
    requires order == ORDER
    ensures Planned(SharingInput(hash), order, SharingItems())
  {
    SelectedPlanned(hash, DamonTelemetry);
    LeftAsidePlanned(hash, CgroupProtection);
    LeftAsidePlanned(hash, CompressionZram);
    LeftAsidePlanned(hash, StorageTiering);
    SelectedPlanned(hash, DamosReclaim);
    SelectedPlanned(hash, KsmEligibility);
  }

  /** One step of each walk over the items. */
  lemma WalkStep(first: ComponentPlan, rest: seq<ComponentPlan>, eligible: set<Component>)
    requires first.state.Eligible? ==> MissingDependency(first.component, first.dependencies, eligible).None?
    ensures var items := [first] + rest;
      && EligibleOrder(items) == (if first.state.Eligible? then [first.component] else []) + EligibleOrder(rest)
      && DependencyError(items, eligible) == DependencyError(rest, eligible)
      && forall c :: ExactId(items, c) ==
           (if first.component == c && first.state.Eligible? then
              if first.ownership.ExactOwned? then Some(first.ownership.resourceId) else None
            else ExactId(rest, c))
  {
    assert ([first] + rest)[1..] == rest;
  }

  lemma SharingWalk(eligible: set<Component>)
    requires DamonTelemetry in eligible
    ensures EligibleOrder(SharingItems()) == SharingOrder()
    ensures DependencyError(SharingItems(), eligible).None?
    ensures SharedTarget(SharingItems())
  {
    var items := SharingItems();
    WalkStep(items[5], [], eligible);
    WalkStep(items[4], [items[5]], eligible);
    WalkStep(items[3], [items[4], items[5]], eligible);
    WalkStep(items[2], [items[3], items[4], items[5]], eligible);
    WalkStep(items[1], [items[2], items[3], items[4], items[5]], eligible);
    WalkStep(items[0], [items[1], items[2], items[3], items[4], items[5]], eligible);
    assert items == [items[0]] + [items[1], items[2], items[3], items[4], items[5]];
    assert [items[1]] + [items[2], items[3], items[4], items[5]] == [items[1], items[2], items[3], items[4], items[5]];
    assert [items[2]] + [items[3], items[4], items[5]] == [items[2], items[3], items[4], items[5]];
    assert [items[3]] + [items[4], items[5]] == [items[3], items[4], items[5]];
    assert [items[4]] + [items[5]] == [items[4], items[5]];
    assert [items[5]] + [] == [items[5]];
  }

  lemma OwnershipStep(before: seq<ComponentPlan>, last: ComponentPlan)
    ensures EligibleOwnership(before + [last])
         == if last.state.Eligible? then EligibleOwnership(before)[last.component := last.ownership]
            else EligibleOwnership(before)
  {
    assert (before + [last])[..|before|] == before;
  }

  /** Two of six are left out. */
  lemma OwnershipOfSix(a: ComponentPlan, b: ComponentPlan, c: ComponentPlan, d: ComponentPlan, e: ComponentPlan,
                       f: ComponentPlan)
    requires a.state.Eligible? && e.state.Eligible? && f.state.Eligible?
    requires !b.state.Eligible? && !c.state.Eligible? && !d.state.Eligible?
    ensures EligibleOwnership([a, b, c, d, e, f])
         == map[][a.component := a.ownership][e.component := e.ownership][f.component := f.ownership]
  {
    assert [] + [a] == [a] && [a] + [b] == [a, b] && [a, b] + [c] == [a, b, c];
    assert [a, b, c] + [d] == [a, b, c, d] && [a, b, c, d] + [e] == [a, b, c, d, e];
    assert [a, b, c, d, e] + [f] == [a, b, c, d, e, f];
    OwnershipStep([], a);
    OwnershipStep([a], b);
    OwnershipStep([a, b], c);
    OwnershipStep([a, b, c], d);
    OwnershipStep([a, b, c, d], e);
    OwnershipStep([a, b, c, d, e], f);
  }

  lemma SharingOwnership()
    ensures EligibleOwnership(SharingItems()) == map c | c in SharingMembers() :: TARGET
  {
    OwnershipOfSix(Selected(DamonTelemetry), LeftAside(CgroupProtection), LeftAside(CompressionZram),
                   LeftAside(StorageTiering), Selected(DamosReclaim), Selected(KsmEligibility));
  }

  /** The contracts listed for a set of components name each of them once. */
  lemma ContractsName(members: set<Component>, order: seq<Component>)
    requires order == ORDER
    ensures var contracts := ContractsFor(members);
      && |contracts| == |members|
      && (set i | 0 <= i < |contracts| :: contracts[i].component) == members
  {
    OrderIsComplete();
    assert members <= set c | c in order;
    InOrderSize(order, members);
    var named, contracts := InOrder(order, members), ContractsFor(members);
    forall c
      ensures c in members <==> exists i :: 0 <= i < |contracts| && contracts[i].component == c
    {
      InOrderMembers(order, members, c);
      if c in members {
        var i :| 0 <= i < |named| && named[i] == c;
        assert contracts[i].component == c;
      }
    }
  }

  /** A passed payload over some owned components. */
  lemma CompleteFor(p: Payload, members: set<Component>, order: seq<Component>)
    requires order == ORDER
    requires |members| >= 2 && p.components == members && (set c | c in p.applyOrder) == members
    requires p.contracts == ContractsFor(members) && p.rollbackOrder == Reverse(p.applyOrder)
    requires p.ownership == map c | c in members :: TARGET
    requires p.safetyPassed == map c | c in members :: true
    requires p.validationId != "" && p.provenance == SOMEWHERE && p.startedNs <= p.endedNs
    requires p.resourceIdentities != map[] && p.individualEvidence != {}
    requires p.boundedExecutionPassed && p.cleanupPassed && p.restorePassed && !p.hostOomObserved
    ensures PayloadComplete(p)
  {
    ContractsName(members, order);
    assert p.ownership.Keys == members && p.safetyPassed.Keys == members;
  }

  lemma SharingPayloadComplete(order: seq<Component>)
    requires order == ORDER
    ensures PayloadComplete(SharingPayload())
  {
    var p := SharingPayload();
    assert |p.components| == 3;
    assert (set c | c in SharingOrder()) == p.components;
    assert "t" in p.resourceIdentities && DamonMonitor in p.individualEvidence;
    CompleteFor(p, SharingMembers(), order);
  }

  lemma SharingBacked(hash: Payload -> string, order: seq<Component>)
    requires order == ORDER
    ensures Backed(SharingInput(hash), hash, SharingItems())
    ensures SharedTarget(SharingItems()) && !StrayEvidence(SharingInput(hash), SharingItems())
  {
    var items, p := SharingItems(), SharingPayload();
    assert items[0].state.Eligible? && items[0].component == DamonTelemetry;
    SharingWalk(EligibleSet(items));
    SharingOwnership();
    SharingPayloadComplete(order);
    assert (set c | c in SharingOrder()) == p.components;
    assert Binds(p, SharingCapabilities(), SharingEvidence(), SOMEWHERE, items, SharingOrder());
  }

  /** Page-out and merging on one target, with everything else in order: the planner
      refuses, the validator would not. */
  lemma SharingIsRefusedByThePlannerOnly(hash: Payload -> string, order: seq<Component>)
    requires order == ORDER
    ensures var input, items := SharingInput(hash), SharingItems();
      && Planned(input, order, items)
      && SelectionError(input, hash, items) == Some(IncompatibleOwnedTarget)
      && PlanError(PlanFor(input, items), hash).None?
  {
    SharingPlanned(hash, order);
    SharingBacked(hash, order);
    OnlyThePlannerSeesSharing(SharingInput(hash), hash, order, SharingItems());
  }
}
