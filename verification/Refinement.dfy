/** Narrowing a bracket between a size that was sustainable and one that was not,
    by testing the aligned midpoint. */
module Refinement {
  import opened Wrappers
  import opened MachineInts
  import opened PressurePlan
  import opened RunOrder
  import PressureRun

  predicate Usable(lower: u64, upper: u64, policy: RefinementPolicy, tested: set<u64>) {
    && policy.mode.DeterministicBracket?
    && 0 < lower < upper
    && policy.granularity > 0
    && lower in tested && upper in tested
  }

  function FloorTo(x: u64, g: u64): (r: u64)
    requires g > 0
    ensures r <= x < r + g && r % g == 0
  {
    FloorMultiple(x, g);
    MultipleHasNoRemainder(x / g, g);
    x / g * g
  }

  function Midpoint(lower: u64, upper: u64): u64
    requires lower <= upper
  {
    lower + (upper - lower) / 2
  }

  /** The next size to test, if there is one; an error without a usable bracket. */
  function NextRefinement(lower: u64, upper: u64, policy: RefinementPolicy, tested: set<u64>, completed: nat)
    : Result<Option<u64>, ()>
  {
    if !Usable(lower, upper, policy, tested) then Err(())
    else
      var aligned := FloorTo(Midpoint(lower, upper), policy.granularity);
      Ok(if completed < policy.maximumRefinements && lower < aligned < upper && aligned !in tested
         then Some(aligned) else None)
  }

  /** The next size is refused, rather than absent, exactly without a proper bracket
      that was tested, or when refinement is switched off or has no step. */
  lemma RefusedExactly(lower: u64, upper: u64, policy: RefinementPolicy, tested: set<u64>, completed: nat)
    ensures NextRefinement(lower, upper, policy, tested, completed).Err? <==>
              || policy.mode == DisabledForFrameworkPilot || policy.granularity == 0
              || lower == 0 || lower >= upper || lower !in tested || upper !in tested
  {
  }

  /** A proposal is aligned, new and strictly inside; with budget left, none is made
      only for a bracket narrower than two steps or an aligned midpoint already
      tested. */
  lemma ProposalsAreInside(lower: u64, upper: u64, policy: RefinementPolicy, tested: set<u64>, completed: nat)
    requires Usable(lower, upper, policy, tested)
    ensures var next := NextRefinement(lower, upper, policy, tested, completed).value;
      && (next.Some? ==>
            && next.value % policy.granularity == 0 && lower < next.value < upper && next.value !in tested
            && completed < policy.maximumRefinements)
      && (next.None? && completed < policy.maximumRefinements ==>
            || upper - lower < 2 * policy.granularity
            || exists x :: x in tested && lower < x < upper && x % policy.granularity == 0)
  {
  }

  function Pow2(k: nat): (r: nat)
    ensures r >= 1
  {
    if k == 0 then 1 else 2 * Pow2(k - 1)
  }

  /** One test brings what the span has over two steps down by half, whichever way
      the test goes. */
  lemma SpanHalves(lower: u64, upper: u64, g: u64)
    requires lower < upper && g > 0
    ensures var x := FloorTo(Midpoint(lower, upper), g);
      && 2 * ((x - lower) - 2 * g) <= (upper - lower) - 2 * g
      && 2 * ((upper - x) - 2 * g) <= (upper - lower) - 2 * g
  {
  }

  lemma HalvesAgain(k: nat, span: int, next: int, initial: int)
    requires Pow2(k) * span <= initial && 2 * next <= span
    ensures Pow2(k + 1) * next <= initial
  {
  }

  datatype Refined = Refined(lower: u64, upper: u64, tested: set<u64>, probes: seq<u64>)

  ghost predicate StrictlyInside(x: u64, lower: u64, upper: u64) {
    lower < x < upper
  }

  ghost predicate NothingInside(tested: set<u64>, lower: u64, upper: u64) {
    forall x | x in tested :: !StrictlyInside(x, lower, upper)
  }

  /** What the driver keeps, for a bracket that starts at `lower`, `upper` with
      `tested` known, against `sustainable`. */
  ghost predicate Bracketed(lower: u64, upper: u64, policy: RefinementPolicy, tested: set<u64>,
                            sustainable: u64 -> bool, r: Refined)
    requires lower < upper
  {
    && lower <= r.lower < r.upper <= upper
    && Usable(r.lower, r.upper, policy, r.tested)
    && sustainable(r.lower) && !sustainable(r.upper)
    && |r.probes| <= policy.maximumRefinements
    && r.tested == tested + (set x | x in r.probes)
    && (forall i | 0 <= i < |r.probes| ::
          && StrictlyInside(r.probes[i], lower, upper)
          && r.probes[i] % policy.granularity == 0
          && r.probes[i] !in tested
          && forall j | 0 <= j < i :: r.probes[j] != r.probes[i])
    && Pow2(|r.probes|) * ((r.upper - r.lower) - 2 * policy.granularity) <= (upper - lower) - 2 * policy.granularity
    && (NothingInside(tested, lower, upper) ==> NothingInside(r.tested, r.lower, r.upper))
  }

  lemma ProbeKeepsBracket(lower: u64, upper: u64, policy: RefinementPolicy, tested: set<u64>,
                          sustainable: u64 -> bool, r: Refined, x: u64)
    requires lower < upper && Bracketed(lower, upper, policy, tested, sustainable, r)
    requires NextRefinement(r.lower, r.upper, policy, r.tested, |r.probes|) == Ok(Some(x))
    ensures Bracketed(lower, upper, policy, tested, sustainable,
              Refined(if sustainable(x) then x else r.lower, if sustainable(x) then r.upper else x,
                      r.tested + {x}, r.probes + [x]))
  {
    SpanHalves(r.lower, r.upper, policy.granularity);
    var low, high := if sustainable(x) then x else r.lower, if sustainable(x) then r.upper else x;
    HalvesAgain(|r.probes|, (r.upper - r.lower) - 2 * policy.granularity, (high - low) - 2 * policy.granularity,
                (upper - lower) - 2 * policy.granularity);
    assert r.tested + {x} == tested + (set y | y in r.probes + [x]);
    forall i | 0 <= i < |r.probes|
      ensures r.probes[i] != x
    {
      assert r.probes[i] in r.tested;
    }
  }

  /** Ask for the next size, test it, raise the lower bound if it was sustainable
      and lower the upper bound if not, until no size is proposed. */
  method Refine(lower: u64, upper: u64, policy: RefinementPolicy, tested: set<u64>, sustainable: u64 -> bool)
    returns (r: Option<Refined>)
    requires sustainable(lower) && !sustainable(upper)
    ensures r.Some? <==> Usable(lower, upper, policy, tested)
    ensures r.Some? ==>
              && Bracketed(lower, upper, policy, tested, sustainable, r.value)
              && NextRefinement(r.value.lower, r.value.upper, policy, r.value.tested, |r.value.probes|) == Ok(None)
  {
    if !Usable(lower, upper, policy, tested) {
      return None;
    }
    var now := Refined(lower, upper, tested, []);
    while true
      invariant Bracketed(lower, upper, policy, tested, sustainable, now)
      decreases policy.maximumRefinements - |now.probes|
    {
      var next := NextRefinement(now.lower, now.upper, policy, now.tested, |now.probes|);
      if next.value.None? {
        return Some(now);
      }
      var x := next.value.value;
      ProbeKeepsBracket(lower, upper, policy, tested, sustainable, now, x);
      now := if sustainable(x) then Refined(x, now.upper, now.tested + {x}, now.probes + [x])
             else Refined(now.lower, x, now.tested + {x}, now.probes + [x]);
    }
  }

  /** Where the refinement ends: if no size inside the first bracket was known, then
      stopping before the budget is spent leaves less than two steps, and a budget
      of as many tests as the span has binary digits leaves at most two. */
  lemma WhereRefinementEnds(lower: u64, upper: u64, policy: RefinementPolicy, tested: set<u64>,
                            sustainable: u64 -> bool, r: Refined)
    requires lower < upper && NothingInside(tested, lower, upper)
    requires Bracketed(lower, upper, policy, tested, sustainable, r)
    requires NextRefinement(r.lower, r.upper, policy, r.tested, |r.probes|) == Ok(None)
    ensures |r.probes| < policy.maximumRefinements ==> r.upper - r.lower < 2 * policy.granularity
    ensures (upper - lower) - 2 * policy.granularity < Pow2(policy.maximumRefinements) ==>
              r.upper - r.lower <= 2 * policy.granularity
  {
    if |r.probes| < policy.maximumRefinements {
      ProposalsAreInside(r.lower, r.upper, policy, r.tested, |r.probes|);
      if x :| x in r.tested && r.lower < x < r.upper && x % policy.granularity == 0 {
        assert StrictlyInside(x, r.lower, r.upper);
      }
    } else {
      NoRoomLeft(Pow2(|r.probes|), (r.upper - r.lower) - 2 * policy.granularity,
                 (upper - lower) - 2 * policy.granularity);
    }
  }

  lemma NoRoomLeft(p: nat, over: int, initial: int)
    requires p >= 1 && p * over <= initial
    ensures initial < p ==> over <= 0
  {
  }

  /** With a single threshold behind the answers, the threshold is in the final
      bracket. */
  lemma ThresholdIsLocated(lower: u64, upper: u64, policy: RefinementPolicy, tested: set<u64>,
                           sustainable: u64 -> bool, r: Refined, threshold: nat)
    requires lower < upper && Bracketed(lower, upper, policy, tested, sustainable, r)
    requires forall x: u64 :: sustainable(x) <==> x < threshold
    ensures r.lower < threshold <= r.upper
  {
  }

  function TestedBy(levels: seq<PressureRun.Evidence>): set<u64> {
    set i | 0 <= i < |levels| :: levels[i].actualTouched
  }

  /** A run that is eligible for refinement hands over exactly what refinement needs:
      a tested bracket with nothing known inside it. */
  lemma EligibleRunCanBeRefined(p: Plan, generatorId: string, generatorVersion: nat, variant: BenchmarkVariant,
                                repetition: nat, outcomes: map<nat, PressureRun.Outcome>, r: PressureRun.Run)
    requires Valid(p, generatorId, generatorVersion) && p.refinement.mode.DeterministicBracket?
    requires PressureRun.RunsToStop(p, variant, repetition, outcomes, r) && r.refinementEligible
    ensures r.highest.Some? && r.lowest.Some?
    ensures Usable(r.highest.value, r.lowest.value, p.refinement, TestedBy(r.levels))
    ensures NothingInside(TestedBy(r.levels), r.highest.value, r.lowest.value)
  {
    var n := |r.levels|;
    PressureRun.BoundsOfRun(p, generatorId, generatorVersion, variant, repetition, outcomes, r);
    PressureRun.RefinementEligibleExactly(p, generatorId, generatorVersion, variant, repetition, outcomes, r);
    PressureRun.ExecutedHasOutline(p, generatorId, generatorVersion, variant, repetition, outcomes, r.levels);
    assert r.levels[n - 2].actualTouched == r.highest.value && r.levels[n - 1].actualTouched == r.lowest.value;
    forall x | x in TestedBy(r.levels)
      ensures !StrictlyInside(x, r.highest.value, r.lowest.value)
    {
      var i :| 0 <= i < n && r.levels[i].actualTouched == x;
      assert i < n - 2 ==> p.levels[i].targetTouchedBytes < p.levels[n - 2].targetTouchedBytes;
    }
  }
}
