/** The safe search ceiling and the ten-level ladder below it. */
module CapacitySearch {
  import opened Wrappers
  import opened MachineInts

  const ALIGNMENT_BYTES: u64 := 16 * 1024 * 1024
  const MINIMUM_MARGIN_BYTES: u64 := 64 * 1024 * 1024
  const LEVEL_COUNT := 10

  function Aligned(x: u64): u64 {
    x / ALIGNMENT_BYTES * ALIGNMENT_BYTES
  }

  function Margin(ceiling: u64): u64 {
    if ceiling / 10 >= MINIMUM_MARGIN_BYTES then ceiling / 10 else MINIMUM_MARGIN_BYTES
  }

  function SafeSearchCeiling(effectiveMaximum: u64): Option<u64> {
    var candidate := SatMul(effectiveMaximum, 10) / 11;
    var aligned := Aligned(candidate);
    if aligned == 0 || SatAdd(aligned, Margin(aligned)) > effectiveMaximum then None
    else Some(aligned)
  }

  /** A ceiling is a nonzero multiple of 16 MiB that leaves 64 MiB and a tenth of
      itself below the effective maximum, and the largest multiple within ten
      elevenths of it (of what ten times it saturates to).  The converse holds
      too: a size with these properties is the ceiling. */
  lemma CeilingExactly(e: u64, c: u64)
    ensures SafeSearchCeiling(e) == Some(c) <==>
              var tenfold := if 10 * e < 0x1_0000_0000_0000_0000 then 10 * e else 0xFFFF_FFFF_FFFF_FFFF;
              && c > 0 && c % 0x100_0000 == 0
              && 11 * c <= tenfold < 11 * (c + 0x100_0000)
              && c + 0x400_0000 <= e && c + c / 10 <= e
  {
    var tenfold := SatMul(e, 10);
    var aligned := Aligned(tenfold / 11);
    AlignedExactly(tenfold / 11, aligned);
    AlignedExactly(tenfold / 11, c);
    Elevenths(tenfold, c);
    Elevenths(tenfold, aligned);
    assert SatAdd(aligned, Margin(aligned)) == aligned + Margin(aligned);
  }

  lemma AlignedExactly(x: u64, c: nat)
    ensures Aligned(x) == c <==> c % ALIGNMENT_BYTES == 0 && c <= x < c + ALIGNMENT_BYTES
  {
  }

  lemma Elevenths(n: u64, c: nat)
    ensures c <= n / 11 < c + ALIGNMENT_BYTES <==> 11 * c <= n < 11 * (c + ALIGNMENT_BYTES)
    ensures c <= n / 11 ==> 2 * (c + ALIGNMENT_BYTES) <= U64_MAX
  {
  }

  /** From 704 MiB up a ceiling always exists, even where the multiplication
      saturates; below 544 MiB none does. */
  lemma CeilingExists(e: u64)
    ensures e >= 704 * 1024 * 1024 ==> SafeSearchCeiling(e).Some?
    ensures e < 544 * 1024 * 1024 ==> SafeSearchCeiling(e).None?
  {
  }

  // -------------------------------------------------------------------
  // Ladder
  // -------------------------------------------------------------------

  /** Level i of a ladder of k units: the floor of (i + 1) tenths. */
  function Rung(k: nat, i: nat): nat {
    (i + 1) * k / 10 * ALIGNMENT_BYTES
  }

  predicate LadderFits(ceiling: u64) {
    && ceiling % ALIGNMENT_BYTES == 0
    && ceiling >= 10 * ALIGNMENT_BYTES
    && 100 * ceiling <= U64_MAX
  }

  function RawRung(ceiling: u64, percent: u64): u64
    requires percent <= 100
  {
    Aligned(SatMul(ceiling, percent) / 100)
  }

  method CapacityLadder(ceiling: u64) returns (r: Option<seq<u64>>)
    ensures r.Some? <==> LadderFits(ceiling)
    ensures r.Some? ==>
              && |r.value| == LEVEL_COUNT
              && forall i | 0 <= i < LEVEL_COUNT :: r.value[i] == Rung(ceiling / ALIGNMENT_BYTES, i)
  {
    var levels: seq<u64> := [];
    var percent: u64 := 10;
    while percent <= 100
      invariant percent == 10 * (|levels| + 1) <= 110
      invariant forall i | 0 <= i < |levels| :: levels[i] == RawRung(ceiling, 10 * (i + 1))
      invariant |levels| > 0 ==> levels[0] > 0
    {
      var raw := SatMul(ceiling, percent) / 100;
      var aligned := Aligned(raw);
      if aligned == 0 || (|levels| > 0 && levels[|levels| - 1] >= aligned) {
        LadderNeedsSteps(ceiling, percent);
        return None;
      }
      levels := levels + [aligned];
      percent := percent + 10;
    }
    assert |levels| == LEVEL_COUNT && levels[9] == RawRung(ceiling, 100) && levels[0] == RawRung(ceiling, 10);
    RungsAgree(ceiling);
    LadderFirstStep(ceiling);
    if levels[|levels| - 1] != ceiling {
      return None;
    }
    r := Some(levels);
  }

  /** The ladder in bytes: ten levels, multiples of 16 MiB, floors of the tenths of
      the ceiling. */
  lemma LadderInBytes(ceiling: u64, i: nat)
    requires i < LEVEL_COUNT
    ensures LEVEL_COUNT == 10
    ensures LadderFits(ceiling) <==>
              ceiling % 0x100_0000 == 0 && ceiling >= 0xA00_0000 && 100 * ceiling < 0x1_0000_0000_0000_0000
    ensures LadderFits(ceiling) ==>
              var rung := Rung(ceiling / ALIGNMENT_BYTES, i);
              rung % 0x100_0000 == 0 && 10 * rung <= (i + 1) * ceiling < 10 * (rung + 0x100_0000)
  {
    var k := ceiling / 0x100_0000;
    if LadderFits(ceiling) {
      assert ceiling == k * 0x100_0000;
      var n := (i + 1) * k;
      assert (i + 1) * ceiling == n * 0x100_0000 by {
        assert (i + 1) * (k * 0x100_0000) == ((i + 1) * k) * 0x100_0000;
      }
      assert n == n / 10 * 10 + n % 10;
    }
  }

  lemma RungValue(ceiling: u64, i: nat)
    requires i < LEVEL_COUNT && ceiling % ALIGNMENT_BYTES == 0 && 100 * ceiling <= U64_MAX
    ensures RawRung(ceiling, 10 * (i + 1)) == Rung(ceiling / ALIGNMENT_BYTES, i)
  {
    var k := ceiling / ALIGNMENT_BYTES;
    var n := (i + 1) * k;
    assert ceiling == k * ALIGNMENT_BYTES;
    assert ceiling * (10 * (i + 1)) == 10 * (n * ALIGNMENT_BYTES) by {
      assert ceiling * (10 * (i + 1)) == (k * ALIGNMENT_BYTES) * (10 * (i + 1));
    }
    assert 10 * (i + 1) <= 100;
    MulLe(ceiling, 10 * (i + 1), 100);
    assert SatMul(ceiling, 10 * (i + 1)) == 10 * (n * ALIGNMENT_BYTES);
    assert SatMul(ceiling, 10 * (i + 1)) / 100 == n * ALIGNMENT_BYTES / 10;
    assert n * ALIGNMENT_BYTES / 10 / ALIGNMENT_BYTES == n / 10;
  }

  lemma MulLe(x: nat, a: nat, b: nat)
    requires a <= b
    ensures x * a <= x * b
  {
  }

  /** A ladder that stops at some step was not going to fit. */
  lemma LadderNeedsSteps(ceiling: u64, percent: u64)
    requires 10 <= percent <= 100 && percent % 10 == 0
    requires RawRung(ceiling, percent) == 0
          || (percent > 10 && RawRung(ceiling, percent - 10) >= RawRung(ceiling, percent))
    ensures !LadderFits(ceiling)
  {
    if LadderFits(ceiling) {
      var k, i := ceiling / ALIGNMENT_BYTES, percent / 10 - 1;
      assert k >= 10;
      RungValue(ceiling, i);
      assert 10 * (i + 1) == percent;
      RungPositive(k, i);
      if i > 0 {
        RungValue(ceiling, i - 1);
        RungIncreases(k, i);
      }
    }
  }

  lemma RungPositive(k: nat, i: nat)
    requires k >= 10
    ensures Rung(k, i) > 0
  {
  }

  /** With at least ten units every level is strictly above the one before. */
  lemma RungIncreases(k: nat, i: nat)
    requires k >= 10 && i > 0
    ensures Rung(k, i - 1) < Rung(k, i)
  {
  }

  /** The last level is the ceiling only if nothing saturated and the ceiling is
      aligned. */
  lemma RungsAgree(ceiling: u64)
    ensures RawRung(ceiling, 100) == ceiling <==>
              ceiling % ALIGNMENT_BYTES == 0 && 100 * ceiling <= U64_MAX
    ensures ceiling % ALIGNMENT_BYTES == 0 && 100 * ceiling <= U64_MAX ==>
              forall i | 0 <= i < LEVEL_COUNT ::
                RawRung(ceiling, 10 * (i + 1)) == Rung(ceiling / ALIGNMENT_BYTES, i)
  {
    if ceiling % ALIGNMENT_BYTES == 0 && 100 * ceiling <= U64_MAX {
      forall i | 0 <= i < LEVEL_COUNT
        ensures RawRung(ceiling, 10 * (i + 1)) == Rung(ceiling / ALIGNMENT_BYTES, i)
      {
        RungValue(ceiling, i);
      }
      RungValue(ceiling, 9);
    }
  }

  /** Ten strictly increasing positive levels need ten units. */
  lemma LadderFirstStep(ceiling: u64)
    ensures RawRung(ceiling, 10) > 0 ==> ceiling >= 10 * ALIGNMENT_BYTES
  {
  }

  /** A ladder increases strictly and ends at its ceiling. */
  lemma LadderShape(ceiling: u64)
    requires LadderFits(ceiling)
    ensures Rung(ceiling / ALIGNMENT_BYTES, LEVEL_COUNT - 1) == ceiling
    ensures forall i, j | 0 <= i < j < LEVEL_COUNT ::
              0 < Rung(ceiling / ALIGNMENT_BYTES, i) < Rung(ceiling / ALIGNMENT_BYTES, j)
  {
    forall i, j | 0 <= i < j < LEVEL_COUNT
      ensures 0 < Rung(ceiling / ALIGNMENT_BYTES, i) < Rung(ceiling / ALIGNMENT_BYTES, j)
    {
      RungPositive(ceiling / ALIGNMENT_BYTES, i);
      RungsOrdered(ceiling / ALIGNMENT_BYTES, i, j);
    }
  }

  lemma {:induction false} RungsOrdered(k: nat, i: nat, j: nat)
    requires k >= 10 && i < j
    ensures Rung(k, i) < Rung(k, j)
  {
  }

  /** Every effective maximum from 704 MiB to 2^57 bytes gets a ceiling whose
      ladder exists. */
  lemma CeilingHasLadder(e: u64)
    requires 704 * 1024 * 1024 <= e <= 0x200_0000_0000_0000
    ensures SafeSearchCeiling(e).Some? && LadderFits(SafeSearchCeiling(e).value)
  {
    CeilingExists(e);
    var c := SafeSearchCeiling(e).value;
    CeilingExactly(e, c);
    assert SatMul(e, 10) == 10 * e;
  }
}
