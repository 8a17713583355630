/** Decimal numerals of 64-bit numbers: printing, and parsing that refuses an
    overflow. */
module Decimal {
  import opened Wrappers
  import opened MachineInts

  predicate IsDigit(c: char) {
    '0' <= c <= '9'
  }

  function DigitOf(d: nat): (c: char)
    requires d < 10
    ensures IsDigit(c) && (c as int) - ('0' as int) == d
  {
    ('0' as int + d) as char
  }

  predicate AllDigits(s: string) {
    forall i | 0 <= i < |s| :: IsDigit(s[i])
  }

  function ValueOf(s: string): nat
    requires AllDigits(s)
  {
    if s == [] then 0
    else
      var last := s[|s| - 1];
      assert IsDigit(last);
      10 * ValueOf(s[..|s| - 1]) + (last as int - '0' as int)
  }

  function Render(n: nat): (s: string)
    ensures s != [] && AllDigits(s)
    ensures n > 0 ==> s[0] != '0'
  {
    if n < 10 then [DigitOf(n)] else Render(n / 10) + [DigitOf(n % 10)]
  }

  /** What is left of a numeral without the plus sign it may start with. */
  function Unsigned(s: string): string {
    if s != [] && s[0] == '+' then s[1..] else s
  }

  /** One plus sign in front of a numeral is dropped. */
  lemma PlusIsDropped(digits: string)
    requires digits != [] && AllDigits(digits)
    ensures Unsigned(digits) == Unsigned("+" + digits) == digits
    ensures Unsigned("++" + digits) == "+" + digits && !AllDigits(Unsigned("++" + digits))
  {
    assert IsDigit(digits[0]) && !IsDigit('+');
    assert ("+" + digits)[1..] == digits && ("++" + digits)[1..] == "+" + digits;
    assert ("+" + digits)[0] == '+';
  }

  /** Digit by digit, giving up at the first character that is no digit and at the
      first digit that takes the value out of range. */
  method ParseU64(s: string) returns (r: Option<u64>)
    ensures r.Some? <==> Unsigned(s) != [] && AllDigits(Unsigned(s)) && ValueOf(Unsigned(s)) <= U64_MAX
    ensures r.Some? ==> r.value == ValueOf(Unsigned(s))
  {
    var digits := Unsigned(s);
    if digits == [] {
      return None;
    }
    var value: u64 := 0;
    for i := 0 to |digits|
      invariant AllDigits(digits[..i]) && value == ValueOf(digits[..i])
    {
      assert digits[..i + 1][..i] == digits[..i];
      if !IsDigit(digits[i]) {
        return None;
      }
      assert forall k | 0 <= k < i :: digits[..i][k] == digits[k];
      assert AllDigits(digits[..i + 1]);
      var next := 10 * value + (digits[i] as int - '0' as int);
      if next > U64_MAX {
        PrefixIsSmaller(digits, i + 1);
        return None;
      }
      value := next;
    }
    assert digits[..|digits|] == digits;
    r := Some(value);
  }

  lemma {:induction false} PrefixIsSmaller(s: string, i: nat)
    requires i <= |s| && AllDigits(s[..i])
    ensures AllDigits(s) ==> ValueOf(s[..i]) <= ValueOf(s)
  {
    if i == |s| {
      assert s[..i] == s;
    } else if AllDigits(s) {
      var init := s[..|s| - 1];
      assert init[..i] == s[..i];
      PrefixIsSmaller(init, i);
    }
  }

  /** Printing and reading back. */
  lemma {:induction false} RenderThenValue(n: nat)
    ensures ValueOf(Render(n)) == n
  {
    if n >= 10 {
      RenderThenValue(n / 10);
      assert Render(n)[..|Render(n)| - 1] == Render(n / 10);
    }
  }

  /** Reading and printing back: numerals without a leading zero are canonical. */
  lemma {:induction false} ValueThenRender(s: string)
    requires s != [] && AllDigits(s) && s[0] != '0'
    ensures ValueOf(s) > 0 && Render(ValueOf(s)) == s
  {
    var init, last := s[..|s| - 1], s[|s| - 1];
    assert IsDigit(last) && s == init + [last];
    if init == [] {
      assert s == [last];
    } else {
      ValueThenRender(init);
    }
  }

  lemma RenderIsInjective(m: nat, n: nat)
    requires Render(m) == Render(n)
    ensures m == n
  {
    RenderThenValue(m);
    RenderThenValue(n);
  }

  // -------------------------------------------------------------------
  // The lineage in a directory name
  // -------------------------------------------------------------------

  const LINEAGE_PREFIX := "nemor-capacity-benchmark-"

  /** The lineage of a directory directly under the temporary root, by its name. */
  method PathLineage(underTemporaryRoot: bool, name: string, role: string) returns (r: Option<u64>)
    ensures r.Some? ==>
              && underTemporaryRoot && 0 < r.value
              && name == "nemor-capacity-benchmark-" + Render(r.value) + role
    ensures r.None? ==>
              || !underTemporaryRoot
              || forall n: u64 :: n > 0 ==> name != "nemor-capacity-benchmark-" + Render(n) + role
  {
    if !underTemporaryRoot {
      return None;
    }
    if !HasPrefix(name, LINEAGE_PREFIX) {
      NoSuchName(name, role);
      return None;
    }
    var rest := name[|LINEAGE_PREFIX|..];
    assert name == LINEAGE_PREFIX + rest;
    if !HasSuffix(rest, role) {
      NoSuchName(name, role);
      return None;
    }
    var lineage := rest[..|rest| - |role|];
    assert rest == lineage + role;
    forall n: nat
      ensures name == LINEAGE_PREFIX + Render(n) + role ==> lineage == Render(n)
    {
      MiddleIsUnique(LINEAGE_PREFIX, lineage, Render(n), role);
      assert LINEAGE_PREFIX + rest == LINEAGE_PREFIX + lineage + role;
    }
    if lineage == [] || lineage[0] == '0' || !AllDigits(lineage) {
      return None;
    }
    ValueThenRender(lineage);
    var parsed := ParseU64(lineage);
    if parsed.None? {
      forall n: u64
        ensures lineage != Render(n)
      {
        RenderThenValue(n);
      }
      return None;
    }
    assert LINEAGE_PREFIX + rest == LINEAGE_PREFIX + lineage + role;
    r := if parsed.value > 0 && Render(parsed.value) == lineage then parsed else None;
  }

  /** The two roots of one experiment: they name the same lineage. */
  method PathContract(preparedUnder: bool, prepared: string, outputUnder: bool, output: string)
    returns (r: Option<u64>)
    ensures r.Some? ==>
              && preparedUnder && outputUnder && r.value > 0
              && prepared == "nemor-capacity-benchmark-" + Render(r.value) + "-prepared"
              && output == "nemor-capacity-benchmark-" + Render(r.value) + "-output"
    ensures r.None? ==>
              || !preparedUnder || !outputUnder
              || forall n: u64 :: n > 0 && prepared == "nemor-capacity-benchmark-" + Render(n) + "-prepared" ==>
                                    output != "nemor-capacity-benchmark-" + Render(n) + "-output"
  {
    var p := PathLineage(preparedUnder, prepared, "-prepared");
    if p.None? {
      return None;
    }
    var o := PathLineage(outputUnder, output, "-output");
    if o.None? {
      return None;
    }
    RolesDiffer(p.value, o.value);
    if p.value != o.value || prepared == output {
      forall n: u64 | n > 0 && prepared == LINEAGE_PREFIX + Render(n) + "-prepared"
        ensures output != LINEAGE_PREFIX + Render(n) + "-output"
      {
        NameDeterminesLineage(n, p.value, "-prepared");
        NameDeterminesLineage(n, o.value, "-output");
      }
      return None;
    }
    r := p;
  }

  lemma RolesDiffer(m: nat, n: nat)
    ensures LINEAGE_PREFIX + Render(m) + "-prepared" != LINEAGE_PREFIX + Render(n) + "-output"
  {
    var a, b := LINEAGE_PREFIX + Render(m) + "-prepared", LINEAGE_PREFIX + Render(n) + "-output";
    assert a[|a| - 1] == 'd' && b[|b| - 1] == 't';
  }

  lemma NameDeterminesLineage(m: nat, n: nat, role: string)
    ensures LINEAGE_PREFIX + Render(m) + role == LINEAGE_PREFIX + Render(n) + role ==> m == n
  {
    MiddleIsUnique(LINEAGE_PREFIX, Render(m), Render(n), role);
    if Render(m) == Render(n) {
      RenderIsInjective(m, n);
    }
  }

  lemma MiddleIsUnique(p: string, a: string, b: string, s: string)
    ensures p + a + s == p + b + s ==> a == b
  {
    if p + a + s == p + b + s {
      assert |a| == |b|;
      assert (p + a + s)[|p|..|p| + |a|] == a;
      assert (p + b + s)[|p|..|p| + |b|] == b;
    }
  }

  lemma NoSuchName(name: string, role: string)
    requires !HasPrefix(name, LINEAGE_PREFIX) || !HasSuffix(name[|LINEAGE_PREFIX|..], role)
    ensures forall n: nat :: name != LINEAGE_PREFIX + Render(n) + role
  {
  }

}
