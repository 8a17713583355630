/** The fixed-width integers of the sources, and the operations on them that do
    not simply panic: saturating, checked, wrapping and truncating ones. */
module MachineInts {
  import opened Wrappers

  const U64_MAX: int := 0xFFFF_FFFF_FFFF_FFFF
  const I64_MIN: int := -0x8000_0000_0000_0000
  const I64_MAX: int := 0x7FFF_FFFF_FFFF_FFFF
  const I128_MIN: int := -0x8000_0000_0000_0000_0000_0000_0000_0000
  const I128_MAX: int := 0x7FFF_FFFF_FFFF_FFFF_FFFF_FFFF_FFFF_FFFF

  type u64 = x: int | 0 <= x <= U64_MAX
  type i64 = x: int | I64_MIN <= x <= I64_MAX witness 0
  type i128 = x: int | I128_MIN <= x <= I128_MAX witness 0

  function SatMul(x: u64, y: u64): u64 {
    if x * y <= U64_MAX then MulBounds(x, y); x * y else U64_MAX
  }

  lemma MulBounds(x: nat, y: nat)
    ensures x * y >= 0
  {
  }

  function SatAdd(x: u64, y: u64): u64 {
    if x + y <= U64_MAX then x + y else U64_MAX
  }

  function CheckedI128(x: int): Option<i128> {
    if I128_MIN <= x <= I128_MAX then Some(x) else None
  }

  function TryI64(x: int): Option<i64> {
    if I64_MIN <= x <= I64_MAX then Some(x) else None
  }

  /** Division rounding toward zero, as `/` on signed integers does. */
  function TruncDiv(n: int, d: int): int
    requires d > 0
  {
    if n >= 0 then n / d else -((-n) / d)
  }

  /** `as i64`: the low 64 bits, read as two's complement. */
  function WrapI64(x: int): i64 {
    var low := x % (U64_MAX + 1);
    if low <= I64_MAX then low else low - (U64_MAX + 1)
  }

  /** The quotient without its fraction: toward zero from either side. */
  lemma TruncDivTruncates(n: int, d: int)
    requires d > 0
    ensures n >= 0 ==> TruncDiv(n, d) * d <= n < (TruncDiv(n, d) + 1) * d
    ensures n <= 0 ==> (TruncDiv(n, d) - 1) * d < n <= TruncDiv(n, d) * d
  {
    if n >= 0 {
      assert n == n / d * d + n % d;
    } else {
      var m := -n;
      assert m == m / d * d + m % d;
    }
  }

  /** What fits is kept, what does not is refused; the bounds are those of two's
      complement. */
  lemma CheckedExactly(x: int)
    ensures CheckedI128(x) == if -0x8000_0000_0000_0000_0000_0000_0000_0000 <= x
                                 < 0x8000_0000_0000_0000_0000_0000_0000_0000 then Some(x) else None
    ensures TryI64(x) == if -0x8000_0000_0000_0000 <= x < 0x8000_0000_0000_0000 then Some(x) else None
  {
  }

  /** Saturating arithmetic is exact up to the largest number there is. */
  lemma SaturatesExactly(x: u64, y: u64)
    ensures SatMul(x, y) == if x * y < 0x1_0000_0000_0000_0000 then x * y else 0xFFFF_FFFF_FFFF_FFFF
    ensures SatAdd(x, y) == if x + y < 0x1_0000_0000_0000_0000 then x + y else 0xFFFF_FFFF_FFFF_FFFF
  {
  }

  /** Wrapping changes a number by a multiple of two to the 64th. */
  lemma WrapsExactly(x: int)
    ensures (x - WrapI64(x)) % 0x1_0000_0000_0000_0000 == 0
  {
  }

  lemma WrapFits(x: i64)
    ensures WrapI64(x) == x
  {
  }
}
