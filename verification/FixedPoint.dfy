/** 32- and 64-bit arithmetic shared by the integer filters. */
module FixedPoint {

  import RealArith

  const I32_MAX: int := 0x7fff_ffff
  const I32_MIN: int := -0x8000_0000

  type int32 = x: int | I32_MIN <= x <= I32_MAX

  /** Every operation on this type is checked to stay within 64 bits. */
  newtype int64 = x: int | -0x8000_0000_0000_0000 <= x <= 0x7fff_ffff_ffff_ffff

  function Saturate(v: int): (r: int32)
    ensures r == v <==> I32_MIN <= v <= I32_MAX
  {
    if v > I32_MAX then I32_MAX else if v < I32_MIN then I32_MIN else v
  }

  /** The saturated value is the 32-bit number nearest to `v`. */
  lemma SaturateIsNearest(v: int, w: int32)
    ensures Abs(Saturate(v) - v) <= Abs(w - v)
  {
  }

  function Abs(x: int): nat {
    if x < 0 then -x else x
  }

  lemma MulBound(a: int, b: int, m: nat, n: nat)
    requires Abs(a) <= m && Abs(b) <= n
    ensures Abs(a * b) <= m * n
  {
    AbsMul(a, b);
    MulMonotone(Abs(a), Abs(b), m, n);
  }

  lemma AbsMul(a: int, b: int)
    ensures Abs(a * b) == Abs(a) * Abs(b)
  {
  }

  lemma Distribute(a: int, x: int, y: int)
    ensures a * (x + y) == a * x + a * y
  {
  }

  lemma MulMonotone(a: nat, b: nat, m: nat, n: nat)
    requires a <= m && b <= n
    ensures a * b <= m * n
  {
    assert a * b <= m * b;
    assert m * b <= m * n;
  }

  // ----- Reaching the 64-bit limits -----

  predicate Fits64(v: int) {
    -0x8000_0000_0000_0000 <= v <= 0x7fff_ffff_ffff_ffff
  }

  /** The 32-bit factor that makes its product with `b` greatest. */
  function TopAt(b: int): int32 {
    if b >= 0 then I32_MAX else I32_MIN
  }

  /** The 32-bit factor that makes its product with `b` least. */
  function BottomAt(b: int): int32 {
    if b >= 0 then I32_MIN else I32_MAX
  }

  function Top(b: int): int {
    b * TopAt(b)
  }

  function Bottom(b: int): int {
    b * BottomAt(b)
  }

  /** The product of `b` and a 32-bit number lies between the two, zero included. */
  lemma ProductRange(b: int, v: int32)
    ensures Bottom(b) <= b * v <= Top(b)
    ensures Bottom(b) <= 0 <= Top(b)
  {
    if b >= 0 {
      MulMonotone(b, I32_MAX - v, b, 0xffff_ffff);
      Distribute(b, I32_MAX, -(v as int));
      Distribute(b, v, -I32_MIN);
    } else {
      Distribute(-b, v, -I32_MIN);
      Distribute(-b, I32_MAX, -(v as int));
    }
  }

  /** Rounding to the nearest 32-bit integer, halves away from zero. */
  function RoundToI32(v: real): (r: int32)
    ensures 0.0 <= v < 2147483647.0 ==> v - 0.5 < r as real <= v + 0.5
    ensures -2147483648.0 < v < 0.0 ==> v - 0.5 <= r as real < v + 0.5
    ensures v >= 2147483647.0 ==> r == I32_MAX
    ensures v <= -2147483648.0 ==> r == I32_MIN
  {
    if v >= 2147483647.0 then I32_MAX
    else if v <= -2147483648.0 then I32_MIN
    else if v >= 0.0 then (v + 0.5).Floor
    else -((0.5 - v).Floor)
  }

  lemma ErrorTimes(e: real, d: real)
    requires -0.5 <= e <= 0.5 && d > 0.0
    ensures -0.5 * d <= e * d <= 0.5 * d
  {
    RealArith.ProductNonnegative(0.5 - e, d);
    RealArith.ProductNonnegative(e + 0.5, d);
    assert (0.5 - e) * d == 0.5 * d - e * d && (e + 0.5) * d == e * d + 0.5 * d;
  }

  lemma Regroup(q: real, scale: real, d: real)
    ensures q * scale * d == scale * (q * d)
  {
  }

  lemma QuotientError(r: real, e: real, q: real, x: real, d: real, scale: real)
    requires q * d == x && e == r - q * scale
    ensures r * d - scale * x == e * d
  {
    Regroup(q, scale, d);
    assert e * d == r * d - q * scale * d;
  }

  /** A scaled quotient, rounded, is off by at most half a unit of its denominator. */
  lemma RoundedQuotient(x: real, d: real, q: real, scale: real, r: int32)
    requires d > 0.0 && q * d == x && -2147483648.0 < q * scale < 2147483647.0 && r == RoundToI32(q * scale)
    ensures -0.5 * d <= r as real * d - scale * x <= 0.5 * d
  {
    var e, z := r as real - q * scale, r as real;
    ErrorTimes(e, d);
    QuotientError(z, e, q, x, d, scale);
  }

  /** Rounding keeps a value inside an integer interval. */
  lemma RoundWithin(v: real, m: nat)
    requires m < I32_MAX && -(m as real) <= v <= m as real
    ensures Abs(RoundToI32(v)) <= m
  {
  }
}
