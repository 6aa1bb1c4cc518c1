/**
  The integer first-order all-pass filter (code/lib/apf_i32.c): a Q30 recurrence
  that carries the bits cut off by the shift into the next step.
*/
module ApfI32 {

  import opened FixedPoint
  import opened Machine
  import RealArith

  const ONE: int := 0x4000_0000

  datatype Coeff = Coeff(b0: int32, b1: int32, a1: int32)

  datatype State = State(x1: int32, y1: int32, residual: int)

  const RESET := State(0, 0, 0)

  /** What the design routine produces: unit b1, equal b0 and a1 of magnitude at most one. */
  predicate Designed(c: Coeff) {
    c.b1 == ONE && c.a1 == c.b0 && Abs(c.b0) <= ONE
  }

  /** Coefficients for a positive corner frequency and sampling period; refused otherwise. */
  function Design(omega: real, ts: real): (r: Option<Coeff>)
    ensures r.Some? <==> omega > 0.0 && ts > 0.0
    ensures r.Some? ==> Designed(r.value)
  {
    if omega <= 0.0 || ts <= 0.0 then None
    else
      RealArith.ProductPositive(omega, ts);
      RatioBounded(omega * ts);
      var b0 := (omega * ts - 2.0) / (omega * ts + 2.0);
      RoundWithin(b0 * 1073741824.0, 1073741824);
      Some(Coeff(RoundToI32(b0 * 1073741824.0), ONE, RoundToI32(b0 * 1073741824.0)))
  }

  /** The coefficient is the bilinear transform's (d - 2) / (d + 2) in Q30, d the corner
      angle per sample, to half a unit. */
  lemma DesignIsBilinear(omega: real, ts: real)
    requires omega > 0.0 && ts > 0.0
    ensures var d, b0 := omega * ts, Design(omega, ts).value.b0 as real;
            -0.5 * (d + 2.0) <= b0 * (d + 2.0) - 1073741824.0 * (d - 2.0) <= 0.5 * (d + 2.0)
  {
    var d := omega * ts;
    RealArith.ProductPositive(omega, ts);
    RatioBounded(d);
    RoundedQuotient(d - 2.0, d + 2.0, (d - 2.0) / (d + 2.0), 1073741824.0, Design(omega, ts).value.b0);
  }

  lemma RatioBounded(d: real)
    requires d > 0.0
    ensures -1.0 <= (d - 2.0) / (d + 2.0) <= 1.0
  {
    var q := (d - 2.0) / (d + 2.0);
    assert q * (d + 2.0) == d - 2.0;
    if q > 1.0 {
      RealArith.ProductPositive(q - 1.0, d + 2.0);
    }
    if q < -1.0 {
      RealArith.ProductPositive(-1.0 - q, d + 2.0);
    }
  }

  // ----- One step -----

  function Accumulate(c: Coeff, s: State, x: int32): int {
    c.b0 * x + c.b1 * s.x1 - c.a1 * s.y1 + s.residual
  }

  /** The shifted accumulator; the shift of a negative value rounds down. */
  function Scaled(c: Coeff, s: State, x: int32): int {
    Accumulate(c, s, x) / ONE
  }

  function Step(c: Coeff, s: State, x: int32): State {
    var y := Saturate(Scaled(c, s, x));
    State(x, y, if y == Scaled(c, s, x) then Accumulate(c, s, x) - y * ONE else 0)
  }

  /** The residual is the fraction cut off: never negative, below one. */
  lemma ResidualRange(c: Coeff, s: State, x: int32)
    ensures 0 <= Step(c, s, x).residual < ONE
  {
  }

  /** What saturation loses; nothing otherwise. */
  function Clipped(c: Coeff, s: State, x: int32): (e: int)
    ensures I32_MIN <= Scaled(c, s, x) <= I32_MAX ==> e == 0
  {
    Accumulate(c, s, x) - Step(c, s, x).y1 * ONE - Step(c, s, x).residual
  }

  /** The output is the 32-bit number nearest to the scaled accumulator. */
  lemma OutputIsNearest(c: Coeff, s: State, x: int32, v: int32)
    ensures Abs(Step(c, s, x).y1 as int - Scaled(c, s, x)) <= Abs(v as int - Scaled(c, s, x))
  {
    SaturateIsNearest(Scaled(c, s, x), v);
  }

  /** Saturation loses on the side it cuts, and carries nothing over. */
  lemma ClippedSign(c: Coeff, s: State, x: int32)
    ensures Clipped(c, s, x) > 0 <==> Scaled(c, s, x) > I32_MAX
    ensures Clipped(c, s, x) < 0 <==> Scaled(c, s, x) < I32_MIN
    ensures Clipped(c, s, x) != 0 ==> Step(c, s, x).residual == 0
  {
  }

  // ----- Runs from reset -----

  function Run(c: Coeff, xs: seq<int32>): State {
    if xs == [] then RESET else Step(c, Run(c, xs[..|xs| - 1]), xs[|xs| - 1])
  }

  function SumX(xs: seq<int32>): int {
    if xs == [] then 0 else SumX(xs[..|xs| - 1]) + xs[|xs| - 1]
  }

  function SumY(c: Coeff, xs: seq<int32>): int {
    if xs == [] then 0 else SumY(c, xs[..|xs| - 1]) + Run(c, xs).y1
  }

  function Lost(c: Coeff, xs: seq<int32>): int {
    if xs == [] then 0 else Lost(c, xs[..|xs| - 1]) + Clipped(c, Run(c, xs[..|xs| - 1]), xs[|xs| - 1])
  }

  ghost predicate NeverSaturates(c: Coeff, xs: seq<int32>) {
    forall k :: 0 <= k < |xs| ==> I32_MIN <= Scaled(c, Run(c, xs[..k]), xs[k]) <= I32_MAX
  }

  lemma DriftStep(b0: int, sx: int, sy: int, x0: int, y0: int, r0: int, x: int, y: int, r: int, lost: int, e: int)
    requires (ONE + b0) * (sy - sx) == b0 * y0 - ONE * x0 - r0 - lost
    requires b0 * x + ONE * x0 - b0 * y0 + r0 == y * ONE + r + e
    ensures (ONE + b0) * (sy + y - (sx + x)) == b0 * y - ONE * x - r - (lost + e)
  {
    Distribute(ONE + b0, sy - sx, y - x);
    Distribute(y - x, ONE, b0);
    Distribute(b0, y, -x);
  }

  /** For every run length: the accumulated output differs from the accumulated input
      only by the current state and by what saturation lost. */
  lemma {:induction false} Drift(c: Coeff, xs: seq<int32>)
    requires Designed(c)
    ensures (ONE + c.b0) * (SumY(c, xs) - SumX(xs))
         == c.b0 * Run(c, xs).y1 - ONE * Run(c, xs).x1 - Run(c, xs).residual - Lost(c, xs)
  {
    if xs != [] {
      var before := xs[..|xs| - 1];
      var x := xs[|xs| - 1];
      var s, t := Run(c, before), Run(c, xs);
      Drift(c, before);
      DriftStep(c.b0, SumX(before), SumY(c, before), s.x1, s.y1, s.residual, x, t.y1, t.residual,
                Lost(c, before), Clipped(c, s, x));
    }
  }

  lemma {:induction false} NothingLost(c: Coeff, xs: seq<int32>)
    requires NeverSaturates(c, xs)
    ensures Lost(c, xs) == 0
  {
    if xs != [] {
      var before := xs[..|xs| - 1];
      forall k | 0 <= k < |before|
        ensures I32_MIN <= Scaled(c, Run(c, before[..k]), before[k]) <= I32_MAX
      {
        assert before[..k] == xs[..k];
      }
      NothingLost(c, before);
      assert xs[..|xs| - 1] == before;
    }
  }

  /** Without saturation the drift depends on the last sample only. */
  lemma {:induction false} DriftExact(c: Coeff, xs: seq<int32>)
    requires Designed(c) && NeverSaturates(c, xs)
    ensures (ONE + c.b0) * (SumY(c, xs) - SumX(xs))
         == c.b0 * Run(c, xs).y1 - ONE * Run(c, xs).x1 - Run(c, xs).residual
    ensures 0 <= Run(c, xs).residual < ONE
  {
    Drift(c, xs);
    NothingLost(c, xs);
    if xs != [] {
      ResidualRange(c, Run(c, xs[..|xs| - 1]), xs[|xs| - 1]);
    }
  }

  /** So it stays below one bound however long the run. */
  lemma DriftBounded(c: Coeff, xs: seq<int32>)
    requires Designed(c) && NeverSaturates(c, xs)
    ensures Abs((ONE + c.b0) * (SumY(c, xs) - SumX(xs))) <= 0x4000_0000_4000_0000
  {
    DriftExact(c, xs);
    MulBound(c.b0, Run(c, xs).y1, 0x4000_0000, 0x8000_0000);
  }

  // ----- When 64 bits suffice -----

  /** Every partial sum of one step, in the order the step adds them, fits 64 bits. */
  predicate PartialsFit(c: Coeff, s: State, x: int32) {
    && Fits64(c.b0 * x + c.b1 * s.x1)
    && Fits64(c.b0 * x + c.b1 * s.x1 - c.a1 * s.y1)
    && Fits64(Accumulate(c, s, x))
  }

  /** The greatest and the least accumulator stay within 64 bits. */
  predicate Safe(c: Coeff) {
    && Fits64(Top(c.b0) + Top(c.b1) - Bottom(c.a1) + (ONE - 1))
    && Fits64(Bottom(c.b0) + Bottom(c.b1) - Top(c.a1))
  }

  lemma SafeSuffices(c: Coeff, s: State, x: int32)
    requires Safe(c) && 0 <= s.residual < ONE
    ensures PartialsFit(c, s, x)
  {
    ProductRange(c.b0, x);
    ProductRange(c.b1, s.x1);
    ProductRange(c.a1, s.y1);
  }

  lemma SafeIsNeeded(c: Coeff)
    requires forall s: State, x: int32 :: 0 <= s.residual < ONE ==> PartialsFit(c, s, x)
    ensures Safe(c)
  {
    var high := State(TopAt(c.b1), BottomAt(c.a1), ONE - 1);
    var low := State(BottomAt(c.b1), TopAt(c.a1), 0);
    assert PartialsFit(c, high, TopAt(c.b0)) && PartialsFit(c, low, BottomAt(c.b0));
  }

  /** No step overflows, whatever the state and the input, exactly for safe coefficients.
      Every state counts: `apf_i32_set_coeff` exchanges the coefficients and keeps the
      state, so `EveryStateIsReached` applies. */
  lemma {:induction false} SafeIsExact(c: Coeff)
    ensures Safe(c) <==> forall s: State, x: int32 :: 0 <= s.residual < ONE ==> PartialsFit(c, s, x)
  {
    if Safe(c) {
      forall s: State, x: int32 | 0 <= s.residual < ONE
        ensures PartialsFit(c, s, x)
      {
        SafeSuffices(c, s, x);
      }
    } else if forall s: State, x: int32 :: 0 <= s.residual < ONE ==> PartialsFit(c, s, x) {
      SafeIsNeeded(c);
    }
  }

  /** Every state is reached from reset in two safe steps, the coefficients exchanged
      between them. */
  lemma EveryStateIsReached(s: State)
    requires 0 <= s.residual < ONE
    ensures var first, second := Coeff(-1, 0, 0), Coeff(0, s.y1, s.residual);
            && Safe(first) && Safe(second)
            && s == Step(second, Step(first, RESET, ONE), s.x1)
  {
    assert Step(Coeff(-1, 0, 0), RESET, ONE) == State(ONE, -1, 0);
  }

  lemma DesignedIsSafe(c: Coeff)
    requires Designed(c)
    ensures Safe(c)
  {
  }

  // ----- The filter object -----

  class Filter {
    var coeff: Coeff
    var x1: int32
    var y1: int32
    var residual: int64

    ghost predicate Valid()
      reads this
    {
      0 <= residual as int < ONE
    }

    ghost function Value(): State
      reads this
    {
      State(x1, y1, residual as int)
    }

    constructor (coeff: Coeff)
      ensures Valid() && Value() == RESET && this.coeff == coeff
    {
      this.coeff := coeff;
      x1, y1, residual := 0, 0, 0;
    }

    method Reset()
      modifies this`x1, this`y1, this`residual
      ensures Valid() && Value() == RESET
    {
      x1, y1, residual := 0, 0, 0;
    }

    /** No 64-bit operation overflows. */
    method Sum(input: int32) returns (accumulator: int64)
      requires Valid() && Safe(coeff)
      ensures accumulator as int == Accumulate(coeff, Value(), input)
    {
      MulBound(coeff.b0, input, 0x8000_0000, 0x8000_0000);
      MulBound(coeff.b1, x1, 0x8000_0000, 0x8000_0000);
      MulBound(coeff.a1, y1, 0x8000_0000, 0x8000_0000);
      SafeSuffices(coeff, Value(), input);
      accumulator :=
        (coeff.b0 as int64) * (input as int64) + (coeff.b1 as int64) * (x1 as int64)
        - (coeff.a1 as int64) * (y1 as int64) + residual;
    }

    method Cal(input: int32) returns (output: int32)
      requires Valid() && Safe(coeff)
      modifies this`x1, this`y1, this`residual
      ensures Valid()
      ensures Value() == Step(coeff, old(Value()), input) && output == y1
    {
      ResidualRange(coeff, Value(), input);
      var accumulator := Sum(input);
      var scaled: int64 := accumulator / 0x4000_0000;
      output := Saturate(scaled as int);
      if scaled == output as int64 {
        residual := accumulator - (output as int64) * 0x4000_0000;
      } else {
        residual := 0;
      }
      x1 := input;
      y1 := output;
    }
  }
}
