/**
  The integer resonant controller (code/lib/resonant_i32.c): a second-order Q29
  recurrence that carries the bits cut off by the shift into the next step.
*/
module ResonantI32 {

  import opened FixedPoint
  import opened Machine
  import RealArith

  const ONE: int := 0x2000_0000

  datatype Coeff = Coeff(b0: int32, b2: int32, a1: int32, a2: int32)

  datatype State = State(x1: int32, x2: int32, y1: int32, y2: int32, residual: int)

  const RESET := State(0, 0, 0, 0, 0)

  /** The shape every designed controller has: opposed input taps, unit a2, feedback within two. */
  predicate Shaped(c: Coeff) {
    c.b0 as int + c.b2 == 0 && c.a2 == ONE && Abs(c.a1) <= 2 * ONE
  }

  /** With an input gain of at most two as well. */
  predicate Designed(c: Coeff) {
    Shaped(c) && Abs(c.b0) <= 2 * ONE
  }

  /** The squared angle `w` = (order * omega * ts)^2 as a feedback coefficient. */
  function Feedback(w: real): int32
    requires w > 0.0
  {
    RoundToI32((2.0 * w - 8.0) / (4.0 + w) * 536870912.0)
  }

  /** The step `g` = 2 * gain * ts * domain gain as an input coefficient. */
  function InputGain(g: real, w: real): int32
    requires g >= 0.0 && w > 0.0
  {
    RoundToI32(g / (4.0 + w) * 536870912.0)
  }

  lemma FeedbackWithinTwo(w: real)
    requires w > 0.0
    ensures Abs(Feedback(w)) <= 2 * ONE
  {
    RatioBounded(w);
    RoundWithin((2.0 * w - 8.0) / (4.0 + w) * 536870912.0, 1073741824);
  }

  lemma InputGainBounds(g: real, w: real)
    requires g >= 0.0 && w > 0.0
    ensures InputGain(g, w) >= 0
    ensures g / (4.0 + w) <= 2.0 ==> InputGain(g, w) <= 2 * ONE
  {
    Quotient(g, 4.0 + w);
    if g / (4.0 + w) <= 2.0 {
      RoundWithin(g / (4.0 + w) * 536870912.0, 1073741824);
    }
  }

  function DesignFrom(g: real, w: real): (c: Coeff)
    requires g >= 0.0 && w > 0.0
    ensures Shaped(c)
    ensures g / (4.0 + w) <= 2.0 ==> Designed(c)
  {
    FeedbackWithinTwo(w);
    InputGainBounds(g, w);
    Coeff(InputGain(g, w), -InputGain(g, w), Feedback(w), ONE)
  }

  /** A product of positive numbers. */
  function Times(a: real, b: real): (r: real)
    requires a > 0.0 && b > 0.0
    ensures r > 0.0
  {
    RealArith.ProductPositive(a, b);
    a * b
  }

  /** The controller's gain over one step, scaled from input codes to output codes. */
  function StepGain(gain: real, ts: real, output: real, input: real): (r: real)
    requires gain >= 0.0 && ts > 0.0 && output > 0.0 && input > 0.0
    ensures r >= 0.0
  {
    RealArith.QuotientPositive(output, input);
    RealArith.ProductNonnegative(gain, ts);
    RealArith.ProductNonnegative(gain * ts, output / input);
    2.0 * (gain * ts * (output / input))
  }

  lemma StepGainIs(gain: real, ts: real, output: real, input: real)
    requires gain >= 0.0 && ts > 0.0 && output > 0.0 && input > 0.0
    ensures StepGain(gain, ts, output, input) * input == 2.0 * (gain * ts * output)
  {
    var g, q := gain * ts, output / input;
    assert q * input == output;
    assert 2.0 * (g * q) * input == 2.0 * (g * (q * input));
  }

  /** Coefficients from the physical parameters; refused unless they make sense. */
  function Design(gain: real, order: nat, omega: real, ts: real, output: real, input: real): (r: Option<Coeff>)
    ensures r.Some? <==> gain >= 0.0 && order > 0 && omega > 0.0 && ts > 0.0 && output > 0.0 && input > 0.0
    ensures r.Some? ==> Shaped(r.value)
  {
    if gain < 0.0 || order == 0 || omega <= 0.0 || ts <= 0.0 || output <= 0.0 || input <= 0.0 then None
    else
      var angle := Times(ts, Times(order as real, omega));
      Some(DesignFrom(StepGain(gain, ts, output, input), Times(angle, angle)))
  }

  /** The bilinear transform's feedback (2 w - 8) / (4 + w) in Q29, to half a unit. */
  predicate BilinearFeedback(a1: int32, w: real) {
    var d := 4.0 + w;
    -0.5 * d <= a1 as real * d - 536870912.0 * (2.0 * w - 8.0) <= 0.5 * d
  }

  lemma FeedbackIsBilinear(w: real)
    requires w > 0.0
    ensures BilinearFeedback(Feedback(w), w)
  {
    RatioBounded(w);
    RoundedQuotient(2.0 * w - 8.0, 4.0 + w, (2.0 * w - 8.0) / (4.0 + w), 536870912.0, Feedback(w));
  }

  /** Its input gain g / (4 + w) in Q29, to half a unit; a larger one saturates. */
  predicate BilinearGain(b0: int32, g: real, w: real)
    requires w > 0.0
  {
    var d := 4.0 + w;
    if g / d * 536870912.0 < 2147483647.0 then -0.5 * d <= b0 as real * d - 536870912.0 * g <= 0.5 * d
    else b0 == I32_MAX
  }

  lemma GainIsBilinear(g: real, w: real)
    requires g >= 0.0 && w > 0.0
    ensures BilinearGain(InputGain(g, w), g, w)
  {
    Quotient(g, 4.0 + w);
    if g / (4.0 + w) * 536870912.0 < 2147483647.0 {
      RoundedQuotient(g, 4.0 + w, g / (4.0 + w), 536870912.0, InputGain(g, w));
    }
  }

  lemma Cancel(a: real, b: real, d: real)
    requires d > 0.0 && a * d == b * d
    ensures a == b
  {
    if a > b {
      RealArith.ProductPositive(a - b, d);
    } else if b > a {
      RealArith.ProductPositive(b - a, d);
    }
  }

  lemma StepGainUnique(gain: real, ts: real, output: real, input: real, g: real)
    requires gain >= 0.0 && ts > 0.0 && output > 0.0 && input > 0.0 && g * input == 2.0 * (gain * ts * output)
    ensures g == StepGain(gain, ts, output, input)
  {
    StepGainIs(gain, ts, output, input);
    Cancel(g, StepGain(gain, ts, output, input), input);
  }

  lemma SquareOfAngle(n: real, omega: real, ts: real, w: real)
    requires n > 0.0 && omega > 0.0 && ts > 0.0 && w == (ts * (n * omega)) * (ts * (n * omega))
    ensures var angle := Times(ts, Times(n, omega)); w == Times(angle, angle)
  {
    var f := n * omega;
    assert Times(n, omega) == f;
    var angle := ts * f;
    assert Times(ts, f) == angle;
  }

  lemma DesignIsFrom(gain: real, order: nat, omega: real, ts: real, output: real, input: real, w: real)
    requires gain >= 0.0 && order > 0 && omega > 0.0 && ts > 0.0 && output > 0.0 && input > 0.0
    requires var angle := Times(ts, Times(order as real, omega)); w == Times(angle, angle)
    ensures var c, g := Design(gain, order, omega, ts, output, input).value, StepGain(gain, ts, output, input);
            c.a1 == Feedback(w) && c.b0 == InputGain(g, w)
  {
  }

  /** The designed controller resonates at the angle ts * order * omega per sample, `w` its
      square, with the gain `g` that turns input codes into output codes. */
  lemma DesignIsBilinear(gain: real, order: nat, omega: real, ts: real, output: real, input: real, g: real, w: real)
    requires gain >= 0.0 && order > 0 && omega > 0.0 && ts > 0.0 && output > 0.0 && input > 0.0
    requires g * input == 2.0 * (gain * ts * output)
    requires var n := order as real; w == (ts * (n * omega)) * (ts * (n * omega))
    ensures var c := Design(gain, order, omega, ts, output, input).value;
            w > 0.0 && BilinearFeedback(c.a1, w) && BilinearGain(c.b0, g, w)
  {
    StepGainUnique(gain, ts, output, input, g);
    SquareOfAngle(order as real, omega, ts, w);
    DesignIsFrom(gain, order, omega, ts, output, input, w);
    FeedbackIsBilinear(w);
    GainIsBilinear(g, w);
  }

  lemma Quotient(g: real, d: real)
    requires g >= 0.0 && d > 0.0
    ensures g / d >= 0.0
  {
    var q := g / d;
    assert q * d == g;
    if q < 0.0 {
      RealArith.ProductPositive(-q, d);
    }
  }

  lemma RatioBounded(w: real)
    requires w >= 0.0
    ensures -2.0 <= (2.0 * w - 8.0) / (4.0 + w) <= 2.0
  {
    var q := (2.0 * w - 8.0) / (4.0 + w);
    assert q * (4.0 + w) == 2.0 * w - 8.0;
    if q > 2.0 {
      RealArith.ProductPositive(q - 2.0, 4.0 + w);
    }
    if q < -2.0 {
      RealArith.ProductPositive(-2.0 - q, 4.0 + w);
    }
  }

  // ----- One step -----

  function Accumulate(c: Coeff, s: State, x: int32): int {
    c.b0 * x + c.b2 * s.x2 - c.a1 * s.y1 - c.a2 * s.y2 + s.residual
  }

  function Scaled(c: Coeff, s: State, x: int32): int {
    Accumulate(c, s, x) / ONE
  }

  function Step(c: Coeff, s: State, x: int32): State {
    var y := Saturate(Scaled(c, s, x));
    State(x, s.x1, y, s.y1, if y == Scaled(c, s, x) then Accumulate(c, s, x) - y * ONE else 0)
  }

  /** The residual is the fraction cut off: never negative, below one. */
  lemma ResidualRange(c: Coeff, s: State, x: int32)
    ensures 0 <= Step(c, s, x).residual < ONE
  {
  }

  /** What saturation loses; nothing otherwise. */
  function Clipped(c: Coeff, s: State, x: int32): (e: int)
    ensures I32_MIN <= Scaled(c, s, x) <= I32_MAX ==> e == 0
  {
    Accumulate(c, s, x) - Step(c, s, x).y1 * ONE - Step(c, s, x).residual
  }

  /** The output is the 32-bit number nearest to the scaled accumulator. */
  lemma OutputIsNearest(c: Coeff, s: State, x: int32, v: int32)
    ensures Abs(Step(c, s, x).y1 as int - Scaled(c, s, x)) <= Abs(v as int - Scaled(c, s, x))
  {
    SaturateIsNearest(Scaled(c, s, x), v);
  }

  /** Saturation loses on the side it cuts, and carries nothing over. */
  lemma ClippedSign(c: Coeff, s: State, x: int32)
    ensures Clipped(c, s, x) > 0 <==> Scaled(c, s, x) > I32_MAX
    ensures Clipped(c, s, x) < 0 <==> Scaled(c, s, x) < I32_MIN
    ensures Clipped(c, s, x) != 0 ==> Step(c, s, x).residual == 0
  {
  }

  // ----- Runs from reset -----

  function Run(c: Coeff, xs: seq<int32>): State {
    if xs == [] then RESET else Step(c, Run(c, xs[..|xs| - 1]), xs[|xs| - 1])
  }

  function SumY(c: Coeff, xs: seq<int32>): int {
    if xs == [] then 0 else SumY(c, xs[..|xs| - 1]) + Run(c, xs).y1
  }

  function Lost(c: Coeff, xs: seq<int32>): int {
    if xs == [] then 0 else Lost(c, xs[..|xs| - 1]) + Clipped(c, Run(c, xs[..|xs| - 1]), xs[|xs| - 1])
  }

  ghost predicate NeverSaturates(c: Coeff, xs: seq<int32>) {
    forall k :: 0 <= k < |xs| ==> I32_MIN <= Scaled(c, Run(c, xs[..k]), xs[k]) <= I32_MAX
  }

  lemma DriftStep(b0: int, a1: int, sy: int, s: State, x: int, y: int, r: int, lost: int, e: int)
    requires (2 * ONE + a1) * sy == b0 * (s.x1 + s.x2) + a1 * s.y1 + ONE * (s.y1 + s.y2) - s.residual - lost
    requires b0 * x + -b0 * s.x2 - a1 * s.y1 - ONE * s.y2 + s.residual == y * ONE + r + e
    ensures (2 * ONE + a1) * (sy + y) == b0 * (x + s.x1) + a1 * y + ONE * (y + s.y1) - r - (lost + e)
  {
    Distribute(2 * ONE + a1, sy, y);
    Distribute(y, 2 * ONE, a1);
    Distribute(b0, s.x1, s.x2);
    Distribute(b0, x, s.x1);
    assert -b0 * s.x2 == -(b0 * s.x2);
  }

  /** For every run length: the accumulated output is determined by the last two
      inputs, the last two outputs, the residual and what saturation lost. */
  lemma {:induction false} Drift(c: Coeff, xs: seq<int32>)
    requires Shaped(c)
    ensures var s := Run(c, xs);
            (2 * ONE + c.a1) * SumY(c, xs)
            == c.b0 * (s.x1 + s.x2) + c.a1 * s.y1 + ONE * (s.y1 + s.y2) - s.residual - Lost(c, xs)
  {
    if xs != [] {
      var before := xs[..|xs| - 1];
      var x := xs[|xs| - 1];
      var s, t := Run(c, before), Run(c, xs);
      Drift(c, before);
      DriftStep(c.b0, c.a1, SumY(c, before), s, x, t.y1, t.residual, Lost(c, before), Clipped(c, s, x));
    }
  }

  lemma {:induction false} NothingLost(c: Coeff, xs: seq<int32>)
    requires NeverSaturates(c, xs)
    ensures Lost(c, xs) == 0
  {
    if xs != [] {
      var before := xs[..|xs| - 1];
      forall k | 0 <= k < |before|
        ensures I32_MIN <= Scaled(c, Run(c, before[..k]), before[k]) <= I32_MAX
      {
        assert before[..k] == xs[..k];
      }
      NothingLost(c, before);
      assert xs[..|xs| - 1] == before;
    }
  }

  /** Without saturation nothing is lost. */
  lemma {:induction false} DriftExact(c: Coeff, xs: seq<int32>)
    requires Shaped(c) && NeverSaturates(c, xs)
    ensures var s := Run(c, xs);
            && (2 * ONE + c.a1) * SumY(c, xs) == c.b0 * (s.x1 + s.x2) + c.a1 * s.y1 + ONE * (s.y1 + s.y2) - s.residual
            && 0 <= s.residual < ONE
  {
    Drift(c, xs);
    NothingLost(c, xs);
    if xs != [] {
      ResidualRange(c, Run(c, xs[..|xs| - 1]), xs[|xs| - 1]);
    }
  }

  /** The accumulated output stays below one bound however long the run. */
  lemma OutputSumBounded(c: Coeff, xs: seq<int32>)
    requires Designed(c) && NeverSaturates(c, xs)
    ensures Abs((2 * ONE + c.a1) * SumY(c, xs)) <= 0x8000_0000_2000_0000
  {
    DriftExact(c, xs);
    var s := Run(c, xs);
    MulBound(c.b0, s.x1 + s.x2, 0x4000_0000, 0x1_0000_0000);
    MulBound(c.a1, s.y1, 0x4000_0000, 0x8000_0000);
  }

  // ----- When 64 bits suffice -----

  /** Every partial sum of one step, in the order the step adds them, fits 64 bits. */
  predicate PartialsFit(c: Coeff, s: State, x: int32) {
    && Fits64(c.b0 * x + c.b2 * s.x2)
    && Fits64(c.b0 * x + c.b2 * s.x2 - c.a1 * s.y1)
    && Fits64(c.b0 * x + c.b2 * s.x2 - c.a1 * s.y1 - c.a2 * s.y2)
    && Fits64(Accumulate(c, s, x))
  }

  /** The greatest and the least accumulator stay within 64 bits. */
  predicate Safe(c: Coeff) {
    && Fits64(Top(c.b0) + Top(c.b2) - Bottom(c.a1) - Bottom(c.a2) + (ONE - 1))
    && Fits64(Bottom(c.b0) + Bottom(c.b2) - Top(c.a1) - Top(c.a2))
  }

  lemma SafeSuffices(c: Coeff, s: State, x: int32)
    requires Safe(c) && 0 <= s.residual < ONE
    ensures PartialsFit(c, s, x)
  {
    ProductRange(c.b0, x);
    ProductRange(c.b2, s.x2);
    ProductRange(c.a1, s.y1);
    ProductRange(c.a2, s.y2);
  }

  lemma SafeIsNeeded(c: Coeff)
    requires forall s: State, x: int32 :: 0 <= s.residual < ONE ==> PartialsFit(c, s, x)
    ensures Safe(c)
  {
    var high := State(0, TopAt(c.b2), BottomAt(c.a1), BottomAt(c.a2), ONE - 1);
    var low := State(0, BottomAt(c.b2), TopAt(c.a1), TopAt(c.a2), 0);
    assert PartialsFit(c, high, TopAt(c.b0)) && PartialsFit(c, low, BottomAt(c.b0));
  }

  /** No step overflows, whatever the state and the input, exactly for safe coefficients.
      Every state counts: `resonant_i32_set_coeff` exchanges the coefficients and keeps
      the state, so `EveryStateIsReached` applies. */
  lemma {:induction false} SafeIsExact(c: Coeff)
    ensures Safe(c) <==> forall s: State, x: int32 :: 0 <= s.residual < ONE ==> PartialsFit(c, s, x)
  {
    if Safe(c) {
      forall s: State, x: int32 | 0 <= s.residual < ONE
        ensures PartialsFit(c, s, x)
      {
        SafeSuffices(c, s, x);
      }
    } else if forall s: State, x: int32 :: 0 <= s.residual < ONE ==> PartialsFit(c, s, x) {
      SafeIsNeeded(c);
    }
  }

  /** With a known history, one safe step reaches any output and any residual. */
  lemma OneStepSets(s: State, y: int32, r: int, x: int32)
    requires 0 <= r < ONE && s.x2 == ONE && s.y2 == -1 && s.residual == 0
    ensures var c := Coeff(0, y, 0, r);
            Safe(c) && Step(c, s, x) == State(x, s.x1, y, s.y1, r)
  {
    var c := Coeff(0, y, 0, r);
    assert Accumulate(c, s, x) == y * ONE + r;
  }

  /** Two safe steps from reset leave a known state. */
  lemma MarkIsReached()
    ensures var clear, mark := Coeff(0, 0, 0, 0), Coeff(-1, 0, 0, 0);
            && Safe(clear) && Safe(mark)
            && Step(mark, Step(clear, RESET, ONE), ONE) == State(ONE, ONE, -1, 0, 0)
  {
    assert Step(Coeff(0, 0, 0, 0), RESET, ONE) == State(ONE, 0, 0, 0, 0);
  }

  /** From there a third reaches that history with any output. */
  lemma HistoryIsReached(x: int32, y: int32)
    ensures var hold := Coeff(0, y, 0, 0);
            Safe(hold) && Step(hold, State(ONE, ONE, -1, 0, 0), x) == State(x, ONE, y, -1, 0)
  {
    assert Accumulate(Coeff(0, y, 0, 0), State(ONE, ONE, -1, 0, 0), x) == y * ONE;
  }

  /** Every state is reached from reset in four safe steps, the coefficients exchanged
      between them. */
  lemma EveryStateIsReached(s: State)
    requires 0 <= s.residual < ONE
    ensures var clear, mark, hold, last :=
              Coeff(0, 0, 0, 0), Coeff(-1, 0, 0, 0), Coeff(0, s.y2, 0, 0), Coeff(0, s.y1, 0, s.residual);
            && Safe(clear) && Safe(mark) && Safe(hold) && Safe(last)
            && s == Step(last, Step(hold, Step(mark, Step(clear, RESET, ONE), ONE), s.x2), s.x1)
  {
    MarkIsReached();
    HistoryIsReached(s.x2, s.y2);
    OneStepSets(State(s.x2, ONE, s.y2, -1, 0), s.y1, s.residual, s.x1);
  }

  /** The largest input coefficient that is safe beside a feedback coefficient. */
  function GainLimit(a1: int): nat
    requires Abs(a1) <= 2 * ONE
  {
    (0x8000_0000_0000_0000 - 0x1000_0000_0000_0000 - 0x2000_0000 + Bottom(a1)) / 0xffff_ffff
  }

  /** For the shape every design has, safety is exactly a bound on the input gain. */
  lemma ShapedIsSafe(c: Coeff)
    requires Shaped(c)
    ensures Safe(c) <==> Abs(c.b0) <= GainLimit(c.a1)
  {
    assert Top(c.b0) + Top(c.b2) == Abs(c.b0) * 0xffff_ffff == -(Bottom(c.b0) + Bottom(c.b2));
  }

  lemma DesignedIsSafe(c: Coeff)
    requires Designed(c)
    ensures Safe(c)
  {
    ShapedIsSafe(c);
  }

  // ----- The controller object -----

  class Controller {
    var coeff: Coeff
    var x1: int32
    var x2: int32
    var y1: int32
    var y2: int32
    var residual: int64

    ghost predicate Valid()
      reads this
    {
      0 <= residual as int < ONE
    }

    ghost function Value(): State
      reads this
    {
      State(x1, x2, y1, y2, residual as int)
    }

    constructor (coeff: Coeff)
      ensures Valid() && Value() == RESET && this.coeff == coeff
    {
      this.coeff := coeff;
      x1, x2, y1, y2, residual := 0, 0, 0, 0, 0;
    }

    method Reset()
      modifies this`x1, this`x2, this`y1, this`y2, this`residual
      ensures Valid() && Value() == RESET
    {
      x1, x2, y1, y2, residual := 0, 0, 0, 0, 0;
    }

    /** No 64-bit operation overflows. */
    method Sum(input: int32) returns (accumulator: int64)
      requires Valid() && Safe(coeff)
      ensures accumulator as int == Accumulate(coeff, Value(), input)
    {
      MulBound(coeff.b0, input, 0x8000_0000, 0x8000_0000);
      MulBound(coeff.b2, x2, 0x8000_0000, 0x8000_0000);
      MulBound(coeff.a1, y1, 0x8000_0000, 0x8000_0000);
      MulBound(coeff.a2, y2, 0x8000_0000, 0x8000_0000);
      SafeSuffices(coeff, Value(), input);
      accumulator :=
        (coeff.b0 as int64) * (input as int64) + (coeff.b2 as int64) * (x2 as int64)
        - (coeff.a1 as int64) * (y1 as int64) - (coeff.a2 as int64) * (y2 as int64) + residual;
    }

    method Cal(input: int32) returns (output: int32)
      requires Valid() && Safe(coeff)
      modifies this`x1, this`x2, this`y1, this`y2, this`residual
      ensures Valid()
      ensures Value() == Step(coeff, old(Value()), input) && output == y1
    {
      ResidualRange(coeff, Value(), input);
      var accumulator := Sum(input);
      var scaled: int64 := accumulator / 0x2000_0000;
      output := Saturate(scaled as int);
      if scaled == output as int64 {
        residual := accumulator - (output as int64) * 0x2000_0000;
      } else {
        residual := 0;
      }
      x2 := x1;
      x1 := input;
      y2 := y1;
      y1 := output;
    }
  }
}
