/**
  The coupled observer for harmonics 1, 3, 5, 7, 9 and DC (code/lib/msogi.c), over
  the reals.  All channels share one residual, solved so that it is the input minus
  every new estimate.
*/
module Msogi {

  import opened RealArith

  const CHANNELS: nat := 5

  function Order(n: nat): (r: real)
    ensures r >= 1.0
  {
    (2 * n + 1) as real
  }

  datatype Tuning = Tuning(
    tangent: seq<real>, decay: seq<real>, cross: seq<real>, gain: seq<real>, dcGain: real, divisor: real)

  datatype State = State(alpha: seq<real>, beta: seq<real>, dc: real, residual: real)

  // ----- Tuning -----

  function Denominator(t: real): (d: real)
    ensures d >= 1.0
  {
    SquareNonnegative(t);
    1.0 + t * t
  }

  function Decay(t: real): real {
    (1.0 - t * t) / Denominator(t)
  }

  function Cross(t: real): real {
    2.0 * t / Denominator(t)
  }

  function Gain(k: real, n: nat, t: real): real {
    (k / Order(n)) * t / Denominator(t)
  }

  function Sum(s: seq<real>, n: nat): real
    requires n <= |s|
  {
    if n == 0 then 0.0 else Sum(s, n - 1) + s[n - 1]
  }

  ghost predicate Sized(p: Tuning) {
    |p.tangent| == |p.decay| == |p.cross| == |p.gain| == CHANNELS
  }

  ghost predicate ChannelTuned(p: Tuning, k: real, n: nat)
    requires Sized(p) && n < CHANNELS
  {
    var t := p.tangent[n];
    t > 0.0 && p.decay[n] == Decay(t) && p.cross[n] == Cross(t) && p.gain[n] == Gain(k, n, t)
  }

  /** Coefficients produced for positive damping, frequency and tangents. */
  ghost predicate Tuned(p: Tuning, k: real) {
    && Sized(p) && k > 0.0 && p.dcGain > 0.0
    && (forall n :: 0 <= n < CHANNELS ==> ChannelTuned(p, k, n))
    && p.divisor == 1.0 + p.dcGain + Sum(p.gain, CHANNELS)
  }

  /** What the coefficients are, cleared of their denominators: the trapezoidal rule's
      rotation by twice the angle of `t`, and a gain that falls with the harmonic order. */
  lemma CoefficientsAre(k: real, n: nat, t: real)
    ensures (2 * n + 1) as real * Gain(k, n, t) * (1.0 + t * t) == k * t
    ensures Decay(t) * (1.0 + t * t) == 1.0 - t * t && Cross(t) * (1.0 + t * t) == 2.0 * t
  {
    var o, d := (2 * n + 1) as real, 1.0 + t * t;
    SquareNonnegative(t);
    assert Gain(k, n, t) * d == (k / o) * t;
    Clear(o, Gain(k, n, t), d, k / o, t);
    assert o * (k / o) == k;
  }

  lemma Clear(o: real, g: real, d: real, q: real, t: real)
    requires g * d == q * t
    ensures o * g * d == o * q * t
  {
  }

  lemma GainPositive(k: real, n: nat, t: real)
    requires k > 0.0 && t > 0.0
    ensures Gain(k, n, t) > 0.0
  {
    QuotientPositive(k, Order(n));
    ProductPositive(k / Order(n), t);
    QuotientPositive((k / Order(n)) * t, Denominator(t));
  }

  lemma {:induction false} GainsPositive(p: Tuning, k: real, n: nat)
    requires Sized(p) && k > 0.0 && n <= CHANNELS
    requires forall i :: 0 <= i < CHANNELS ==> ChannelTuned(p, k, i)
    ensures Sum(p.gain, n) >= 0.0
  {
    if n > 0 {
      GainsPositive(p, k, n - 1);
      assert ChannelTuned(p, k, n - 1);
      GainPositive(k, n - 1, p.tangent[n - 1]);
    }
  }

  /** The residual equation always has a solution. */
  lemma DivisorPositive(p: Tuning, k: real)
    requires Tuned(p, k)
    ensures p.divisor > 1.0
  {
    GainsPositive(p, k, CHANNELS);
  }

  // ----- One sample -----

  ghost predicate WellFormed(s: State) {
    |s.alpha| == |s.beta| == CHANNELS
  }

  // The three updates of the source, on plain numbers.

  function Evolved(decay: real, alpha: real, cross: real, beta: real, gain: real, residual: real): real {
    decay * alpha - cross * beta + gain * residual
  }

  function Injecting(base: real, gain: real, r: real): real {
    base + gain * r
  }

  function Integrated(state: real, rate: real, new': real, old': real): real {
    state + rate * (new' + old')
  }

  /** A channel's evolution before the new residual is injected. */
  function Base(p: Tuning, s: State, n: nat): real
    requires Sized(p) && WellFormed(s) && n < CHANNELS
  {
    Evolved(p.decay[n], s.alpha[n], p.cross[n], s.beta[n], p.gain[n], s.residual)
  }

  function Bases(p: Tuning, s: State): (r: seq<real>)
    requires Sized(p) && WellFormed(s)
    ensures |r| == CHANNELS
  {
    seq(CHANNELS, n requires 0 <= n < CHANNELS => Base(p, s, n))
  }

  function NewResidual(p: Tuning, s: State, u: real): real
    requires Sized(p) && WellFormed(s) && p.divisor > 0.0
  {
    (u - (s.dc + p.dcGain * s.residual + Sum(Bases(p, s), CHANNELS))) / p.divisor
  }

  function NewAlpha(p: Tuning, s: State, r: real, n: nat): real
    requires Sized(p) && WellFormed(s) && n < CHANNELS
  {
    Injecting(Base(p, s, n), p.gain[n], r)
  }

  function NewBeta(p: Tuning, s: State, r: real, n: nat): real
    requires Sized(p) && WellFormed(s) && n < CHANNELS
  {
    Integrated(s.beta[n], p.tangent[n], NewAlpha(p, s, r, n), s.alpha[n])
  }

  function Alphas(p: Tuning, s: State, r: real): (a: seq<real>)
    requires Sized(p) && WellFormed(s)
    ensures |a| == CHANNELS
  {
    seq(CHANNELS, n requires 0 <= n < CHANNELS => NewAlpha(p, s, r, n))
  }

  function Betas(p: Tuning, s: State, r: real): (b: seq<real>)
    requires Sized(p) && WellFormed(s)
    ensures |b| == CHANNELS
  {
    seq(CHANNELS, n requires 0 <= n < CHANNELS => NewBeta(p, s, r, n))
  }

  function Sampled(p: Tuning, s: State, u: real): (t: State)
    requires Sized(p) && WellFormed(s) && p.divisor > 0.0
    ensures WellFormed(t)
  {
    var r := NewResidual(p, s, u);
    State(Alphas(p, s, r), Betas(p, s, r), Integrated(s.dc, p.dcGain, r, s.residual), r)
  }

  /** `Sampled` behind three empty recursive steps: more than the verifier unfolds on
      its own, so proofs about runs see a step as an atom. */
  function FoldedStep(p: Tuning, s: State, u: real, folds: nat): (t: State)
    requires Sized(p) && WellFormed(s) && p.divisor > 0.0
    ensures WellFormed(t)
    decreases folds, u
  {
    if folds == 0 then Sampled(p, s, u) else FoldedStep(p, s, u, folds - 1)
  }

  function Step(p: Tuning, s: State, u: real): (t: State)
    requires Sized(p) && WellFormed(s) && p.divisor > 0.0
    ensures WellFormed(t)
  {
    FoldedStep(p, s, u, 3)
  }

  lemma StepIsSampled(p: Tuning, s: State, u: real)
    requires Sized(p) && WellFormed(s) && p.divisor > 0.0
    ensures Step(p, s, u) == Sampled(p, s, u)
  {
    assert FoldedStep(p, s, u, 1) == Sampled(p, s, u);
    assert FoldedStep(p, s, u, 2) == FoldedStep(p, s, u, 1);
  }

  // ----- The residual -----

  /** The stored residual is the last input minus all channel estimates and DC. */
  ghost predicate Balanced(s: State, u: real)
    requires WellFormed(s)
  {
    s.residual == u - Sum(s.alpha, CHANNELS) - s.dc
  }

  lemma {:induction false} AlphaSum(p: Tuning, s: State, r: real, alpha: seq<real>, n: nat)
    requires Sized(p) && WellFormed(s) && |alpha| == CHANNELS && n <= CHANNELS
    requires forall i :: 0 <= i < CHANNELS ==> alpha[i] == Bases(p, s)[i] + p.gain[i] * r
    ensures Sum(alpha, n) == Sum(Bases(p, s), n) + r * Sum(p.gain, n)
  {
    if n > 0 {
      AlphaSum(p, s, r, alpha, n - 1);
      Distribute(r, Sum(p.gain, n - 1), p.gain[n - 1]);
    }
  }

  lemma SolveResidual(u: real, dc: real, dcGain: real, old': real, bases: real, gains: real, r: real, divisor: real)
    requires divisor == 1.0 + dcGain + gains && r * divisor == u - (dc + dcGain * old' + bases)
    ensures r == u - (bases + r * gains) - (dc + dcGain * (r + old'))
  {
    Distribute(r, 1.0 + dcGain, gains);
    Distribute(r, 1.0, dcGain);
    Distribute(dcGain, r, old');
  }

  /** Whatever the state before, one sample leaves the residual exact. */
  lemma StepBalances(p: Tuning, s: State, u: real)
    requires Sized(p) && WellFormed(s) && p.divisor > 0.0
    requires p.divisor == 1.0 + p.dcGain + Sum(p.gain, CHANNELS)
    ensures Balanced(Step(p, s, u), u)
  {
    StepIsSampled(p, s, u);
    var r := NewResidual(p, s, u);
    AlphaSum(p, s, r, Step(p, s, u).alpha, CHANNELS);
    SolveResidual(u, s.dc, p.dcGain, s.residual, Sum(Bases(p, s), CHANNELS), Sum(p.gain, CHANNELS), r, p.divisor);
  }

  // ----- Energy -----

  function Weight(k: real, n: nat, t: real): real
    requires k > 0.0 && t > 0.0
  {
    ProductPositive(k, t);
    Order(n) / (k * t)
  }

  function ChannelEnergy(a: real, b: real): (e: real)
    ensures e >= 0.0
  {
    a * a + b * b
  }

  /** The weighted energies of the channels. */
  ghost function Terms(p: Tuning, k: real, s: State): (r: seq<real>)
    requires Tuned(p, k) && WellFormed(s)
    ensures |r| == CHANNELS
  {
    seq(CHANNELS, n requires 0 <= n < CHANNELS =>
      assert ChannelTuned(p, k, n);
      Weight(k, n, p.tangent[n]) * ChannelEnergy(s.alpha[n], s.beta[n]))
  }

  ghost function TotalEnergy(p: Tuning, k: real, s: State): real
    requires Tuned(p, k) && WellFormed(s)
  {
    Sum(Terms(p, k, s), CHANNELS) + s.dc * s.dc / p.dcGain
  }

  /** The total energy, folded like `Step`. */
  ghost function FoldedEnergy(p: Tuning, k: real, s: State, folds: nat): real
    requires Tuned(p, k) && WellFormed(s)
    decreases folds, k
  {
    if folds == 0 then TotalEnergy(p, k, s) else FoldedEnergy(p, k, s, folds - 1)
  }

  ghost function Energy(p: Tuning, k: real, s: State): real
    requires Tuned(p, k) && WellFormed(s)
  {
    FoldedEnergy(p, k, s, 3)
  }

  lemma EnergyIsTotal(p: Tuning, k: real, s: State)
    requires Tuned(p, k) && WellFormed(s)
    ensures Energy(p, k, s) == TotalEnergy(p, k, s)
  {
    assert FoldedEnergy(p, k, s, 1) == TotalEnergy(p, k, s);
    assert FoldedEnergy(p, k, s, 2) == FoldedEnergy(p, k, s, 1);
  }

  lemma WeightPositive(k: real, n: nat, t: real)
    requires k > 0.0 && t > 0.0
    ensures Weight(k, n, t) > 0.0
  {
    ProductPositive(k, t);
    QuotientPositive(Order(n), k * t);
  }

  lemma {:induction false} EnergiesNonnegative(p: Tuning, k: real, s: State, n: nat)
    requires Tuned(p, k) && WellFormed(s) && n <= CHANNELS
    ensures Sum(Terms(p, k, s), n) >= 0.0
  {
    if n > 0 {
      EnergiesNonnegative(p, k, s, n - 1);
      assert ChannelTuned(p, k, n - 1);
      WeightPositive(k, n - 1, p.tangent[n - 1]);
      ProductNonnegative(Weight(k, n - 1, p.tangent[n - 1]), ChannelEnergy(s.alpha[n - 1], s.beta[n - 1]));
    }
  }

  lemma QuotientNonnegative(a: real, b: real)
    requires a >= 0.0 && b > 0.0
    ensures a / b >= 0.0
  {
    if a > 0.0 {
      QuotientPositive(a, b);
    }
  }

  lemma EnergyNonnegative(p: Tuning, k: real, s: State)
    requires Tuned(p, k) && WellFormed(s)
    ensures Energy(p, k, s) >= 0.0
  {
    EnergyIsTotal(p, k, s);
    EnergiesNonnegative(p, k, s, CHANNELS);
    SquareNonnegative(s.dc);
    QuotientNonnegative(s.dc * s.dc, p.dcGain);
  }

  /** The channel update is the trapezoidal rule: both states move by the tangent
      times the mean of the other, plus the injected residuals. */
  lemma Trapezoid(t: real, g: real, a: real, b: real, q: real, a': real)
    requires Denominator(t) * a' == (1.0 - t * t) * a - 2.0 * t * b + g * t * q
    ensures a' - a == g * t * q - t * (b + (b + t * (a' + a)))
  {
    calc {
      t * (b + (b + t * (a' + a)));
      { Distribute(t, b, b + t * (a' + a)); Distribute(t, b, t * (a' + a)); }
      2.0 * t * b + t * (t * (a' + a));
      2.0 * t * b + t * t * (a' + a);
      { Distribute(t * t, a', a); }
      2.0 * t * b + t * t * a' + t * t * a;
    }
    assert Denominator(t) * a' == a' + t * t * a';
    assert (1.0 - t * t) * a == a - t * t * a;
  }

  lemma DifferenceOfSquares(x: real, y: real)
    ensures y * y - x * x == (y + x) * (y - x)
  {
  }

  /** A lossless rotation plus injected power. */
  lemma ChannelPower(t: real, g: real, a: real, b: real, q: real, a': real, b': real)
    requires Denominator(t) * a' == (1.0 - t * t) * a - 2.0 * t * b + g * t * q
    requires b' == b + t * (a' + a)
    ensures ChannelEnergy(a', b') - ChannelEnergy(a, b) == (a' + a) * (g * t * q)
  {
    Trapezoid(t, g, a, b, q, a');
    DifferenceOfSquares(a, a');
    DifferenceOfSquares(b, b');
    var sa, sb := a' + a, b' + b;
    assert a' - a == g * t * q - t * sb;
    assert b' - b == t * sa;
    Distribute(sa, g * t * q, -(t * sb));
    assert sa * -(t * sb) == -(sb * (t * sa));
  }

  /** The weight cancels the channel's gain. */
  lemma WeightCancels(k: real, n: nat, t: real)
    requires k > 0.0 && t > 0.0
    ensures Weight(k, n, t) * (k / Order(n) * t) == 1.0
  {
    ProductPositive(k, t);
    var o, w := Order(n), Weight(k, n, t);
    var g := k / o;
    assert g * o == k;
    assert w * (k * t) == o;
    assert g * t * o == k * t by { Swap(g, t, o); }
    assert w * (g * t) * o == w * (g * t * o) by { Associate(w, g * t, o); }
    CancelFactor(w * (g * t), o);
  }

  lemma WeightedPower(k: real, n: nat, t: real, s: real, q: real)
    requires k > 0.0 && t > 0.0
    ensures Weight(k, n, t) * (s * (k / Order(n) * t * q)) == s * q
  {
    var w, h := Weight(k, n, t), k / Order(n) * t;
    WeightCancels(k, n, t);
    calc {
      w * (s * (h * q));
      { Associate(s, h, q); Swap(s, h, q); }
      w * (h * (s * q));
      { Associate(w, h, s * q); }
      w * h * (s * q);
    }
  }

  lemma Associate(a: real, b: real, c: real)
    ensures a * b * c == a * (b * c)
  {
  }

  lemma Swap(a: real, b: real, c: real)
    ensures a * b * c == a * c * b && a * (b * c) == b * (a * c)
  {
  }

  lemma CancelFactor(x: real, o: real)
    requires o >= 1.0 && x * o == o
    ensures x == 1.0
  {
    if x > 1.0 {
      ProductPositive(x - 1.0, o);
    }
    if x < 1.0 {
      ProductPositive(1.0 - x, o);
    }
  }

  // ----- The energy of one step -----

  /** Clearing the divisor of a tuned channel. */
  lemma ClearDivisor(k: real, n: nat, t: real, a: real, b: real, r: real, r': real, a': real)
    requires a' == Decay(t) * a - Cross(t) * b + Gain(k, n, t) * r + Gain(k, n, t) * r'
    ensures Denominator(t) * a' == (1.0 - t * t) * a - 2.0 * t * b + k / Order(n) * t * (r + r')
  {
    var d := Denominator(t);
    Distribute(Gain(k, n, t), r, r');
    var x, y, z := Decay(t) * a, Cross(t) * b, Gain(k, n, t) * (r + r');
    Distribute(d, x - y, z);
    Distribute(d, x, -y);
    assert d * Decay(t) == 1.0 - t * t && d * Cross(t) == 2.0 * t && d * Gain(k, n, t) == k / Order(n) * t;
    Associate(d, Decay(t), a);
    Associate(d, Cross(t), b);
    Associate(d, Gain(k, n, t), r + r');
  }

  ghost function Injected(s: State, t: State): real {
    s.residual + t.residual
  }

  /** The weighted energy change of one tuned channel. */
  lemma ChannelGain(k: real, n: nat, h: real, a: real, b: real, r: real, r': real, a': real, b': real)
    requires k > 0.0 && h > 0.0
    requires a' == Decay(h) * a - Cross(h) * b + Gain(k, n, h) * r + Gain(k, n, h) * r'
    requires b' == b + h * (a' + a)
    ensures Weight(k, n, h) * ChannelEnergy(a', b')
         == Weight(k, n, h) * ChannelEnergy(a, b) + (a' + a) * (r + r')
  {
    ClearDivisor(k, n, h, a, b, r, r', a');
    ChannelPower(h, k / Order(n), a, b, r + r', a', b');
    Distribute(Weight(k, n, h), ChannelEnergy(a', b') - ChannelEnergy(a, b), ChannelEnergy(a, b));
    WeightedPower(k, n, h, a' + a, r + r');
  }

  /** The new values of one channel. */
  lemma TunedChannel(p: Tuning, k: real, s: State, r: real, n: nat)
    requires Tuned(p, k) && WellFormed(s) && n < CHANNELS
    ensures var h := p.tangent[n];
            && h > 0.0
            && NewBeta(p, s, r, n) == Integrated(s.beta[n], h, NewAlpha(p, s, r, n), s.alpha[n])
            && NewAlpha(p, s, r, n) == Injecting(Evolved(Decay(h), s.alpha[n], Cross(h), s.beta[n], Gain(k, n, h),
                                                         s.residual), Gain(k, n, h), r)
  {
    assert ChannelTuned(p, k, n);
  }

  lemma StepChannel(p: Tuning, k: real, s: State, u: real, n: nat)
    requires Tuned(p, k) && p.divisor > 0.0 && WellFormed(s) && n < CHANNELS
    ensures var t, h := Step(p, s, u), p.tangent[n];
            && h > 0.0 && t.beta[n] == s.beta[n] + h * (t.alpha[n] + s.alpha[n])
            && t.alpha[n] == Decay(h) * s.alpha[n] - Cross(h) * s.beta[n]
                           + Gain(k, n, h) * s.residual + Gain(k, n, h) * t.residual
  {
    StepIsSampled(p, s, u);
    TunedChannel(p, k, s, Step(p, s, u).residual, n);
  }

  lemma TermStep(p: Tuning, k: real, s: State, u: real, n: nat)
    requires Tuned(p, k) && p.divisor > 0.0 && WellFormed(s) && n < CHANNELS
    ensures var t := Step(p, s, u);
            Terms(p, k, t)[n] == Terms(p, k, s)[n] + (t.alpha[n] + s.alpha[n]) * Injected(s, t)
  {
    var t, h := Step(p, s, u), p.tangent[n];
    StepChannel(p, k, s, u, n);
    ChannelGain(k, n, h, s.alpha[n], s.beta[n], s.residual, t.residual, t.alpha[n], t.beta[n]);
  }

  lemma {:induction false} SumShift(x: seq<real>, y: seq<real>, a: seq<real>, b: seq<real>, q: real, n: nat)
    requires n <= |x| == |y| == |a| == |b|
    requires forall i :: 0 <= i < |x| ==> y[i] == x[i] + (a[i] + b[i]) * q
    ensures Sum(y, n) == Sum(x, n) + (Sum(a, n) + Sum(b, n)) * q
  {
    if n > 0 {
      SumShift(x, y, a, b, q, n - 1);
      Distribute(q, Sum(a, n - 1) + Sum(b, n - 1), a[n - 1] + b[n - 1]);
    }
  }

  lemma ChannelsStep(p: Tuning, k: real, s: State, u: real)
    requires Tuned(p, k) && p.divisor > 0.0 && WellFormed(s)
    ensures var t := Step(p, s, u);
            Sum(Terms(p, k, t), CHANNELS)
            == Sum(Terms(p, k, s), CHANNELS) + (Sum(t.alpha, CHANNELS) + Sum(s.alpha, CHANNELS)) * Injected(s, t)
  {
    var t := Step(p, s, u);
    forall i | 0 <= i < CHANNELS
      ensures Terms(p, k, t)[i] == Terms(p, k, s)[i] + (t.alpha[i] + s.alpha[i]) * Injected(s, t)
    {
      TermStep(p, k, s, u, i);
    }
    SumShift(Terms(p, k, s), Terms(p, k, t), t.alpha, s.alpha, Injected(s, t), CHANNELS);
  }

  lemma DcStep(dc: real, dcGain: real, q: real)
    requires dcGain > 0.0
    ensures (dc + dcGain * q) * (dc + dcGain * q) / dcGain == dc * dc / dcGain + (dc + dcGain * q + dc) * q
  {
    var e := dc + dcGain * q;
    DifferenceOfSquares(dc, e);
    assert e * e == dc * dc + (e + dc) * (dcGain * q);
    Associate(e + dc, dcGain, q);
    Swap(e + dc, dcGain, q);
    assert e * e == dc * dc + (e + dc) * q * dcGain;
    assert (dc * dc + (e + dc) * q * dcGain) / dcGain == dc * dc / dcGain + (e + dc) * q;
  }

  /** The power balance: one sample changes the energy by the injected residuals
      times what the inputs exceed them by. */
  lemma EnergyStep(p: Tuning, k: real, s: State, u0: real, u: real)
    requires Tuned(p, k) && p.divisor > 0.0 && WellFormed(s) && Balanced(s, u0)
    ensures var t := Step(p, s, u);
            var q := Injected(s, t);
            Energy(p, k, t) - Energy(p, k, s) == q * ((u0 + u) - q)
  {
    var t := Step(p, s, u);
    var q := Injected(s, t);
    StepIsSampled(p, s, u);
    EnergyIsTotal(p, k, s);
    EnergyIsTotal(p, k, t);
    StepBalances(p, s, u);
    ChannelsStep(p, k, s, u);
    DcStep(s.dc, p.dcGain, q);
    Distribute(q, Sum(t.alpha, CHANNELS) + Sum(s.alpha, CHANNELS), t.dc + s.dc);
  }

  // ----- Runs at a fixed frequency -----

  function Run(p: Tuning, s: State, us: seq<real>): (t: State)
    requires Sized(p) && WellFormed(s) && p.divisor > 0.0
    ensures WellFormed(t)
  {
    if us == [] then s else Step(p, Run(p, s, us[..|us| - 1]), us[|us| - 1])
  }

  function LastInput(u0: real, us: seq<real>): real {
    if us == [] then u0 else us[|us| - 1]
  }

  /** The energy of the mean of two successive inputs. */
  function MeanSquare(u0: real, u: real): real {
    (u0 + u) / 2.0 * ((u0 + u) / 2.0)
  }

  /** The energy a run is given: the squares of the mean successive inputs. */
  function Supplied(u0: real, us: seq<real>): real {
    if us == [] then 0.0
    else Supplied(u0, us[..|us| - 1]) + MeanSquare(LastInput(u0, us[..|us| - 1]), us[|us| - 1])
  }

  lemma PowerBound(q: real, v: real)
    ensures q * (v - q) <= v / 2.0 * (v / 2.0)
  {
    SquareNonnegative(v / 2.0 - q);
    assert (v / 2.0 - q) * (v / 2.0 - q) == v / 2.0 * (v / 2.0) - q * (v - q);
  }

  lemma StepEnergyBound(p: Tuning, k: real, s: State, u0: real, u: real)
    requires Tuned(p, k) && p.divisor > 0.0 && WellFormed(s) && Balanced(s, u0)
    ensures Balanced(Step(p, s, u), u)
    ensures Energy(p, k, Step(p, s, u)) <= Energy(p, k, s) + MeanSquare(u0, u)
  {
    EnergyStep(p, k, s, u0, u);
    StepBalances(p, s, u);
    PowerBound(Injected(s, Step(p, s, u)), u0 + u);
  }

  /** Over every run the residual stays exact and the energy grows by no more than
      the input supplies, for every tuning and from every state with an exact residual. */
  lemma {:induction false} RunEnergy(p: Tuning, k: real, s: State, u0: real, us: seq<real>)
    requires Tuned(p, k) && p.divisor > 0.0 && WellFormed(s) && Balanced(s, u0)
    ensures Balanced(Run(p, s, us), LastInput(u0, us))
    ensures Energy(p, k, Run(p, s, us)) <= Energy(p, k, s) + Supplied(u0, us)
  {
    if us != [] {
      var before := us[..|us| - 1];
      RunEnergy(p, k, s, u0, before);
      StepEnergyBound(p, k, Run(p, s, before), LastInput(u0, before), us[|us| - 1]);
    }
  }

  ghost predicate AllZero(us: seq<real>) {
    forall i :: 0 <= i < |us| ==> us[i] == 0.0
  }

  lemma {:induction false} ZeroSupplies(us: seq<real>)
    requires AllZero(us)
    ensures Supplied(0.0, us) == 0.0 && LastInput(0.0, us) == 0.0
  {
    if us != [] {
      ZeroSupplies(us[..|us| - 1]);
    }
  }

  /** Left to itself the observer never gains energy, for any length of run. */
  lemma ZeroInputDecays(p: Tuning, k: real, s: State, us: seq<real>)
    requires Tuned(p, k) && p.divisor > 0.0 && WellFormed(s) && Balanced(s, 0.0) && AllZero(us)
    ensures 0.0 <= Energy(p, k, Run(p, s, us)) <= Energy(p, k, s)
  {
    ZeroSupplies(us);
    RunEnergy(p, k, s, 0.0, us);
    EnergyNonnegative(p, k, Run(p, s, us));
  }

  /** With zero input a step loses exactly the square of the injected residuals. */
  lemma ZeroInputLoss(p: Tuning, k: real, s: State)
    requires Tuned(p, k) && p.divisor > 0.0 && WellFormed(s) && Balanced(s, 0.0)
    ensures var q := Injected(s, Step(p, s, 0.0));
            Energy(p, k, s) - Energy(p, k, Step(p, s, 0.0)) == q * q >= 0.0
  {
    var q := Injected(s, Step(p, s, 0.0));
    EnergyStep(p, k, s, 0.0, 0.0);
    SquareNonnegative(q);
  }

  // ----- The observer object -----

  class Observer {
    const alpha: array<real>
    const beta: array<real>
    const tangent: array<real>
    const decay: array<real>
    const cross: array<real>
    const gain: array<real>
    var dc: real
    var dcGain: real
    var residual: real
    var divisor: real
    const ts: real
    const k: real

    ghost predicate Valid() {
      && alpha.Length == beta.Length == tangent.Length == decay.Length == cross.Length == gain.Length == CHANNELS
      && alpha != beta && alpha != tangent && alpha != decay && alpha != cross && alpha != gain
      && beta != tangent && beta != decay && beta != cross && beta != gain
      && tangent != decay && tangent != cross && tangent != gain && decay != cross && decay != gain && cross != gain
    }

    constructor (ts: real, k: real)
      ensures Valid() && Value() == State(seq(CHANNELS, _ => 0.0), seq(CHANNELS, _ => 0.0), 0.0, 0.0)
      ensures this.ts == ts && this.k == k && Balanced(Value(), 0.0)
    {
      this.ts, this.k := ts, k;
      alpha := new real[CHANNELS](_ => 0.0);
      beta := new real[CHANNELS](_ => 0.0);
      tangent := new real[CHANNELS](_ => 0.0);
      decay := new real[CHANNELS](_ => 0.0);
      cross := new real[CHANNELS](_ => 0.0);
      gain := new real[CHANNELS](_ => 0.0);
      dc, dcGain, residual, divisor := 0.0, 0.0, 0.0, 0.0;
      new;
      SumOfZeros(alpha[..], CHANNELS);
    }

    ghost function Coefficients(): Tuning
      reads this, tangent, decay, cross, gain
    {
      Tuning(tangent[..], decay[..], cross[..], gain[..], dcGain, divisor)
    }

    ghost function Value(): State
      reads this, alpha, beta
    {
      State(alpha[..], beta[..], dc, residual)
    }

    method TuneChannel(n: nat, t: real)
      requires Valid() && n < CHANNELS
      modifies this`divisor, tangent, decay, cross, gain
      ensures tangent[..] == old(tangent[..])[n := t]
      ensures decay[..] == old(decay[..])[n := Decay(t)]
      ensures cross[..] == old(cross[..])[n := Cross(t)]
      ensures gain[..] == old(gain[..])[n := Gain(k, n, t)]
      ensures divisor == old(divisor) + Gain(k, n, t)
    {
      var denominator := 1.0 + t * t;
      tangent[n] := t;
      decay[n] := (1.0 - t * t) / denominator;
      cross[n] := 2.0 * t / denominator;
      gain[n] := (k / Order(n)) * t / denominator;
      divisor := divisor + gain[n];
    }

    ghost predicate TunedBelow(tangents: seq<real>, n: nat)
      requires Valid() && |tangents| == CHANNELS && n <= CHANNELS
      reads this, tangent, decay, cross, gain
    {
      forall i :: 0 <= i < n ==>
        && tangent[i] == tangents[i] && decay[i] == Decay(tangents[i]) && cross[i] == Cross(tangents[i])
        && gain[i] == Gain(k, i, tangents[i])
    }

    /** Retune from prewarped tangents; the dynamic state is kept. */
    method Retune(omega: real, tangents: seq<real>)
      requires Valid() && |tangents| == CHANNELS
      modifies this`dcGain, this`divisor, tangent, decay, cross, gain
      ensures Value() == old(Value()) && tangent[..] == tangents && dcGain == 0.05 * omega * ts
      ensures TunedBelow(tangents, CHANNELS) && divisor == 1.0 + dcGain + Sum(gain[..], CHANNELS)
    {
      dcGain := 0.05 * omega * ts;
      divisor := 1.0 + dcGain;
      for n := 0 to CHANNELS
        invariant dcGain == 0.05 * omega * ts && TunedBelow(tangents, n) && divisor == 1.0 + dcGain + Sum(gain[..], n)
      {
        ghost var was := gain[..];
        TuneChannel(n, tangents[n]);
        SumSame(was, gain[..], n);
      }
    }

    /** For a valid sub-Nyquist tuning the energy laws apply and the solve is defined. */
    lemma RetunedIsTuned(omega: real, tangents: seq<real>)
      requires Valid() && |tangents| == CHANNELS && TunedBelow(tangents, CHANNELS)
      requires k > 0.0 && ts > 0.0 && omega > 0.0 && forall n :: 0 <= n < CHANNELS ==> tangents[n] > 0.0
      requires dcGain == 0.05 * omega * ts && divisor == 1.0 + dcGain + Sum(gain[..], CHANNELS)
      ensures Tuned(Coefficients(), k) && divisor > 1.0
    {
      ProductPositive(0.05 * omega, ts);
      DivisorPositive(Coefficients(), k);
    }

    /** Solve the residual from the autonomous predictions. */
    method Predict(input: real, bases: array<real>) returns (r: real)
      requires Valid() && divisor > 0.0 && bases.Length == CHANNELS
      modifies bases
      requires bases !in {alpha, beta, tangent, decay, cross, gain}
      ensures bases[..] == Bases(Coefficients(), Value())
      ensures r == NewResidual(Coefficients(), Value(), input)
    {
      var sum := dc + dcGain * residual;
      ghost var p, s := Coefficients(), Value();
      for n := 0 to CHANNELS
        invariant forall i :: 0 <= i < n ==> bases[i] == Base(p, s, i)
        invariant sum == dc + dcGain * residual + Sum(Bases(p, s), n)
      {
        bases[n] := Evolved(decay[n], alpha[n], cross[n], beta[n], gain[n], residual);
        sum := sum + bases[n];
      }
      r := (input - sum) / divisor;
    }

    method UpdateChannels(bases: array<real>, r: real)
      requires Valid() && bases.Length == CHANNELS && bases[..] == Bases(Coefficients(), Value())
      requires bases !in {alpha, beta, tangent, decay, cross, gain}
      modifies alpha, beta
      ensures Coefficients() == old(Coefficients())
      ensures alpha[..] == Alphas(Coefficients(), old(Value()), r) && beta[..] == Betas(Coefficients(), old(Value()), r)
    {
      ghost var p, s := Coefficients(), Value();
      for n := 0 to CHANNELS
        invariant forall i :: 0 <= i < n ==> alpha[i] == NewAlpha(p, s, r, i) && beta[i] == NewBeta(p, s, r, i)
        invariant forall i :: n <= i < CHANNELS ==> alpha[i] == s.alpha[i] && beta[i] == s.beta[i]
      {
        var a := Injecting(bases[n], gain[n], r);
        beta[n] := Integrated(beta[n], tangent[n], a, alpha[n]);
        alpha[n] := a;
      }
    }

    /** One sample. */
    method Cal(input: real)
      requires Valid() && divisor > 0.0
      modifies this`dc, this`residual, alpha, beta
      ensures Value() == Step(Coefficients(), old(Value()), input)
    {
      ghost var p, s := Coefficients(), Value();
      var bases := new real[CHANNELS];
      var r := Predict(input, bases);
      StepIsSampled(p, s, input);
      UpdateChannels(bases, r);
      dc := Integrated(dc, dcGain, r, residual);
      residual := r;
      assert Value() == Sampled(p, s, input);
    }
  }

  lemma {:induction false} SumOfZeros(a: seq<real>, n: nat)
    requires n <= |a| && forall i :: 0 <= i < |a| ==> a[i] == 0.0
    ensures Sum(a, n) == 0.0
  {
    if n > 0 {
      SumOfZeros(a, n - 1);
    }
  }

  lemma {:induction false} SumSame(a: seq<real>, b: seq<real>, n: nat)
    requires n <= |a| && n <= |b| && forall i :: 0 <= i < n ==> a[i] == b[i]
    ensures Sum(a, n) == Sum(b, n)
  {
    if n > 0 {
      SumSame(a, b, n - 1);
    }
  }
}
