/**
  Sector arithmetic of the three-level modulator (code/lib/svpwm_3level.c), over the
  reals: limiting a reference, one phase-level mapping, and the search over mappings.
  Phase voltages are in units of the larger half bus.

  Limiting scales both components by one factor, so it keeps the direction.
*/
module SvpwmSector {

  import opened Machine
  import opened RealArith

  /** One value per phase. */
  datatype Phases = Phases(a: real, b: real, c: real)

  /** Eight units of single-precision epsilon, 2^-20, in max-half-bus units. */
  const ROUNDOFF: real := 0.00000095367431640625

  function Abs(x: real): (r: real)
    ensures r >= 0.0 && (r == x || r == -x)
  {
    if x < 0.0 then -x else x
  }

  function Max(a: real, b: real): real {
    if a < b then b else a
  }

  function Min(a: real, b: real): real {
    if b < a then b else a
  }

  function Max3(s: Phases): (r: real)
    ensures s.a <= r && s.b <= r && s.c <= r
    ensures r == s.a || r == s.b || r == s.c
  {
    Max(s.a, Max(s.b, s.c))
  }

  function Min3(s: Phases): (r: real)
    ensures r <= s.a && r <= s.b && r <= s.c
    ensures r == s.a || r == s.b || r == s.c
  {
    Min(s.a, Min(s.b, s.c))
  }

  function Span(s: Phases): (r: real)
    ensures r >= 0.0
  {
    Max3(s) - Min3(s)
  }

  // ----- Duties -----

  /** Fractions of one period at the positive rail, the midpoint and the negative rail. */
  datatype Duty = Duty(p: real, o: real, n: real)

  predicate ValidDuty(d: Duty) {
    && 0.0 <= d.p <= 1.0 && 0.0 <= d.o <= 1.0 && 0.0 <= d.n <= 1.0
    && d.p + d.o + d.n == 1.0 && (d.p == 0.0 || d.n == 0.0)
  }

  /** The mean pole voltage a duty produces. */
  function Pole(d: Duty, p: real, n: real): real {
    Mul(d.p, p) - Mul(d.n, n)
  }

  function Bound(v: real): (r: real)
    ensures 0.0 <= r <= 1.0 && (0.0 <= v <= 1.0 ==> r == v)
  {
    Min(1.0, Max(0.0, v))
  }

  /** Clipping a dwell loses no more voltage than the pole exceeds its range. */
  lemma BoundLoses(pole: real, bus: real, tol: real)
    requires bus > 0.0 && tol >= 0.0 && -tol <= pole <= bus + tol
    ensures Abs(Mul(Bound(pole / bus), bus) - pole) <= tol
    ensures 0.0 <= pole <= bus ==> Mul(Bound(pole / bus), bus) == pole && Bound(pole / bus) == pole / bus
  {
    var q := pole / bus;
    MulDivide(pole, bus);
    MulComm(q, bus);
    MulOrder(bus, q, 1.0);
    MulOrder(bus, 1.0, q);
    MulOrder(bus, 0.0, q);
    MulOrder(bus, q, 0.0);
    MulZero(bus);
    MulComm(bus, 1.0);
  }

  /** One phase of a mapping: a set bit uses the positive rail, a clear one the negative.
      Folded like a product, so that a vector of duties is one of atoms. */
  function FoldedDuty(high: bool, pole: real, p: real, n: real, folds: nat): Duty
    requires p > 0.0 && n > 0.0
    decreases folds, pole
  {
    if folds > 0 then FoldedDuty(high, pole, p, n, folds - 1)
    else if high then Duty(Bound(pole / p), 1.0 - Bound(pole / p), 0.0)
    else Duty(0.0, 1.0 - Bound(-pole / n), Bound(-pole / n))
  }

  function SectorDuty(high: bool, pole: real, p: real, n: real): Duty
    requires p > 0.0 && n > 0.0
  {
    FoldedDuty(high, pole, p, n, 3)
  }

  lemma SectorDutyIs(high: bool, pole: real, p: real, n: real)
    requires p > 0.0 && n > 0.0
    ensures SectorDuty(high, pole, p, n)
         == if high then Duty(Bound(pole / p), 1.0 - Bound(pole / p), 0.0)
            else Duty(0.0, 1.0 - Bound(-pole / n), Bound(-pole / n))
  {
    assert FoldedDuty(high, pole, p, n, 1) == FoldedDuty(high, pole, p, n, 0);
    assert FoldedDuty(high, pole, p, n, 2) == FoldedDuty(high, pole, p, n, 1);
  }

  lemma PositiveShare(q: real, p: real, n: real)
    requires 0.0 <= q <= 1.0
    ensures ValidDuty(Duty(q, 1.0 - q, 0.0)) && Pole(Duty(q, 1.0 - q, 0.0), p, n) == Mul(q, p)
  {
    MulZero(n);
  }

  lemma NegativeShare(q: real, p: real, n: real)
    requires 0.0 <= q <= 1.0
    ensures ValidDuty(Duty(0.0, 1.0 - q, q)) && Pole(Duty(0.0, 1.0 - q, q), p, n) == -Mul(q, n)
  {
    MulZero(p);
  }

  lemma SectorDutyRealizes(high: bool, pole: real, p: real, n: real, tol: real)
    requires p > 0.0 && n > 0.0 && tol >= 0.0
    requires if high then -tol <= pole <= p + tol else -n - tol <= pole <= tol
    ensures ValidDuty(SectorDuty(high, pole, p, n))
    ensures Abs(Pole(SectorDuty(high, pole, p, n), p, n) - pole) <= tol
  {
    SectorDutyIs(high, pole, p, n);
    if high {
      BoundLoses(pole, p, tol);
      PositiveShare(Bound(pole / p), p, n);
    } else {
      BoundLoses(-pole, n, tol);
      NegativeShare(Bound(-pole / n), p, n);
    }
  }

  /** The direct realization used at a boundary and by the averaged mode. */
  function DirectDuty(pole: real, p: real, n: real): Duty
    requires p > 0.0 && n > 0.0
  {
    var dp, dn := Bound(Max(0.0, pole / p)), Bound(Max(0.0, -pole / n));
    Duty(dp, 1.0 - dp - dn, dn)
  }

  lemma DirectDutyRealizes(pole: real, p: real, n: real)
    requires p > 0.0 && n > 0.0 && -n <= pole <= p
    ensures ValidDuty(DirectDuty(pole, p, n))
    ensures Pole(DirectDuty(pole, p, n), p, n) == pole
  {
    SignOfQuotient(pole, p);
    SignOfQuotient(-pole, n);
    MulZero(p);
    MulZero(n);
    if pole >= 0.0 {
      BoundLoses(pole, p, 0.0);
    } else {
      BoundLoses(-pole, n, 0.0);
    }
  }

  lemma SignOfQuotient(a: real, b: real)
    requires b > 0.0
    ensures a > 0.0 ==> a / b > 0.0
    ensures a == 0.0 ==> a / b == 0.0
    ensures a < 0.0 ==> a / b < 0.0
  {
    var q := a / b;
    assert q * b == a;
    if a > 0.0 && q <= 0.0 {
      ProductNonnegative(-q, b);
    }
    if a < 0.0 && q >= 0.0 {
      ProductNonnegative(q, b);
    }
  }

  // ----- Limiting the reference -----

  /** The inverse Clarke transform; 0.866... is half the square root of three. */
  function InvClarke(alpha: real, beta: real): (s: Phases)
    ensures s.a + s.b + s.c == 0.0
  {
    Phases(alpha, -0.5 * alpha + 0.8660254037844386 * beta, -0.5 * alpha - 0.8660254037844386 * beta)
  }

  function Scale(f: real, s: Phases): Phases {
    Phases(Mul(f, s.a), Mul(f, s.b), Mul(f, s.c))
  }

  lemma SpanOfEqual(s: Phases)
    ensures Span(s) > 0.0 <==> s.a != s.b || s.b != s.c
  {
  }

  lemma SpanPositive(alpha: real, beta: real)
    ensures Span(InvClarke(alpha, beta)) > 0.0 <==> alpha != 0.0 || beta != 0.0
  {
    var s := InvClarke(alpha, beta);
    SpanOfEqual(s);
    assert s.b - s.c == 2.0 * 0.8660254037844386 * beta && 2.0 * s.a - s.b - s.c == 3.0 * alpha;
  }

  lemma MulLinear(f: real, x: real, y: real)
    ensures Mul(f, -0.5 * x + 0.8660254037844386 * y) == -0.5 * Mul(f, x) + 0.8660254037844386 * Mul(f, y)
    ensures Mul(f, -0.5 * x - 0.8660254037844386 * y) == -0.5 * Mul(f, x) - 0.8660254037844386 * Mul(f, y)
  {
    MulIs(f, x);
    MulIs(f, y);
    MulIs(f, -0.5 * x);
    MulIs(f, 0.8660254037844386 * y);
    MulAdd(f, -0.5 * x, 0.8660254037844386 * y);
  }

  lemma ScaleClarke(f: real, alpha: real, beta: real)
    ensures Scale(f, InvClarke(alpha, beta)) == InvClarke(Mul(f, alpha), Mul(f, beta))
  {
    MulLinear(f, alpha, beta);
  }

  lemma ScaleTwice(a: real, b: real, s: Phases)
    ensures Scale(a, Scale(b, s)) == Scale(Mul(a, b), s)
  {
    MulAssoc(a, b, s.a);
    MulAssoc(a, b, s.b);
    MulAssoc(a, b, s.c);
  }

  /** The three phases are the request seen from three axes a third of a turn apart: the
      forward transform gives it back, with the square root of three to nine digits. */
  lemma ForwardClarke(alpha: real, beta: real)
    ensures var s := InvClarke(alpha, beta);
            && 2.0 * s.a - s.b - s.c == 3.0 * alpha
            && s.b - s.c == 1.7320508075688772 * beta
    ensures 1.7320508075688772 * 1.7320508075688772 - 3.0 < 0.000000001
    ensures 3.0 - 1.7320508075688772 * 1.7320508075688772 < 0.000000001
  {
  }

  lemma ScaleSpan(f: real, s: Phases)
    requires f > 0.0
    ensures Span(Scale(f, s)) == Mul(f, Span(s))
  {
    MulOrder(f, s.a, s.b);
    MulOrder(f, s.b, s.a);
    MulOrder(f, s.b, s.c);
    MulOrder(f, s.c, s.b);
    MulOrder(f, s.a, s.c);
    MulOrder(f, s.c, s.a);
    MulAdd(f, Max3(s), Min3(s));
  }

  lemma ZeroSum(c: real, s: Phases)
    requires c > 0.0
    ensures s.a + s.b + s.c == 0.0 <==> Scale(c, s).a + Scale(c, s).b + Scale(c, s).c == 0.0
  {
    MulAdd(c, s.a, s.b);
    MulAdd(c, s.a + s.b, s.c);
    MulPositive(c, s.a + s.b + s.c);
  }

  /** The phases of the request scaled to magnitude one; folded like a product. */
  function FoldedUnit(alpha: real, beta: real, m: real, folds: nat): Phases
    requires m > 0.0
    decreases folds, alpha
  {
    if folds == 0 then InvClarke(alpha / m, beta / m) else FoldedUnit(alpha, beta, m, folds - 1)
  }

  function Unit(alpha: real, beta: real, m: real): Phases
    requires m > 0.0
  {
    FoldedUnit(alpha, beta, m, 3)
  }

  lemma UnitIs(alpha: real, beta: real, m: real)
    requires m > 0.0
    ensures Unit(alpha, beta, m) == InvClarke(alpha / m, beta / m)
  {
    assert FoldedUnit(alpha, beta, m, 1) == FoldedUnit(alpha, beta, m, 0);
    assert FoldedUnit(alpha, beta, m, 2) == FoldedUnit(alpha, beta, m, 1);
  }

  lemma UnitNonzero(alpha: real, beta: real, m: real)
    requires m > 0.0 && (alpha != 0.0 || beta != 0.0)
    ensures Span(Unit(alpha, beta, m)) > 0.0
  {
    UnitIs(alpha, beta, m);
    SignOfQuotient(alpha, m);
    SignOfQuotient(beta, m);
    SpanPositive(alpha / m, beta / m);
  }

  /** The limited phase references in units of `scale`, as the source computes them. */
  function LimitStep(alpha: real, beta: real, vp: real, vn: real, scale: real): Phases
    requires vp > 0.0 && vn > 0.0 && scale > 0.0
  {
    var m := Max(Abs(alpha), Abs(beta));
    if m == 0.0 then Phases(0.0, 0.0, 0.0)
    else
      UnitNonzero(alpha, beta, m);
      var unit := Unit(alpha, beta, m);
      Scale(Min(m / scale, (vp / scale + vn / scale) / Span(unit)), unit)
  }

  function FoldedLimit(alpha: real, beta: real, vp: real, vn: real, scale: real, folds: nat): Phases
    requires vp > 0.0 && vn > 0.0 && scale > 0.0
    decreases folds, alpha
  {
    if folds == 0 then LimitStep(alpha, beta, vp, vn, scale) else FoldedLimit(alpha, beta, vp, vn, scale, folds - 1)
  }

  function Limit(alpha: real, beta: real, vp: real, vn: real, scale: real): Phases
    requires vp > 0.0 && vn > 0.0 && scale > 0.0
  {
    FoldedLimit(alpha, beta, vp, vn, scale, 3)
  }

  lemma LimitIs(alpha: real, beta: real, vp: real, vn: real, scale: real)
    requires vp > 0.0 && vn > 0.0 && scale > 0.0
    ensures Limit(alpha, beta, vp, vn, scale) == LimitStep(alpha, beta, vp, vn, scale)
  {
    assert FoldedLimit(alpha, beta, vp, vn, scale, 1) == FoldedLimit(alpha, beta, vp, vn, scale, 0);
    assert FoldedLimit(alpha, beta, vp, vn, scale, 2) == FoldedLimit(alpha, beta, vp, vn, scale, 1);
  }

  /** The factor by which the requested vector is shrunk: none unless its phase span
      exceeds the total bus, and then just enough to reach it. */
  function FactorStep(alpha: real, beta: real, total: real): (f: real)
    requires total > 0.0
  {
    var span := Span(InvClarke(alpha, beta));
    if span <= total then 1.0 else total / span
  }

  function FoldedFactor(alpha: real, beta: real, total: real, folds: nat): real
    requires total > 0.0
    decreases folds, alpha
  {
    if folds == 0 then FactorStep(alpha, beta, total) else FoldedFactor(alpha, beta, total, folds - 1)
  }

  function Factor(alpha: real, beta: real, total: real): real
    requires total > 0.0
  {
    FoldedFactor(alpha, beta, total, 3)
  }

  lemma FactorIs(alpha: real, beta: real, total: real)
    requires total > 0.0
    ensures Factor(alpha, beta, total) == FactorStep(alpha, beta, total)
  {
    assert FoldedFactor(alpha, beta, total, 1) == FoldedFactor(alpha, beta, total, 0);
    assert FoldedFactor(alpha, beta, total, 2) == FoldedFactor(alpha, beta, total, 1);
  }

  lemma FactorRange(alpha: real, beta: real, total: real)
    requires total > 0.0
    ensures 0.0 < Factor(alpha, beta, total) <= 1.0
    ensures var span := Span(InvClarke(alpha, beta));
            && (span <= total ==> Factor(alpha, beta, total) == 1.0)
            && (span > total ==> Factor(alpha, beta, total) < 1.0 && Mul(Factor(alpha, beta, total), span) == total)
  {
    FactorIs(alpha, beta, total);
    var span := Span(InvClarke(alpha, beta));
    if span > total {
      var q := total / span;
      MulDivide(total, span);
      MulComm(span, q);
      MulPositive(span, q);
      MulOrder(span, 1.0, q);
      MulZero(span);
      MulComm(span, 1.0);
    }
  }

  lemma BusScaled(scale: real, vp: real, vn: real)
    requires scale > 0.0
    ensures Mul(scale, vp / scale + vn / scale) == vp + vn
  {
    MulAdd(scale, vp / scale, vn / scale);
    MulDivide(vp, scale);
    MulDivide(vn, scale);
  }

  /** The gain applied to the unit vector is the factor times the magnitude. */
  lemma GainIsFactor(m: real, scale: real, vp: real, vn: real, unitSpan: real, span: real)
    requires m > 0.0 && scale > 0.0 && vp > 0.0 && vn > 0.0 && unitSpan > 0.0 && span > 0.0
    requires span == Mul(m, unitSpan)
    ensures var g := Min(m / scale, (vp / scale + vn / scale) / unitSpan);
            Mul(scale, g) == if span <= vp + vn then m else Mul((vp + vn) / span, m)
  {
    var a, bus := m / scale, vp / scale + vn / scale;
    var b := bus / unitSpan;
    MulDivide(m, scale);
    MulDivide(bus, unitSpan);
    BusScaled(scale, vp, vn);
    MulAssoc(scale, unitSpan, b);
    MulComm(scale, unitSpan);
    MulAssoc(unitSpan, scale, b);
    // The limit, scaled back and times the unit span, is the total bus.
    assert Mul(unitSpan, Mul(scale, b)) == vp + vn;
    MulComm(m, unitSpan);
    MulOrder(unitSpan, m, Mul(scale, b));
    MulOrder(scale, a, b);
    if span > vp + vn {
      var f := (vp + vn) / span;
      MulDivide(vp + vn, span);
      MulComm(span, f);
      MulAssoc(f, m, unitSpan);
      MulComm(Mul(f, m), unitSpan);
      MulOrder(unitSpan, Mul(f, m), Mul(scale, b));
      MulOrder(unitSpan, Mul(scale, b), Mul(f, m));
    }
  }

  /** Scaling the unit vector by the gain is shrinking the request by the factor. */
  lemma RadialUnit(alpha: real, beta: real, m: real, g: real, scale: real, f: real)
    requires m > 0.0 && Mul(scale, g) == Mul(f, m)
    ensures Scale(scale, Scale(g, Unit(alpha, beta, m))) == InvClarke(Mul(f, alpha), Mul(f, beta))
  {
    var u, v := alpha / m, beta / m;
    UnitIs(alpha, beta, m);
    MulDivide(alpha, m);
    MulDivide(beta, m);
    ScaleTwice(scale, g, InvClarke(u, v));
    ScaleTwice(f, m, InvClarke(u, v));
    ScaleClarke(m, u, v);
    ScaleClarke(f, alpha, beta);
  }

  lemma UnitSpan(alpha: real, beta: real, m: real)
    requires m > 0.0
    ensures Span(InvClarke(alpha, beta)) == Mul(m, Span(Unit(alpha, beta, m)))
  {
    UnitIs(alpha, beta, m);
    MulDivide(alpha, m);
    MulDivide(beta, m);
    ScaleClarke(m, alpha / m, beta / m);
    ScaleSpan(m, InvClarke(alpha / m, beta / m));
  }

  lemma LimitGain(alpha: real, beta: real, vp: real, vn: real, scale: real, m: real)
    requires vp > 0.0 && vn > 0.0 && scale > 0.0 && m > 0.0 && Span(Unit(alpha, beta, m)) > 0.0
    ensures Mul(scale, Min(m / scale, (vp / scale + vn / scale) / Span(Unit(alpha, beta, m))))
         == Mul(Factor(alpha, beta, vp + vn), m)
  {
    var unit := Span(Unit(alpha, beta, m));
    UnitSpan(alpha, beta, m);
    MulPositive(m, unit);
    MulZero(m);
    FactorIs(alpha, beta, vp + vn);
    GainIsFactor(m, scale, vp, vn, unit, Span(InvClarke(alpha, beta)));
  }

  /** Limiting keeps the direction of the requested vector and shrinks it by exactly
      the factor the total bus demands. */
  lemma LimitIsRadial(alpha: real, beta: real, vp: real, vn: real, scale: real)
    requires vp > 0.0 && vn > 0.0 && scale > 0.0
    ensures var f := Factor(alpha, beta, vp + vn);
            Scale(scale, Limit(alpha, beta, vp, vn, scale)) == InvClarke(Mul(f, alpha), Mul(f, beta))
  {
    var f := Factor(alpha, beta, vp + vn);
    var m := Max(Abs(alpha), Abs(beta));
    LimitIs(alpha, beta, vp, vn, scale);
    if m == 0.0 {
      MulZero(f);
      MulZero(scale);
    } else {
      UnitNonzero(alpha, beta, m);
      LimitGain(alpha, beta, vp, vn, scale, m);
      RadialUnit(alpha, beta, m, Min(m / scale, (vp / scale + vn / scale) / Span(Unit(alpha, beta, m))), scale, f);
    }
  }

  lemma ShrunkFits(alpha: real, beta: real, total: real)
    requires total > 0.0
    ensures var f := Factor(alpha, beta, total);
            && Span(InvClarke(Mul(f, alpha), Mul(f, beta))) <= total
            && (f < 1.0 ==> Span(InvClarke(Mul(f, alpha), Mul(f, beta))) == total)
  {
    var f := Factor(alpha, beta, total);
    FactorRange(alpha, beta, total);
    ScaleClarke(f, alpha, beta);
    ScaleSpan(f, InvClarke(alpha, beta));
    MulZero(Span(InvClarke(alpha, beta)));
  }

  lemma FitsInUnits(scale: real, s: Phases, vp: real, vn: real)
    requires scale > 0.0
    ensures Span(Scale(scale, s)) <= vp + vn ==> Span(s) <= vp / scale + vn / scale
    ensures Span(Scale(scale, s)) == vp + vn ==> Span(s) == vp / scale + vn / scale
    ensures Scale(scale, s).a + Scale(scale, s).b + Scale(scale, s).c == 0.0 ==> s.a + s.b + s.c == 0.0
  {
    var bus := vp / scale + vn / scale;
    ScaleSpan(scale, s);
    BusScaled(scale, vp, vn);
    MulOrder(scale, Span(s), bus);
    MulOrder(scale, bus, Span(s));
    ZeroSum(scale, s);
  }

  /** The limited vector fits the total bus, and fills it whenever it was shrunk. */
  lemma LimitFits(alpha: real, beta: real, vp: real, vn: real, scale: real)
    requires vp > 0.0 && vn > 0.0 && scale > 0.0
    ensures var s := Limit(alpha, beta, vp, vn, scale);
            && s.a + s.b + s.c == 0.0
            && Span(s) <= vp / scale + vn / scale
            && (Factor(alpha, beta, vp + vn) < 1.0 ==> Span(s) == vp / scale + vn / scale)
  {
    LimitIsRadial(alpha, beta, vp, vn, scale);
    ShrunkFits(alpha, beta, vp + vn);
    FitsInUnits(scale, Limit(alpha, beta, vp, vn, scale), vp, vn);
  }
}
