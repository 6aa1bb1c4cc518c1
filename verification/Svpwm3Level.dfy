/**
  The three-level modulator object (code/lib/svpwm_3level.c): limiting, the
  instantaneous mode with its sector search, and the averaged balancing mode.
*/
module Svpwm3Level {

  import opened Machine
  import opened RealArith
  import opened SvpwmSector
  import opened SvpwmSearch

  const FLT_MAX: real := 340282346638528859811704183484516925440.0

  datatype Input = Input(alpha: real, beta: real, vp: real, vn: real, current: Phases)

  datatype Config = Config(
    kp: real, averageBalance: bool, ts: real, filterCoeff: real, ki: real, kaw: real,
    currentMin: real, slopeFloorRatio: real, offsetMax: real)

  datatype Output = Output(
    duty: Duties, midpointRef: real, midpoint: real, commonMode: real,
    deltaFiltered: real, correction: real, currentMagnitude: real)

  const ZERO: Output :=
    Output(Duties(Duty(0.0, 0.0, 0.0), Duty(0.0, 0.0, 0.0), Duty(0.0, 0.0, 0.0)), 0.0, 0.0, 0.0, 0.0, 0.0, 0.0)

  /** What the caller validates: positive half buses, and a positive current floor
      for the averaged mode. */
  predicate IsInput(i: Input) {
    i.vp > 0.0 && i.vn > 0.0
  }

  predicate IsConfig(c: Config) {
    c.averageBalance ==> c.currentMin > 0.0
  }

  // ----- What the output means in volts -----

  /** The requested phase voltages after radial limiting to the total bus. */
  function Wanted(i: Input): Phases
    requires IsInput(i)
  {
    var f := Factor(i.alpha, i.beta, i.vp + i.vn);
    InvClarke(Mul(f, i.alpha), Mul(f, i.beta))
  }

  predicate PhaseDelivered(i: Input, duty: Duty, wanted: real, common: real, tol: real) {
    ValidDuty(duty) && Abs(Pole(duty, i.vp, i.vn) - (wanted + common)) <= tol
  }

  /** Valid duties; every pole voltage is the wanted one plus one common voltage. */
  predicate Delivers(i: Input, o: Output, tol: real)
    requires IsInput(i)
  {
    && PhaseDelivered(i, o.duty.a, Wanted(i).a, o.commonMode, tol)
    && PhaseDelivered(i, o.duty.b, Wanted(i).b, o.commonMode, tol)
    && PhaseDelivered(i, o.duty.c, Wanted(i).c, o.commonMode, tol)
  }

  /** So the line-to-line voltages are those of the limited request. */
  lemma LineVoltages(i: Input, o: Output, tol: real)
    requires IsInput(i) && Delivers(i, o, tol)
    ensures Abs((Pole(o.duty.a, i.vp, i.vn) - Pole(o.duty.b, i.vp, i.vn)) - (Wanted(i).a - Wanted(i).b)) <= 2.0 * tol
    ensures Abs((Pole(o.duty.b, i.vp, i.vn) - Pole(o.duty.c, i.vp, i.vn)) - (Wanted(i).b - Wanted(i).c)) <= 2.0 * tol
    ensures Abs((Pole(o.duty.c, i.vp, i.vn) - Pole(o.duty.a, i.vp, i.vn)) - (Wanted(i).c - Wanted(i).a)) <= 2.0 * tol
  {
  }

  function ScaleOf(i: Input): real {
    Max(i.vp, i.vn)
  }

  function RefOf(i: Input, c: Config): real {
    if c.kp > 0.0 then -Mul(c.kp, i.vp - i.vn) else 0.0
  }

  lemma QuotientAtMostOne(a: real, b: real)
    requires 0.0 < a <= b
    ensures 0.0 < a / b <= 1.0
  {
    QuotientPositive(a, b);
    MulDivide(a, b);
    MulOrder(b, 1.0, a / b);
    MulZero(b);
    MulComm(b, 1.0);
  }

  lemma BusesInUnits(i: Input)
    requires IsInput(i)
    ensures 0.0 < i.vp / ScaleOf(i) <= 1.0 && 0.0 < i.vn / ScaleOf(i) <= 1.0
  {
    QuotientAtMostOne(i.vp, ScaleOf(i));
    QuotientAtMostOne(i.vn, ScaleOf(i));
  }

  /** The normalized problem of the instantaneous mode. */
  function DriveOf(i: Input, c: Config): (d: Drive)
    requires IsInput(i)
    ensures IsLimited(d)
  {
    BusesInUnits(i);
    LimitFits(i.alpha, i.beta, i.vp, i.vn, ScaleOf(i));
    Drive(Limit(i.alpha, i.beta, i.vp, i.vn, ScaleOf(i)), i.vp / ScaleOf(i), i.vn / ScaleOf(i), i.current,
          RefOf(i, c), c.kp > 0.0)
  }

  /** In volts its phases are the limited request, and it carries the phase currents. */
  lemma DriveInVolts(i: Input, c: Config)
    requires IsInput(i)
    ensures Scale(ScaleOf(i), DriveOf(i, c).phase) == Wanted(i) && DriveOf(i, c).current == i.current
  {
    LimitIsRadial(i.alpha, i.beta, i.vp, i.vn, ScaleOf(i));
    assert Scale(ScaleOf(i), Limit(i.alpha, i.beta, i.vp, i.vn, ScaleOf(i))) == Wanted(i);
    assert DriveOf(i, c).phase == Limit(i.alpha, i.beta, i.vp, i.vn, ScaleOf(i)) && DriveOf(i, c).current == i.current
    by {
    }
  }

  lemma PoleScales(scale: real, duty: Duty, p: real, n: real)
    ensures Pole(duty, Mul(scale, p), Mul(scale, n)) == Mul(scale, Pole(duty, p, n))
  {
    MulAssoc(scale, duty.p, p);
    MulAssoc(scale, duty.n, n);
    MulAssoc(duty.p, scale, p);
    MulAssoc(duty.n, scale, n);
    MulComm(scale, duty.p);
    MulComm(scale, duty.n);
    MulAdd(scale, Mul(duty.p, p), Mul(duty.n, n));
  }

  lemma ErrorScales(scale: real, x: real, tol: real)
    requires scale > 0.0 && Abs(x) <= tol
    ensures Abs(Mul(scale, x)) <= Mul(scale, tol)
  {
    MulOrder(scale, x, tol);
    MulOrder(scale, -tol, x);
    MulAdd(scale, 0.0, tol);
    MulZero(scale);
  }

  lemma PhaseScales(i: Input, d: Drive, duty: Duty, phase: real, offset: real)
    requires IsInput(i) && d.p == i.vp / ScaleOf(i) && d.n == i.vn / ScaleOf(i) && Realizes(d, duty, phase, offset)
    ensures PhaseDelivered(i, duty, Mul(ScaleOf(i), phase), Mul(ScaleOf(i), offset), Mul(ScaleOf(i), 0.5 * ROUNDOFF))
  {
    var s := ScaleOf(i);
    MulDivide(i.vp, s);
    MulDivide(i.vn, s);
    PoleScales(s, duty, d.p, d.n);
    MulAdd(s, phase, offset);
    MulAdd(s, Pole(duty, d.p, d.n), phase + offset);
    ErrorScales(s, Pole(duty, d.p, d.n) - (phase + offset), 0.5 * ROUNDOFF);
  }

  /** A realization of the normalized problem delivers the limited request in volts. */
  lemma RealizationDelivers(i: Input, c: Config, s: Sector, o: Output)
    requires IsInput(i) && IsRealization(DriveOf(i, c), s)
    requires o.duty == s.duty && o.commonMode == Mul(ScaleOf(i), s.offset)
    ensures Delivers(i, o, Mul(ScaleOf(i), 0.5 * ROUNDOFF))
  {
    var d := DriveOf(i, c);
    LimitIsRadial(i.alpha, i.beta, i.vp, i.vn, ScaleOf(i));
    PhaseScales(i, d, s.duty.a, d.phase.a, s.offset);
    PhaseScales(i, d, s.duty.b, d.phase.b, s.offset);
    PhaseScales(i, d, s.duty.c, d.phase.c, s.offset);
  }

  // ----- One mapping, computed -----

  function At(s: Phases, k: nat): real {
    if k == 0 then s.a else if k == 1 then s.b else s.c
  }

  function Bit(m: Mask, k: nat): bool {
    if k == 0 then m.a else if k == 1 then m.b else m.c
  }

  function LowerUpTo(d: Drive, m: Mask, k: nat): real
    decreases k
  {
    if k == 0 then -FLT_MAX else Max(LowerUpTo(d, m, k - 1), Low(d, Bit(m, k - 1), At(d.phase, k - 1)))
  }

  function UpperUpTo(d: Drive, m: Mask, k: nat): real
    decreases k
  {
    if k == 0 then FLT_MAX else Min(UpperUpTo(d, m, k - 1), High(d, Bit(m, k - 1), At(d.phase, k - 1)))
  }

  /** Limited phases are far from the sentinels the bounds start from. */
  lemma BoundsAreExact(d: Drive, m: Mask)
    requires IsLimited(d)
    ensures LowerUpTo(d, m, 3) == Lower(d, m) && UpperUpTo(d, m, 3) == Upper(d, m)
  {
    assert LowerUpTo(d, m, 1) == Low(d, m.a, d.phase.a);
    assert LowerUpTo(d, m, 2) == Max(LowerUpTo(d, m, 1), Low(d, m.b, d.phase.b));
    assert UpperUpTo(d, m, 1) == High(d, m.a, d.phase.a);
    assert UpperUpTo(d, m, 2) == Min(UpperUpTo(d, m, 1), High(d, m.b, d.phase.b));
  }

  method Bounds(d: Drive, m: Mask) returns (lower: real, upper: real)
    requires IsLimited(d)
    ensures lower == Lower(d, m) && upper == Upper(d, m)
  {
    lower, upper := -FLT_MAX, FLT_MAX;
    for k := 0 to 3
      invariant lower == LowerUpTo(d, m, k) && upper == UpperUpTo(d, m, k)
    {
      if Bit(m, k) {
        lower := Max(lower, -At(d.phase, k));
        upper := Min(upper, d.p - At(d.phase, k));
      } else {
        lower := Max(lower, -d.n - At(d.phase, k));
        upper := Min(upper, -At(d.phase, k));
      }
    }
    BoundsAreExact(d, m);
  }

  function MidUpTo(d: Drive, m: Mask, offset: real, k: nat): real
    requires IsDrive(d)
    decreases k
  {
    if k == 0 then 0.0
    else
      MidUpTo(d, m, offset, k - 1) + Mul(At(d.current, k - 1), Share(d, Bit(m, k - 1), At(d.phase, k - 1) + offset))
  }

  function SlopeUpTo(d: Drive, m: Mask, k: nat): real
    requires IsDrive(d)
    decreases k
  {
    if k == 0 then 0.0 else SlopeUpTo(d, m, k - 1) + PhaseSlope(d, Bit(m, k - 1), At(d.current, k - 1))
  }

  lemma MidIsExact(d: Drive, m: Mask, offset: real)
    requires IsDrive(d)
    ensures MidUpTo(d, m, offset, 3) == Mid(d, m, offset)
  {
    assert MidUpTo(d, m, offset, 1) == Mul(d.current.a, Share(d, m.a, d.phase.a + offset));
    assert MidUpTo(d, m, offset, 2) == MidUpTo(d, m, offset, 1) + Mul(d.current.b, Share(d, m.b, d.phase.b + offset));
  }

  lemma SlopeIsExact(d: Drive, m: Mask)
    requires IsDrive(d)
    ensures SlopeUpTo(d, m, 3) == Slope(d, m)
  {
    assert SlopeUpTo(d, m, 1) == PhaseSlope(d, m.a, d.current.a);
    assert SlopeUpTo(d, m, 2) == SlopeUpTo(d, m, 1) + PhaseSlope(d, m.b, d.current.b);
  }

  /** The affine relation between offset and midpoint current at the centered offset. */
  method MidpointRelation(d: Drive, m: Mask, offset: real) returns (center: real, slope: real)
    requires IsDrive(d)
    ensures center == Mid(d, m, offset) && slope == Slope(d, m)
  {
    center, slope := 0.0, 0.0;
    for k := 0 to 3
      invariant center == MidUpTo(d, m, offset, k) && slope == SlopeUpTo(d, m, k)
    {
      var pole := At(d.phase, k) + offset;
      if Bit(m, k) {
        center := center + Mul(At(d.current, k), 1.0 - pole / d.p);
        slope := slope - At(d.current, k) / d.p;
      } else {
        center := center + Mul(At(d.current, k), 1.0 + pole / d.n);
        slope := slope + At(d.current, k) / d.n;
      }
    }
    MidIsExact(d, m, offset);
    SlopeIsExact(d, m);
  }

  /** The common-mode offset of a feasible mapping. */
  method ChooseOffset(d: Drive, m: Mask, lower: real, upper: real) returns (offset: real)
    requires IsDrive(d) && lower == Lower(d, m) && upper == Upper(d, m)
    ensures offset == Offset(d, m)
  {
    offset := 0.5 * (lower + upper);
    if d.balance {
      var center, slope := MidpointRelation(d, m, offset);
      if slope != 0.0 && upper > lower {
        offset := offset + (d.ref - center) / slope;
        offset := Max(lower, Min(upper, offset));
      }
    }
  }

  method CalculateSector(d: Drive, m: Mask) returns (r: Option<Sector>)
    requires IsLimited(d)
    ensures r == TrySector(d, m)
  {
    var lower, upper := Bounds(d, m);
    if lower - upper > ROUNDOFF {
      return None;
    }
    var offset := ChooseOffset(d, m, lower, upper);
    var duty := SectorDuties(d, m, offset);
    r := Some(Sector(duty, Drawn(duty, d.current), offset));
  }

  /** All mappings but the preferred one, in the fixed order. */
  method SearchOthers(d: Drive, first: Option<Sector>) returns (best: Option<Sector>)
    requires IsLimited(d)
    ensures best == Search(Candidates(d), 0, first, d.ref, Tie(d), d.balance)
  {
    best := first;
    var k := 0;
    while k < 6
      invariant k <= 6
      invariant Search(Candidates(d), k, best, d.ref, Tie(d), d.balance)
             == Search(Candidates(d), 0, first, d.ref, Tie(d), d.balance)
      decreases 6 - k
    {
      if MASKS[k] != Preferred(d) {
        var candidate := CalculateSector(d, MASKS[k]);
        assert candidate == Candidates(d)[k];
        if candidate.Some? {
          if best.None? || Error(candidate.value, d.ref) + Tie(d) < Error(best.value, d.ref) {
            best := candidate;
          }
          if !d.balance {
            return;
          }
        }
      } else {
        assert Candidates(d)[k].None?;
      }
      k := k + 1;
    }
  }

  /** The instantaneous mode. */
  method ModulateDrive(d: Drive) returns (s: Sector)
    requires IsLimited(d)
    ensures IsRealization(d, s)
    ensures IsInstantaneous(d, s)
  {
    if IsIdle(d) {
      s := Rest(d);
      IdleIsZero(d);
      RestingRealizes(d, s);
    } else {
      ModulateRealizes(d);
      s := ModulateNonzero(d);
    }
  }

  method Rest(d: Drive) returns (s: Sector)
    ensures AllResting(d, s)
  {
    var duty := Duty(0.0, 1.0, 0.0);
    var all := Duties(duty, duty, duty);
    s := Sector(all, Drawn(all, d.current), 0.0);
  }

  method ModulateNonzero(d: Drive) returns (s: Sector)
    requires IsLimited(d)
    ensures s == Modulate(d)
  {
    var first := CalculateSector(d, Preferred(d));
    if first.Some? && !d.balance {
      return first.value;
    }
    var best := SearchOthers(d, first);
    match best
    case Some(b) => s := b;
    case None => s := Fallback(d);
  }

  // ----- The averaged balancing controller -----

  /** Mean bus difference, mean current magnitude and the balancing integral. */
  datatype History = History(delta: real, current: real, integral: real)

  function Filtered(c: Config, i: Input, h: History): History {
    History(h.delta + Mul(c.filterCoeff, i.vp - i.vn - h.delta),
            h.current + Mul(c.filterCoeff, Abs(i.current.a) + Abs(i.current.b) + Abs(i.current.c) - h.current),
            h.integral)
  }

  /** Minus the derivative of the midpoint current with respect to the common mode. */
  function Sensitivity(i: Input, volts: Phases, centered: real, k: nat): real
    requires IsInput(i)
    decreases k
  {
    if k == 0 then 0.0
    else
      var current := At(i.current, k - 1);
      Sensitivity(i, volts, centered, k - 1)
      + (if At(volts, k - 1) + centered >= 0.0 then current / i.vp else -current / i.vn)
  }

  function SlopeFloor(c: Config, i: Input, current: real): real
    requires IsInput(i)
  {
    Max(c.currentMin, Mul(c.slopeFloorRatio, current)) / (0.5 * (i.vp + i.vn))
  }

  lemma AuthorityDefined(c: Config, i: Input, current: real, s: real)
    requires IsInput(i) && c.currentMin > 0.0
    ensures var f := SlopeFloor(c, i, current); f > 0.0 && Mul(s, s) + Mul(f, f) > 0.0
  {
    var f := SlopeFloor(c, i, current);
    QuotientPositive(Max(c.currentMin, Mul(c.slopeFloorRatio, current)), 0.5 * (i.vp + i.vn));
    MulPositive(f, f);
    MulIs(s, s);
    SquareNonnegative(s);
  }

  lemma AuthorityNonzero(c: Config, i: Input, current: real, s: real)
    requires IsInput(i) && c.currentMin > 0.0 && s != 0.0
    ensures var f := SlopeFloor(c, i, current);
            Mul(s, s) + Mul(f, f) > 0.0 && s / (Mul(s, s) + Mul(f, f)) != 0.0
  {
    AuthorityDefined(c, i, current, s);
    var f := SlopeFloor(c, i, current);
    SignOfQuotient(s, Mul(s, s) + Mul(f, f));
  }

  /** The regularized inverse of the sensitivity. */
  function Authority(c: Config, i: Input, h: History, s: real): real
    requires IsInput(i) && c.currentMin > 0.0
  {
    AuthorityDefined(c, i, h.current, s);
    var f := SlopeFloor(c, i, h.current);
    s / (Mul(s, s) + Mul(f, f))
  }

  /** The balancing current asked for. */
  function Request(c: Config, h: History): real {
    if c.kp > 0.0 then Mul(c.kp, h.delta) + h.integral else 0.0
  }

  /** The correction around the centered offset, limited and kept physical. */
  function Clamped(c: Config, centered: real, correction: real, lowest: real, highest: real): (r: real)
    requires lowest <= highest
    ensures lowest <= r <= highest
  {
    Max(lowest, Min(highest, centered + Max(-c.offsetMax, Min(c.offsetMax, correction))))
  }

  /** The history after one period in which the offset moved by `applied`. */
  function Integrated(c: Config, i: Input, h: History, s: real, applied: real): History
    requires IsInput(i) && c.currentMin > 0.0
  {
    if c.kp <= 0.0 then h.(integral := 0.0)
    else if Abs(s) <= SlopeFloor(c, i, h.current) then h
    else
      var a := Authority(c, i, h, s);
      AuthorityDefined(c, i, h.current, s);
      AuthorityNonzero(c, i, h.current, s);
      h.(integral := h.integral + Mul(c.ts, Mul(c.ki, h.delta) + Mul(c.kaw, applied - Mul(a, Request(c, h))) / a))
  }

  /** What adding `ts` * (`k` + `x` / `a`) to `y` does to its product with `a`. */
  lemma ScaledStep(a: real, y: real, ts: real, k: real, x: real)
    requires a != 0.0
    ensures Mul(a, y + Mul(ts, k + x / a)) - Mul(a, y) == Mul(ts, Mul(a, k) + x)
  {
    MulAdd(a, y, Mul(ts, k + x / a));
    MulAssoc(a, ts, k + x / a);
    MulComm(a, ts);
    MulAssoc(ts, a, k + x / a);
    MulAdd(a, k, x / a);
    MulDivide(x, a);
  }

  /** What the uncut correction falls short of the applied one by. */
  function Shortfall(c: Config, i: Input, h: History, s: real, applied: real): real
    requires IsInput(i) && c.currentMin > 0.0
  {
    applied - Mul(Authority(c, i, h, s), Request(c, h))
  }

  /** What one period of integrating the bus difference adds to the uncut correction. */
  function Drift(c: Config, i: Input, h: History, s: real): real
    requires IsInput(i) && c.currentMin > 0.0
  {
    Mul(c.ts, Mul(Authority(c, i, h, s), Mul(c.ki, h.delta)))
  }

  /** One period moves the uncut correction by the integrated bus difference and by a
      share `ts * kaw` of the shortfall. */
  lemma IntegralMoves(c: Config, i: Input, h: History, s: real, applied: real)
    requires IsInput(i) && c.currentMin > 0.0 && c.kp > 0.0 && Abs(s) > SlopeFloor(c, i, h.current)
    ensures var t := Integrated(c, i, h, s, applied);
            Mul(Authority(c, i, h, s), Request(c, t)) - Mul(Authority(c, i, h, s), Request(c, h))
            == Drift(c, i, h, s) + Mul(Mul(c.ts, c.kaw), Shortfall(c, i, h, s, applied))
  {
    var a, t, short := Authority(c, i, h, s), Integrated(c, i, h, s, applied), Shortfall(c, i, h, s, applied);
    AuthorityDefined(c, i, h.current, s);
    AuthorityNonzero(c, i, h.current, s);
    ScaledStep(a, h.integral, c.ts, Mul(c.ki, h.delta), Mul(c.kaw, short));
    MulAdd(a, Mul(c.kp, h.delta), h.integral);
    MulAdd(a, Mul(c.kp, h.delta), t.integral);
    MulAdd(c.ts, Mul(a, Mul(c.ki, h.delta)), Mul(c.kaw, short));
    MulAssoc(c.ts, c.kaw, short);
  }

  lemma ShareContracts(g: real, e: real)
    requires 0.0 < g <= 1.0
    ensures Abs(e - Mul(g, e)) == Mul(1.0 - g, Abs(e))
    ensures e != 0.0 ==> Abs(e - Mul(g, e)) < Abs(e)
  {
    MulIs(g, e);
    MulIs(1.0 - g, Abs(e));
    if e > 0.0 {
      ProductPositive(g, e);
      ProductNonnegative(1.0 - g, e);
    } else if e < 0.0 {
      ProductPositive(g, -e);
      ProductNonnegative(1.0 - g, -e);
    }
  }

  /** Anti-windup: apart from what the bus difference newly integrates, the shortfall
      shrinks by the share `ts * kaw`, strictly whenever the correction was cut. */
  lemma IntegralTracksLimit(c: Config, i: Input, h: History, s: real, applied: real)
    requires IsInput(i) && c.currentMin > 0.0 && c.kp > 0.0 && Abs(s) > SlopeFloor(c, i, h.current)
    requires 0.0 < Mul(c.ts, c.kaw) <= 1.0
    ensures var a, t := Authority(c, i, h, s), Integrated(c, i, h, s, applied);
            var before, after := Shortfall(c, i, h, s, applied), applied - Mul(a, Request(c, t)) + Drift(c, i, h, s);
            && Abs(after) == Mul(1.0 - Mul(c.ts, c.kaw), Abs(before))
            && (before != 0.0 ==> Abs(after) < Abs(before))
  {
    IntegralMoves(c, i, h, s, applied);
    ShareContracts(Mul(c.ts, c.kaw), Shortfall(c, i, h, s, applied));
  }

  /** The common mode in the middle of the available room. */
  function Centered(i: Input): real
    requires IsInput(i)
  {
    0.5 * (i.vp - i.vn - Min3(Wanted(i)) - Max3(Wanted(i)))
  }

  /** The balancing history after one period in which the offset moved by `applied`. */
  function Rebalanced(c: Config, i: Input, h: History, applied: real): History
    requires IsInput(i) && c.currentMin > 0.0
  {
    Integrated(c, i, Filtered(c, i, h), Sensitivity(i, Wanted(i), Centered(i), 3), applied)
  }

  /** The limited request always leaves room for a common mode. */
  lemma RoomForOffset(i: Input)
    requires IsInput(i)
    ensures -i.vn - Min3(Wanted(i)) <= i.vp - Max3(Wanted(i))
  {
    ShrunkFits(i.alpha, i.beta, i.vp + i.vn);
  }

  /** What the controller adds to the centered common mode: the regularized authority times
      the requested current, limited and kept physical. */
  function Correction(c: Config, i: Input, h: History): real
    requires IsInput(i) && c.currentMin > 0.0
  {
    RoomForOffset(i);
    var f := Filtered(c, i, h);
    var a := Authority(c, i, f, Sensitivity(i, Wanted(i), Centered(i), 3));
    Clamped(c, Centered(i), Mul(a, Request(c, f)), -i.vn - Min3(Wanted(i)), i.vp - Max3(Wanted(i))) - Centered(i)
  }

  /** What the averaged mode promises about the controller: its correction, what it reports
      and its new history. */
  ghost predicate Controlled(c: Config, i: Input, h: History, o: Output, t: History)
    requires IsInput(i) && c.currentMin > 0.0
  {
    && o.correction == Correction(c, i, h) && o.commonMode == Centered(i) + o.correction
    && o.duty == DirectDuties(i, Wanted(i), o.commonMode) && o.midpoint == Drawn(o.duty, i.current)
    && o.midpointRef == -Request(c, Filtered(c, i, h))
    && o.deltaFiltered == Filtered(c, i, h).delta && o.currentMagnitude == Filtered(c, i, h).current
    && t == Rebalanced(c, i, h, o.correction)
  }

  function DirectDuties(i: Input, volts: Phases, offset: real): Duties
    requires IsInput(i)
  {
    Duties(DirectDuty(volts.a + offset, i.vp, i.vn), DirectDuty(volts.b + offset, i.vp, i.vn),
           DirectDuty(volts.c + offset, i.vp, i.vn))
  }

  lemma DirectPhase(i: Input, wanted: real, offset: real)
    requires IsInput(i) && -i.vn <= wanted + offset <= i.vp
    ensures PhaseDelivered(i, DirectDuty(wanted + offset, i.vp, i.vn), wanted, offset, 0.0)
  {
    DirectDutyRealizes(wanted + offset, i.vp, i.vn);
  }

  lemma DirectDelivers(i: Input, offset: real)
    requires IsInput(i) && -i.vn - Min3(Wanted(i)) <= offset <= i.vp - Max3(Wanted(i))
    ensures forall o: Output :: o.duty == DirectDuties(i, Wanted(i), offset) && o.commonMode == offset ==>
      Delivers(i, o, 0.0)
  {
    var w := Wanted(i);
    DirectPhase(i, w.a, offset);
    DirectPhase(i, w.b, offset);
    DirectPhase(i, w.c, offset);
  }

  /** The instantaneous mode's choice in volts. */
  predicate Chosen(d: Drive, o: Output, scale: real)
    requires IsDrive(d)
  {
    && o.midpointRef == d.ref
    && if IsIdle(d) then
         Resting(o.duty.a) && Resting(o.duty.b) && Resting(o.duty.c) && o.commonMode == 0.0
       else o.duty == Modulate(d).duty && o.commonMode == Mul(scale, Modulate(d).offset)
  }

  /** The output record after the instantaneous mode. */
  function InVolts(o: Output, d: Drive, s: Sector, scale: real): Output {
    o.(duty := s.duty, midpointRef := d.ref, midpoint := s.midpoint, commonMode := Mul(scale, s.offset))
  }

  lemma ChoiceInVolts(d: Drive, s: Sector, o: Output, scale: real)
    requires IsDrive(d) && IsInstantaneous(d, s)
    requires o.midpointRef == d.ref && o.duty == s.duty && o.commonMode == Mul(scale, s.offset)
    ensures Chosen(d, o, scale)
  {
    MulZero(scale);
  }

  /** What the instantaneous mode promises. */
  predicate Served(i: Input, c: Config, o: Output)
    requires IsInput(i)
  {
    && Delivers(i, o, Mul(ScaleOf(i), 0.5 * ROUNDOFF))
    && o.midpoint == Drawn(o.duty, i.current)
    && Chosen(DriveOf(i, c), o, ScaleOf(i))
  }

  lemma ChoiceServes(i: Input, c: Config, s: Sector, was: Output)
    requires IsInput(i) && IsRealization(DriveOf(i, c), s)
    requires IsInstantaneous(DriveOf(i, c), s)
    ensures Served(i, c, InVolts(was, DriveOf(i, c), s, ScaleOf(i)))
  {
    var o := InVolts(was, DriveOf(i, c), s, ScaleOf(i));
    DriveInVolts(i, c);
    RealizationDelivers(i, c, s, o);
    ChoiceInVolts(DriveOf(i, c), s, o, ScaleOf(i));
  }

  // ----- The modulator object -----

  class Modulator {
    var input: Input
    var config: Config
    var deltaFiltered: real
    var currentFiltered: real
    var balanceIntegral: real
    var output: Output

    /** History cleared; the filtered current starts at its floor in the averaged mode. */
    constructor (config: Config, input: Input)
      ensures this.config == config && this.input == input && output == ZERO
      ensures deltaFiltered == 0.0 && balanceIntegral == 0.0
      ensures currentFiltered == if config.averageBalance then config.currentMin else 0.0
    {
      this.config, this.input, output := config, input, ZERO;
      deltaFiltered, balanceIntegral := 0.0, 0.0;
      currentFiltered := if config.averageBalance then config.currentMin else 0.0;
    }

    method Reset()
      modifies this`deltaFiltered, this`currentFiltered, this`balanceIntegral, this`output
      ensures deltaFiltered == 0.0 && balanceIntegral == 0.0 && currentFiltered == config.currentMin && output == ZERO
    {
      deltaFiltered, currentFiltered, balanceIntegral, output := 0.0, config.currentMin, 0.0, ZERO;
    }

    ghost function Value(): History
      reads this
    {
      History(deltaFiltered, currentFiltered, balanceIntegral)
    }

    /** Advance both first-order filters. */
    method Filter()
      modifies this`deltaFiltered, this`currentFiltered
      ensures Value() == Filtered(config, input, old(Value()))
    {
      var currentSum := Abs(input.current.a) + Abs(input.current.b) + Abs(input.current.c);
      deltaFiltered := deltaFiltered + Mul(config.filterCoeff, input.vp - input.vn - deltaFiltered);
      currentFiltered := currentFiltered + Mul(config.filterCoeff, currentSum - currentFiltered);
    }

    method ComputeSensitivity(volts: Phases, centered: real) returns (sensitivity: real)
      requires IsInput(input)
      ensures sensitivity == Sensitivity(input, volts, centered, 3)
    {
      sensitivity := 0.0;
      for k := 0 to 3
        invariant sensitivity == Sensitivity(input, volts, centered, k)
      {
        var pole := At(volts, k) + centered;
        sensitivity := sensitivity
          + (if pole >= 0.0 then At(input.current, k) / input.vp else -At(input.current, k) / input.vn);
      }
    }

    /** The balancing controller: filters, regularized authority and a clamped integral. */
    method BalanceOffset(volts: Phases, lowest: real, highest: real) returns (offset: real, centered: real,
        request: real)
      requires IsInput(input) && config.currentMin > 0.0 && lowest <= highest
      modifies this`deltaFiltered, this`currentFiltered, this`balanceIntegral
      ensures lowest <= offset <= highest && centered == 0.5 * (lowest + highest)
      ensures var h := Filtered(config, input, old(Value()));
              && request == Request(config, h)
              && var a := Authority(config, input, h, Sensitivity(input, volts, centered, 3));
                 && offset == Clamped(config, centered, Mul(a, request), lowest, highest)
                 && Value() == Integrated(config, input, h, Sensitivity(input, volts, centered, 3), offset - centered)
                 && deltaFiltered == h.delta && currentFiltered == h.current
    {
      centered := 0.5 * (lowest + highest);
      Filter();
      var sensitivity := ComputeSensitivity(volts, centered);
      var floor := SlopeFloor(config, input, currentFiltered);
      AuthorityDefined(config, input, currentFiltered, sensitivity);
      var authority := sensitivity / (Mul(sensitivity, sensitivity) + Mul(floor, floor));
      request := 0.0;
      if config.kp > 0.0 {
        request := Mul(config.kp, deltaFiltered) + balanceIntegral;
      } else {
        balanceIntegral := 0.0;
      }
      var correction := Mul(authority, request);
      offset := centered + Max(-config.offsetMax, Min(config.offsetMax, correction));
      offset := Max(lowest, Min(highest, offset));
      if config.kp > 0.0 && Abs(sensitivity) > floor {
        AuthorityNonzero(config, input, currentFiltered, sensitivity);
        balanceIntegral := balanceIntegral
          + Mul(config.ts, Mul(config.ki, deltaFiltered) + Mul(config.kaw, offset - centered - correction) / authority);
      }
    }

    /** The controller around the limited request. */
    method Balance(volts: Phases, lowest: real, highest: real) returns (offset: real, centered: real, request: real)
      requires IsInput(input) && config.currentMin > 0.0 && volts == Wanted(input)
      requires lowest == -input.vn - Min3(volts) <= highest == input.vp - Max3(volts)
      modifies this`deltaFiltered, this`currentFiltered, this`balanceIntegral
      ensures lowest <= offset <= highest && centered == Centered(input)
      ensures offset == centered + Correction(config, input, old(Value()))
      ensures request == Request(config, Filtered(config, input, old(Value())))
      ensures Value() == Rebalanced(config, input, old(Value()), offset - centered)
      ensures deltaFiltered == Filtered(config, input, old(Value())).delta
      ensures currentFiltered == Filtered(config, input, old(Value())).current
    {
      assert 0.5 * (lowest + highest) == Centered(input);
      offset, centered, request := BalanceOffset(volts, lowest, highest);
    }

    /** The averaged mode realizes the limited request exactly. */
    method AverageBalance(phase: Phases, scale: real)
      requires IsInput(input) && config.currentMin > 0.0 && Scale(scale, phase) == Wanted(input)
      modifies this`deltaFiltered, this`currentFiltered, this`balanceIntegral, this`output
      ensures Delivers(input, output, 0.0)
      ensures output.midpoint == Drawn(output.duty, input.current)
      ensures Controlled(config, input, old(Value()), output, Value())
    {
      var volts := Scale(scale, phase);
      var lowest, highest := -input.vn - Min3(volts), input.vp - Max3(volts);
      RoomForOffset(input);
      if highest < lowest {
        highest := lowest;
      }
      var offset, centered, request := Balance(volts, lowest, highest);
      var duty := DirectDuties(input, volts, offset);
      DirectDelivers(input, offset);
      output := Output(duty, -request, Drawn(duty, input.current), offset,
                       deltaFiltered, offset - centered, currentFiltered);
    }

    /** The instantaneous mode.  The averaged mode's diagnostics stay as they are; in
        this mode they are always zero. */
    method Instantaneous(d: Drive)
      requires IsInput(input) && d == DriveOf(input, config)
      modifies this`output
      ensures Served(input, config, output)
    {
      var s := ModulateDrive(d);
      output := InVolts(output, d, s, ScaleOf(input));
      ChoiceServes(input, config, s, old(output));
    }

    /** One period: valid duties whose pole voltages are those of the radially limited
        request plus one common mode, exactly in the averaged mode. */
    method Cal()
      requires IsInput(input) && IsConfig(config)
      modifies this`deltaFiltered, this`currentFiltered, this`balanceIntegral, this`output
      ensures Delivers(input, output, if config.averageBalance then 0.0 else Mul(ScaleOf(input), 0.5 * ROUNDOFF))
      ensures output.midpoint == Drawn(output.duty, input.current)
      ensures config.averageBalance ==> Controlled(config, input, old(Value()), output, Value())
      ensures !config.averageBalance ==>
        Value() == old(Value()) && Chosen(DriveOf(input, config), output, ScaleOf(input))
    {
      var d := DriveOf(input, config);
      if config.averageBalance {
        DriveInVolts(input, config);
        AverageBalance(d.phase, ScaleOf(input));
      } else {
        Instantaneous(d);
      }
    }
  }
}
