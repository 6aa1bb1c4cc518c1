/**
  What balancing does to the midpoint current: in which direction the references,
  the filters, the integral and the correction act (code/lib/svpwm_3level.c).
*/
module SvpwmBalance {

  import opened Machine
  import opened RealArith
  import opened SvpwmSector
  import opened SvpwmSearch
  import opened Svpwm3Level

  lemma MulNegated(a: real, x: real)
    ensures Mul(-a, x) == -Mul(a, x) == Mul(a, -x)
  {
    MulIs(a, x);
    MulIs(-a, x);
    MulIs(a, -x);
  }

  // ----- The drawn current as a function of the offset -----

  lemma ShareAbove(i: Input, pole: real)
    requires IsInput(i) && 0.0 <= pole <= i.vp
    ensures DirectDuty(pole, i.vp, i.vn).o == 1.0 - pole / i.vp
  {
    SignOfQuotient(pole, i.vp);
    SignOfQuotient(-pole, i.vn);
    BoundLoses(pole, i.vp, 0.0);
  }

  lemma ShareBelow(i: Input, pole: real)
    requires IsInput(i) && -i.vn <= pole <= 0.0
    ensures DirectDuty(pole, i.vp, i.vn).o == 1.0 - (-pole) / i.vn
  {
    SignOfQuotient(pole, i.vp);
    SignOfQuotient(-pole, i.vn);
    BoundLoses(-pole, i.vn, 0.0);
  }

  /** The second pole voltage needs the same rails as the first. */
  predicate SameSide(pole1: real, pole2: real) {
    if pole1 >= 0.0 then pole2 >= 0.0 else pole2 <= 0.0
  }

  predicate InRange(i: Input, pole: real) {
    -i.vn <= pole <= i.vp
  }

  lemma MovesAbove(i: Input, current: real, pole1: real, pole2: real)
    requires IsInput(i) && 0.0 <= pole1 <= i.vp && 0.0 <= pole2 <= i.vp
    ensures Mul(current, DirectDuty(pole2, i.vp, i.vn).o) - Mul(current, DirectDuty(pole1, i.vp, i.vn).o)
         == -Mul(current / i.vp, pole2 - pole1)
  {
    ShareAbove(i, pole1);
    ShareAbove(i, pole2);
    MulAdd(current, 1.0, pole1 / i.vp);
    MulAdd(current, 1.0, pole2 / i.vp);
    QuotientShift(current, i.vp, pole1, pole2);
  }

  lemma MovesBelow(i: Input, current: real, pole1: real, pole2: real)
    requires IsInput(i) && -i.vn <= pole1 <= 0.0 && -i.vn <= pole2 <= 0.0
    ensures Mul(current, DirectDuty(pole2, i.vp, i.vn).o) - Mul(current, DirectDuty(pole1, i.vp, i.vn).o)
         == -Mul(-current / i.vn, pole2 - pole1)
  {
    ShareBelow(i, pole1);
    ShareBelow(i, pole2);
    MulAdd(current, 1.0, (-pole1) / i.vn);
    MulAdd(current, 1.0, (-pole2) / i.vn);
    QuotientShift(current, i.vn, -pole1, -pole2);
    NegatedQuotient(current, i.vn);
    MulNegated(current / i.vn, pole2 - pole1);
  }

  /** What one phase contributes to minus the slope of the drawn current. */
  function PhaseSensitivity(i: Input, current: real, pole: real): real
    requires IsInput(i)
  {
    if pole >= 0.0 then current / i.vp else -current / i.vn
  }

  lemma PhaseMoves(i: Input, current: real, pole1: real, pole2: real)
    requires IsInput(i) && InRange(i, pole1) && InRange(i, pole2) && SameSide(pole1, pole2)
    ensures Mul(current, DirectDuty(pole2, i.vp, i.vn).o) - Mul(current, DirectDuty(pole1, i.vp, i.vn).o)
         == -Mul(PhaseSensitivity(i, current, pole1), pole2 - pole1)
  {
    if pole1 >= 0.0 {
      MovesAbove(i, current, pole1, pole2);
    } else {
      MovesBelow(i, current, pole1, pole2);
    }
  }

  predicate AllInRange(i: Input, volts: Phases, offset: real) {
    InRange(i, volts.a + offset) && InRange(i, volts.b + offset) && InRange(i, volts.c + offset)
  }

  predicate AllSameSide(volts: Phases, o1: real, o2: real) {
    SameSide(volts.a + o1, volts.a + o2) && SameSide(volts.b + o1, volts.b + o2) && SameSide(volts.c + o1, volts.c + o2)
  }

  lemma SumOfSensitivities(i: Input, volts: Phases, offset: real)
    requires IsInput(i)
    ensures Sensitivity(i, volts, offset, 3)
         == PhaseSensitivity(i, i.current.a, volts.a + offset) + PhaseSensitivity(i, i.current.b, volts.b + offset)
          + PhaseSensitivity(i, i.current.c, volts.c + offset)
  {
    assert Sensitivity(i, volts, offset, 1) == PhaseSensitivity(i, i.current.a, volts.a + offset);
    assert Sensitivity(i, volts, offset, 2)
        == Sensitivity(i, volts, offset, 1) + PhaseSensitivity(i, i.current.b, volts.b + offset);
  }

  lemma MulSum(x: real, a: real, b: real, c: real)
    ensures Mul(a + b + c, x) == Mul(a, x) + Mul(b, x) + Mul(c, x)
  {
    MulComm(a + b + c, x);
    MulComm(a, x);
    MulComm(b, x);
    MulComm(c, x);
    MulAdd(x, a + b, c);
    MulAdd(x, a, b);
  }

  /** As long as every pole keeps its rails, moving the offset moves the drawn midpoint
      current by minus the sensitivity. */
  lemma DrawnMoves(i: Input, volts: Phases, o1: real, o2: real)
    requires IsInput(i) && AllInRange(i, volts, o1) && AllInRange(i, volts, o2) && AllSameSide(volts, o1, o2)
    ensures Drawn(DirectDuties(i, volts, o2), i.current) - Drawn(DirectDuties(i, volts, o1), i.current)
         == -Mul(Sensitivity(i, volts, o1, 3), o2 - o1)
  {
    PhaseMoves(i, i.current.a, volts.a + o1, volts.a + o2);
    PhaseMoves(i, i.current.b, volts.b + o1, volts.b + o2);
    PhaseMoves(i, i.current.c, volts.c + o1, volts.c + o2);
    SumOfSensitivities(i, volts, o1);
    MulSum(o2 - o1, PhaseSensitivity(i, i.current.a, volts.a + o1), PhaseSensitivity(i, i.current.b, volts.b + o1),
           PhaseSensitivity(i, i.current.c, volts.c + o1));
  }

  // ----- The correction serves the reference -----

  lemma SquareShare(s: real, f: real)
    requires f > 0.0 && Mul(s, s) + Mul(f, f) > 0.0
    ensures var share := Mul(s, s / (Mul(s, s) + Mul(f, f)));
            0.0 <= share < 1.0 && (s != 0.0 ==> share > 0.0) && Mul(Mul(s, s) + Mul(f, f), share) == Mul(s, s)
  {
    var d := Mul(s, s) + Mul(f, f);
    var a := s / d;
    var share := Mul(s, a);
    MulDivide(s, d);
    MulAssoc(s, d, a);
    MulComm(s, d);
    MulAssoc(d, s, a);
    // So d * share is s * s.
    MulIs(s, s);
    SquareNonnegative(s);
    MulPositive(f, f);
    MulZero(d);
    MulComm(d, 1.0);
    MulOrder(d, 0.0, share);
    MulOrder(d, 1.0, share);
    if s != 0.0 {
      MulOrder(d, share, 0.0);
      NonzeroSquare(s);
    }
  }

  lemma NonzeroSquare(s: real)
    requires s != 0.0
    ensures Mul(s, s) > 0.0
  {
    if s > 0.0 {
      MulPositive(s, s);
    } else {
      MulPositive(-s, -s);
      MulNegated(s, -s);
      MulNegated(s, s);
    }
  }

  /** What part of the requested midpoint current the correction delivers. */
  function Share(c: Config, i: Input, h: History, s: real): real
    requires IsInput(i) && c.currentMin > 0.0
  {
    Mul(s, Authority(c, i, h, s))
  }

  /** Uncut, and with every pole keeping its rails, the correction moves the drawn midpoint
      current toward the reference, by the share s^2 / (s^2 + f^2) of it, with `s` the
      sensitivity and `f` its floor. */
  lemma CorrectionServes(c: Config, i: Input, h: History, volts: Phases, centered: real)
    requires IsInput(i) && c.currentMin > 0.0
    requires var s := Sensitivity(i, volts, centered, 3);
             var o := centered + Mul(Authority(c, i, h, s), Request(c, h));
             AllInRange(i, volts, centered) && AllInRange(i, volts, o) && AllSameSide(volts, centered, o)
    ensures var s := Sensitivity(i, volts, centered, 3);
            var o := centered + Mul(Authority(c, i, h, s), Request(c, h));
            && Drawn(DirectDuties(i, volts, o), i.current) - Drawn(DirectDuties(i, volts, centered), i.current)
               == Mul(Share(c, i, h, s), -Request(c, h))
            && 0.0 <= Share(c, i, h, s) < 1.0 && (s != 0.0 ==> Share(c, i, h, s) > 0.0)
            && var f := SlopeFloor(c, i, h.current);
               Mul(Mul(s, s) + Mul(f, f), Share(c, i, h, s)) == Mul(s, s)
  {
    var s := Sensitivity(i, volts, centered, 3);
    var a, q := Authority(c, i, h, s), Request(c, h);
    DrawnMoves(i, volts, centered, centered + Mul(a, q));
    MulAssoc(s, a, q);
    MulNegated(Mul(s, a), q);
    AuthorityDefined(c, i, h.current, s);
    SquareShare(s, SlopeFloor(c, i, h.current));
  }

  /** The floor is a current per mean half bus: the least one given or a part of the mean. */
  lemma FloorIs(c: Config, i: Input, current: real)
    requires IsInput(i)
    ensures Mul(0.5 * (i.vp + i.vn), SlopeFloor(c, i, current))
         == Max(c.currentMin, Mul(c.slopeFloorRatio, current))
  {
    MulDivide(Max(c.currentMin, Mul(c.slopeFloorRatio, current)), 0.5 * (i.vp + i.vn));
  }

  /** The correction never exceeds its limit nor the physical room, and is cut by nothing else. */
  lemma CorrectionIsLimited(c: Config, i: Input, h: History)
    requires IsInput(i) && c.currentMin > 0.0 && c.offsetMax >= 0.0
    ensures var r, o, f := Correction(c, i, h), Centered(i), Filtered(c, i, h);
            var raw := Mul(Authority(c, i, f, Sensitivity(i, Wanted(i), o, 3)), Request(c, f));
            && Abs(r) <= c.offsetMax && -i.vn - Min3(Wanted(i)) <= o + r <= i.vp - Max3(Wanted(i))
            && (Abs(raw) <= c.offsetMax && -i.vn - Min3(Wanted(i)) <= o + raw <= i.vp - Max3(Wanted(i)) ==> r == raw)
  {
    RoomForOffset(i);
    var o, f := Centered(i), Filtered(c, i, h);
    var raw := Mul(Authority(c, i, f, Sensitivity(i, Wanted(i), o, 3)), Request(c, f));
    ClampedIs(c, o, raw, -i.vn - Min3(Wanted(i)), i.vp - Max3(Wanted(i)));
  }

  /** The centered offset leaves the same room to both rails. */
  lemma CenteredIsMidway(i: Input)
    requires IsInput(i)
    ensures i.vp - (Max3(Wanted(i)) + Centered(i)) == Min3(Wanted(i)) + Centered(i) + i.vn >= 0.0
  {
    RoomForOffset(i);
  }

  lemma ClampedIs(c: Config, centered: real, raw: real, lowest: real, highest: real)
    requires lowest <= centered <= highest && c.offsetMax >= 0.0
    ensures var r := Clamped(c, centered, raw, lowest, highest) - centered;
            && Abs(r) <= c.offsetMax
            && (Abs(raw) <= c.offsetMax && lowest <= centered + raw <= highest ==> r == raw)
  {
  }

  // ----- References, filters and integral -----

  /** Both modes ask for a midpoint current against the bus difference. */
  lemma ReferenceOpposes(i: Input, c: Config)
    ensures Mul(i.vp - i.vn, RefOf(i, c)) <= 0.0
    ensures c.kp > 0.0 && i.vp != i.vn ==> Mul(i.vp - i.vn, RefOf(i, c)) < 0.0
  {
    Opposes(c.kp, i.vp - i.vn);
    MulZero(i.vp - i.vn);
  }

  lemma Opposes(k: real, x: real)
    ensures k > 0.0 ==> Mul(x, -Mul(k, x)) <= 0.0 && (x != 0.0 ==> Mul(x, -Mul(k, x)) < 0.0)
  {
    MulNegated(x, Mul(k, x));
    MulAssoc(x, k, x);
    MulComm(x, k);
    MulAssoc(k, x, x);
    MulIs(x, x);
    SquareNonnegative(x);
    if k > 0.0 {
      MulOrder(k, 0.0, Mul(x, x));
      MulZero(k);
      if x != 0.0 {
        NonzeroSquare(x);
        MulPositive(k, Mul(x, x));
      }
    }
  }

  lemma RequestOpposes(c: Config, h: History)
    requires h.integral == 0.0
    ensures Mul(h.delta, -Request(c, h)) <= 0.0
    ensures c.kp > 0.0 && h.delta != 0.0 ==> Mul(h.delta, -Request(c, h)) < 0.0
  {
    Opposes(c.kp, h.delta);
    MulZero(h.delta);
  }

  /** Both filters close the same share of the distance to what they filter. */
  lemma FiltersApproach(c: Config, i: Input, h: History)
    ensures var t, delta, current := Filtered(c, i, h), i.vp - i.vn,
                                     Abs(i.current.a) + Abs(i.current.b) + Abs(i.current.c);
            && delta - t.delta == Mul(1.0 - c.filterCoeff, delta - h.delta)
            && current - t.current == Mul(1.0 - c.filterCoeff, current - h.current)
            && t.integral == h.integral
  {
    var delta, current := i.vp - i.vn, Abs(i.current.a) + Abs(i.current.b) + Abs(i.current.c);
    Closes(c.filterCoeff, delta - h.delta);
    Closes(c.filterCoeff, current - h.current);
  }

  lemma Closes(g: real, e: real)
    ensures e - Mul(g, e) == Mul(1.0 - g, e)
  {
    MulComm(g, e);
    MulComm(1.0 - g, e);
    MulAdd(e, 1.0, g);
    MulComm(e, 1.0);
    MulZero(e);
  }

  /** Where the correction is not cut the integral follows the bus difference; without
      authority it stands still, and with no gain it is cleared. */
  lemma IntegralFollows(c: Config, i: Input, h: History, s: real, applied: real)
    requires IsInput(i) && c.currentMin > 0.0
    ensures var t := Integrated(c, i, h, s, applied);
            && t.delta == h.delta && t.current == h.current
            && (c.kp <= 0.0 ==> t.integral == 0.0)
            && (c.kp > 0.0 && Abs(s) <= SlopeFloor(c, i, h.current) ==> t.integral == h.integral)
            && (c.kp > 0.0 && Abs(s) > SlopeFloor(c, i, h.current) && Shortfall(c, i, h, s, applied) == 0.0 ==>
                  t.integral == h.integral + Mul(c.ts, Mul(c.ki, h.delta)))
  {
    if c.kp > 0.0 && Abs(s) > SlopeFloor(c, i, h.current) {
      AuthorityDefined(c, i, h.current, s);
      AuthorityNonzero(c, i, h.current, s);
      MulZero(c.kaw);
      MulDivide(0.0, Authority(c, i, h, s));
      MulZero(Authority(c, i, h, s));
      ZeroQuotient(Authority(c, i, h, s));
    }
  }

  lemma ZeroQuotient(a: real)
    requires a != 0.0
    ensures 0.0 / a == 0.0
  {
  }

  // ----- The averaged mode -----

  /** In the averaged mode: if the limits cut nothing and every pole keeps its rails, the
      period draws the midpoint current of the centered offset plus a share of the reference
      it reports. */
  lemma AveragedModeServes(c: Config, i: Input, h: History, o: Output, t: History)
    requires IsInput(i) && c.currentMin > 0.0 && Controlled(c, i, h, o, t)
    requires var f := Filtered(c, i, h);
             o.correction == Mul(Authority(c, i, f, Sensitivity(i, Wanted(i), Centered(i), 3)), Request(c, f))
    requires AllInRange(i, Wanted(i), Centered(i)) && AllInRange(i, Wanted(i), o.commonMode)
    requires AllSameSide(Wanted(i), Centered(i), o.commonMode)
    ensures var share := Share(c, i, Filtered(c, i, h), Sensitivity(i, Wanted(i), Centered(i), 3));
            && o.midpoint - Drawn(DirectDuties(i, Wanted(i), Centered(i)), i.current) == Mul(share, o.midpointRef)
            && 0.0 <= share < 1.0
  {
    CorrectionServes(c, i, Filtered(c, i, h), Wanted(i), Centered(i));
  }

  // ----- The instantaneous mode -----

  /** What the instantaneous mode served is the search's choice, or rest. */
  function ServedSector(i: Input, c: Config, o: Output): Sector
    requires IsInput(i)
  {
    var d := DriveOf(i, c);
    if IsIdle(d) then Sector(o.duty, o.midpoint, 0.0) else Modulate(d)
  }

  lemma ServedIsInstantaneous(i: Input, c: Config, o: Output)
    requires IsInput(i) && Served(i, c, o)
    ensures var d, s := DriveOf(i, c), ServedSector(i, c, o);
            && IsInstantaneous(d, s) && o.duty == s.duty && o.midpoint == s.midpoint
            && o.midpointRef == d.ref == RefOf(i, c)
  {
    DriveInVolts(i, c);
    ModulateRealizes(DriveOf(i, c));
  }

  /** With a positive gain the instantaneous mode draws the midpoint current against the bus
      difference best: up to the tie, no offset of any mapping comes closer. */
  lemma InstantaneousModeServes(i: Input, c: Config, o: Output, j: nat, offset: real)
    requires IsInput(i) && Served(i, c, o) && c.kp > 0.0
    requires var d := DriveOf(i, c); j < 6 && Lower(d, MASKS[j]) <= offset <= Upper(d, MASKS[j])
    ensures var d, ref := DriveOf(i, c), -Mul(c.kp, i.vp - i.vn);
            o.midpointRef == ref && Abs(o.midpoint - ref) <= Abs(Mid(d, MASKS[j], offset) - ref) + Tie(d)
  {
    ServedIsInstantaneous(i, c, o);
    BalancesBest(DriveOf(i, c), ServedSector(i, c, o), j, offset);
  }

  lemma EqualBusesAreUnits(i: Input, c: Config)
    requires IsInput(i) && i.vp == i.vn
    ensures DriveOf(i, c).p == DriveOf(i, c).n == 1.0
  {
    assert ScaleOf(i) == i.vp;
  }

  /** Without a gain and with equal half buses it uses the mapping of the phase signs. */
  lemma WithoutGainUsesSigns(i: Input, c: Config, o: Output)
    requires IsInput(i) && Served(i, c, o) && c.kp <= 0.0 && i.vp == i.vn
    requires !IsIdle(DriveOf(i, c))
    ensures var d := DriveOf(i, c);
            var s := TrySector(d, Preferred(d));
            o.midpointRef == 0.0 && s.Some? && o.duty == s.value.duty
  {
    EqualBusesAreUnits(i, c);
    EqualBusesUseSignSector(DriveOf(i, c));
    ServedIsInstantaneous(i, c, o);
  }
}
