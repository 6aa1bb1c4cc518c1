/**
  One phase-level mapping of the three-level modulator and the search over all of
  them (code/lib/svpwm_3level.c), in units of the larger half bus.

  A mapping is feasible when one common offset keeps all its duties physical; the
  midpoint current is then a clamped linear function of the offset.
*/
module SvpwmSearch {

  import opened Machine
  import opened RealArith
  import opened SvpwmSector

  /** For each phase, whether it uses the positive rail. */
  datatype Mask = Mask(a: bool, b: bool, c: bool)

  datatype Duties = Duties(a: Duty, b: Duty, c: Duty)

  /** The six mappings, by the phases that use the positive rail. */
  const MASKS: seq<Mask> :=
    [Mask(true, false, false), Mask(true, true, false), Mask(false, true, false),
     Mask(false, true, true), Mask(false, false, true), Mask(true, false, true)]

  /** Limited phase references, half buses, phase currents and the midpoint current wanted. */
  datatype Drive = Drive(phase: Phases, p: real, n: real, current: Phases, ref: real, balance: bool)

  predicate IsDrive(d: Drive) {
    0.0 < d.p <= 1.0 && 0.0 < d.n <= 1.0
  }

  predicate IsLimited(d: Drive) {
    IsDrive(d) && d.phase.a + d.phase.b + d.phase.c == 0.0 && Span(d.phase) <= d.p + d.n
  }

  /** Duties of the three phases, the midpoint current they draw and the common-mode offset. */
  datatype Sector = Sector(duty: Duties, midpoint: real, offset: real)

  // ----- One mapping -----

  function Low(d: Drive, high: bool, phase: real): real {
    if high then -phase else -d.n - phase
  }

  function High(d: Drive, high: bool, phase: real): real {
    if high then d.p - phase else -phase
  }

  /** The offsets for which every pole stays in its phase's interval. */
  function Lower(d: Drive, m: Mask): real {
    Max3(Phases(Low(d, m.a, d.phase.a), Low(d, m.b, d.phase.b), Low(d, m.c, d.phase.c)))
  }

  function Upper(d: Drive, m: Mask): real {
    Min3(Phases(High(d, m.a, d.phase.a), High(d, m.b, d.phase.b), High(d, m.c, d.phase.c)))
  }

  predicate Feasible(d: Drive, m: Mask) {
    Lower(d, m) - Upper(d, m) <= ROUNDOFF
  }

  /** The share of a period a phase spends at the midpoint. */
  function Share(d: Drive, high: bool, pole: real): real
    requires IsDrive(d)
  {
    if high then 1.0 - pole / d.p else 1.0 + pole / d.n
  }

  /** The mean current out of the midpoint at a common-mode offset. */
  function Mid(d: Drive, m: Mask, offset: real): real
    requires IsDrive(d)
  {
    Mul(d.current.a, Share(d, m.a, d.phase.a + offset)) + Mul(d.current.b, Share(d, m.b, d.phase.b + offset))
    + Mul(d.current.c, Share(d, m.c, d.phase.c + offset))
  }

  function PhaseSlope(d: Drive, high: bool, current: real): real
    requires IsDrive(d)
  {
    if high then -(current / d.p) else current / d.n
  }

  function Slope(d: Drive, m: Mask): real
    requires IsDrive(d)
  {
    PhaseSlope(d, m.a, d.current.a) + PhaseSlope(d, m.b, d.current.b) + PhaseSlope(d, m.c, d.current.c)
  }

  function Offset(d: Drive, m: Mask): real
    requires IsDrive(d)
  {
    var lower, upper := Lower(d, m), Upper(d, m);
    var center := 0.5 * (lower + upper);
    if d.balance && Slope(d, m) != 0.0 && upper > lower then
      Max(lower, Min(upper, center + (d.ref - Mid(d, m, center)) / Slope(d, m)))
    else center
  }

  function SectorDuties(d: Drive, m: Mask, offset: real): Duties
    requires IsDrive(d)
  {
    Duties(SectorDuty(m.a, d.phase.a + offset, d.p, d.n), SectorDuty(m.b, d.phase.b + offset, d.p, d.n),
          SectorDuty(m.c, d.phase.c + offset, d.p, d.n))
  }

  function Drawn(duty: Duties, current: Phases): real {
    Mul(current.a, duty.a.o) + Mul(current.b, duty.b.o) + Mul(current.c, duty.c.o)
  }

  function Solve(d: Drive, m: Mask): Sector
    requires IsDrive(d)
  {
    var duty := SectorDuties(d, m, Offset(d, m));
    Sector(duty, Drawn(duty, d.current), Offset(d, m))
  }

  /** The realization of one mapping, if it is feasible. */
  function TrySector(d: Drive, m: Mask): Option<Sector>
    requires IsDrive(d)
  {
    if Feasible(d, m) then Some(Solve(d, m)) else None
  }

  // ----- What a realization means -----

  predicate Realizes(d: Drive, duty: Duty, phase: real, offset: real) {
    ValidDuty(duty) && Abs(Pole(duty, d.p, d.n) - (phase + offset)) <= 0.5 * ROUNDOFF
  }

  /** Valid duties whose pole voltages are the phase references plus one common offset. */
  predicate IsRealization(d: Drive, s: Sector) {
    && Realizes(d, s.duty.a, d.phase.a, s.offset)
    && Realizes(d, s.duty.b, d.phase.b, s.offset)
    && Realizes(d, s.duty.c, d.phase.c, s.offset)
    && s.midpoint == Drawn(s.duty, d.current)
  }

  lemma OffsetInRange(d: Drive, m: Mask)
    requires IsDrive(d) && Feasible(d, m)
    ensures Lower(d, m) - 0.5 * ROUNDOFF <= Offset(d, m) <= Upper(d, m) + 0.5 * ROUNDOFF
    ensures Lower(d, m) <= Upper(d, m) ==> Lower(d, m) <= Offset(d, m) <= Upper(d, m)
  {
  }

  lemma PhaseRealizes(d: Drive, high: bool, phase: real, o: real)
    requires IsDrive(d) && Low(d, high, phase) - 0.5 * ROUNDOFF <= o <= High(d, high, phase) + 0.5 * ROUNDOFF
    ensures Realizes(d, SectorDuty(high, phase + o, d.p, d.n), phase, o)
  {
    SectorDutyRealizes(high, phase + o, d.p, d.n, 0.5 * ROUNDOFF);
  }

  lemma RealizesAt(d: Drive, m: Mask, o: real)
    requires IsDrive(d) && Lower(d, m) - 0.5 * ROUNDOFF <= o <= Upper(d, m) + 0.5 * ROUNDOFF
    ensures IsRealization(d, Sector(SectorDuties(d, m, o), Drawn(SectorDuties(d, m, o), d.current), o))
  {
    PhaseRealizes(d, m.a, d.phase.a, o);
    PhaseRealizes(d, m.b, d.phase.b, o);
    PhaseRealizes(d, m.c, d.phase.c, o);
  }

  /** Every feasible mapping realizes the limited reference. */
  lemma SectorRealizes(d: Drive, m: Mask)
    requires IsDrive(d)
    ensures TrySector(d, m).Some? ==> Feasible(d, m) && IsRealization(d, TrySector(d, m).value)
  {
    if Feasible(d, m) {
      OffsetInRange(d, m);
      RealizesAt(d, m, Offset(d, m));
    }
  }

  // ----- The midpoint current of one mapping -----

  lemma QuotientShift(current: real, bus: real, x1: real, x2: real)
    requires bus > 0.0
    ensures Mul(current, x2 / bus) - Mul(current, x1 / bus) == Mul(current / bus, x2 - x1)
  {
    var y1, y2 := x1 / bus, x2 / bus;
    MulDivide(x1, bus);
    MulDivide(x2, bus);
    MulDivide(current, bus);
    MulAdd(bus, y2, y1);
    MulAssoc(current / bus, bus, y2 - y1);
    MulComm(current / bus, bus);
    MulAdd(current, y2, y1);
  }

  lemma ShareAffine(d: Drive, high: bool, phase: real, current: real, o1: real, o2: real)
    requires IsDrive(d)
    ensures Mul(current, Share(d, high, phase + o2))
         == Mul(current, Share(d, high, phase + o1)) + Mul(PhaseSlope(d, high, current), o2 - o1)
  {
    if high {
      QuotientShift(current, d.p, phase + o1, phase + o2);
      MulAdd(current, 1.0, (phase + o1) / d.p);
      MulAdd(current, 1.0, (phase + o2) / d.p);
      MulNegates(current / d.p, o2 - o1);
    } else {
      QuotientShift(current, d.n, phase + o1, phase + o2);
      MulAdd(current, 1.0, (phase + o1) / d.n);
      MulAdd(current, 1.0, (phase + o2) / d.n);
    }
  }

  lemma MulNegates(a: real, b: real)
    ensures Mul(-a, b) == -Mul(a, b)
  {
    MulIs(a, b);
    MulIs(-a, b);
  }

  /** Within a mapping the midpoint current is affine in the offset. */
  lemma MidAffine(d: Drive, m: Mask, o1: real, o2: real)
    requires IsDrive(d)
    ensures Mid(d, m, o2) == Mid(d, m, o1) + Mul(Slope(d, m), o2 - o1)
  {
    ShareAffine(d, m.a, d.phase.a, d.current.a, o1, o2);
    ShareAffine(d, m.b, d.phase.b, d.current.b, o1, o2);
    ShareAffine(d, m.c, d.phase.c, d.current.c, o1, o2);
    var x, sa := o2 - o1, PhaseSlope(d, m.a, d.current.a);
    var sb, sc := PhaseSlope(d, m.b, d.current.b), PhaseSlope(d, m.c, d.current.c);
    MulComm(sa, x);
    MulComm(sb, x);
    MulComm(sc, x);
    MulComm(sa + sb + sc, x);
    MulAdd(x, sa, sb);
    MulAdd(x, sa + sb, sc);
  }

  lemma MulAbsOrder(s: real, x: real, y: real)
    requires Abs(x) <= Abs(y)
    ensures Abs(Mul(s, x)) <= Abs(Mul(s, y))
  {
    MulIs(s, x);
    MulIs(s, y);
    AbsMul(s, x);
    AbsMul(s, y);
    ProductNonnegative(Abs(s), Abs(y) - Abs(x));
    Distribute(Abs(s), Abs(y), -Abs(x));
  }

  lemma AbsMul(a: real, b: real)
    ensures Abs(a * b) == Abs(a) * Abs(b)
  {
    if a >= 0.0 && b >= 0.0 {
      ProductNonnegative(a, b);
    } else if a >= 0.0 {
      ProductNonnegative(a, -b);
    } else if b >= 0.0 {
      ProductNonnegative(-a, b);
    } else {
      ProductNonnegative(-a, -b);
    }
  }

  /** The chosen offset brings the midpoint current as close to the wanted one as any
      offset of this mapping can. */
  lemma OffsetOptimal(d: Drive, m: Mask, o: real)
    requires IsDrive(d) && d.balance && Lower(d, m) <= o <= Upper(d, m)
    ensures Abs(Mid(d, m, Offset(d, m)) - d.ref) <= Abs(Mid(d, m, o) - d.ref)
  {
    var s, center, best := Slope(d, m), 0.5 * (Lower(d, m) + Upper(d, m)), Offset(d, m);
    if s == 0.0 {
      MidAffine(d, m, best, o);
      MulZero(o - best);
    } else if Lower(d, m) < Upper(d, m) {
      var target := center + (d.ref - Mid(d, m, center)) / s;
      MulDivide(d.ref - Mid(d, m, center), s);
      MidAffine(d, m, center, target);
      MidAffine(d, m, target, best);
      MidAffine(d, m, target, o);
      MulAbsOrder(s, best - target, o - target);
    }
  }

  lemma ShareExact(d: Drive, high: bool, pole: real)
    requires IsDrive(d) && if high then 0.0 <= pole <= d.p else -d.n <= pole <= 0.0
    ensures SectorDuty(high, pole, d.p, d.n).o == Share(d, high, pole)
  {
    SectorDutyIs(high, pole, d.p, d.n);
    if high {
      BoundLoses(pole, d.p, 0.0);
    } else {
      BoundLoses(-pole, d.n, 0.0);
      NegatedQuotient(pole, d.n);
    }
  }

  lemma NegatedQuotient(a: real, b: real)
    requires b != 0.0
    ensures -a / b == -(a / b)
  {
  }

  /** The reported midpoint current is the current at the chosen offset. */
  lemma DrawnIsMid(d: Drive, m: Mask)
    requires IsDrive(d) && Lower(d, m) <= Upper(d, m)
    ensures TrySector(d, m).Some? && TrySector(d, m).value.midpoint == Mid(d, m, Offset(d, m))
  {
    var o := Offset(d, m);
    OffsetInRange(d, m);
    ShareExact(d, m.a, d.phase.a + o);
    ShareExact(d, m.b, d.phase.b + o);
    ShareExact(d, m.c, d.phase.c + o);
  }

  // ----- The search -----

  function Error(s: Sector, ref: real): (e: real)
    ensures e >= 0.0
  {
    Abs(s.midpoint - ref)
  }

  /** The tie tolerance that keeps the preferred mapping: 32 epsilon, 2^-18, of the currents. */
  function Tie(d: Drive): (r: real)
    ensures r >= 0.0
  {
    0.000003814697265625 * (Abs(d.current.a) + Abs(d.current.b) + Abs(d.current.c) + Abs(d.ref))
  }

  /** The signs of the phases. */
  function Preferred(d: Drive): Mask {
    Mask(d.phase.a > 0.0, d.phase.b > 0.0, d.phase.c > 0.0)
  }

  /** The mappings other than the preferred one, where feasible. */
  function Candidates(d: Drive): (r: seq<Option<Sector>>)
    requires IsDrive(d)
    ensures |r| == 6
  {
    seq<Option<Sector>>(6, k requires 0 <= k < 6 =>
      if MASKS[k] == Preferred(d) then None else TrySector(d, MASKS[k]))
  }

  /** A candidate replaces the best so far only if it is better by more than the tie. */
  function Better(c: Sector, best: Option<Sector>, ref: real, tie: real): Sector {
    if best.None? || Error(c, ref) + tie < Error(best.value, ref) then c else best.value
  }

  /** Candidates `k` and later against the best so far; without balancing the first one wins. */
  function Search(cs: seq<Option<Sector>>, k: nat, best: Option<Sector>, ref: real, tie: real,
      balance: bool): Option<Sector>
    requires k <= |cs|
    decreases |cs| - k
  {
    if k == |cs| then best
    else if cs[k].None? then Search(cs, k + 1, best, ref, tie, balance)
    else
      var chosen := Some(Better(cs[k].value, best, ref, tie));
      if balance then Search(cs, k + 1, chosen, ref, tie, balance) else chosen
  }

  function Direct(d: Drive): Sector
    requires IsDrive(d)
  {
    var o := 0.5 * (d.p - d.n - Min3(d.phase) - Max3(d.phase));
    var duty := Duties(DirectDuty(d.phase.a + o, d.p, d.n), DirectDuty(d.phase.b + o, d.p, d.n),
                       DirectDuty(d.phase.c + o, d.p, d.n));
    Sector(duty, Drawn(duty, d.current), o)
  }

  /** At a collapsed boundary: the centered offset, realized directly.  Folded like a
      mapping. */
  function FoldedDirect(d: Drive, folds: nat): Sector
    requires IsDrive(d)
    decreases folds, d
  {
    if folds == 0 then Direct(d) else FoldedDirect(d, folds - 1)
  }

  function Fallback(d: Drive): Sector
    requires IsDrive(d)
  {
    FoldedDirect(d, 3)
  }

  lemma FallbackIs(d: Drive)
    requires IsDrive(d)
    ensures Fallback(d) == Direct(d)
  {
    assert FoldedDirect(d, 1) == Direct(d);
    assert FoldedDirect(d, 2) == FoldedDirect(d, 1);
  }

  /** The preferred mapping, else the best other one. */
  function Choose(d: Drive): Option<Sector>
    requires IsDrive(d)
  {
    var first := TrySector(d, Preferred(d));
    if first.Some? && !d.balance then first else Search(Candidates(d), 0, first, d.ref, Tie(d), d.balance)
  }

  /** The instantaneous mode for a nonzero reference: the chosen mapping, else the
      direct realization.  A zero reference rests. */
  function Modulate(d: Drive): Sector
    requires IsDrive(d)
  {
    match Choose(d)
    case Some(s) => s
    case None => Fallback(d)
  }

  lemma {:induction false} SearchPicks(cs: seq<Option<Sector>>, k: nat, best: Option<Sector>, ref: real, tie: real,
      balance: bool)
    requires k <= |cs|
    ensures var r := Search(cs, k, best, ref, tie, balance); r == best || (r.Some? && r in cs)
    decreases |cs| - k
  {
    if k < |cs| {
      SearchPicks(cs, k + 1, best, ref, tie, balance);
      SearchPicks(cs, k + 1, cs[k], ref, tie, balance);
    }
  }

  lemma SearchRealizes(d: Drive, first: Option<Sector>)
    requires IsDrive(d) && (first.Some? ==> IsRealization(d, first.value))
    ensures var r := Search(Candidates(d), 0, first, d.ref, Tie(d), d.balance);
            r.Some? ==> IsRealization(d, r.value)
  {
    var cs := Candidates(d);
    SearchPicks(cs, 0, first, d.ref, Tie(d), d.balance);
    forall k | 0 <= k < 6 && cs[k].Some?
      ensures IsRealization(d, cs[k].value)
    {
      SectorRealizes(d, MASKS[k]);
    }
  }

  /** The direct realization always exists and is exact. */
  lemma FallbackRealizes(d: Drive)
    requires IsLimited(d)
    ensures IsRealization(d, Fallback(d))
  {
    FallbackIs(d);
    var o := Direct(d).offset;
    DirectDutyRealizes(d.phase.a + o, d.p, d.n);
    DirectDutyRealizes(d.phase.b + o, d.p, d.n);
    DirectDutyRealizes(d.phase.c + o, d.p, d.n);
  }

  /** No phase is positive. */
  predicate IsIdle(d: Drive) {
    !Preferred(d).a && !Preferred(d).b && !Preferred(d).c
  }

  predicate Resting(duty: Duty) {
    duty.p == 0.0 && duty.o == 1.0 && duty.n == 0.0
  }

  /** All phases rest at the midpoint. */
  predicate AllResting(d: Drive, s: Sector) {
    && Resting(s.duty.a) && Resting(s.duty.b) && Resting(s.duty.c)
    && s.midpoint == Drawn(s.duty, d.current) && s.offset == 0.0
  }

  /** Only the zero reference has no positive phase. */
  lemma IdleIsZero(d: Drive)
    requires IsLimited(d)
    ensures IsIdle(d) <==> d.phase.a == 0.0 && d.phase.b == 0.0 && d.phase.c == 0.0
  {
  }

  lemma RestingPole(duty: Duty, p: real, n: real)
    requires Resting(duty)
    ensures ValidDuty(duty) && Pole(duty, p, n) == 0.0
  {
    MulZero(p);
    MulZero(n);
  }

  /** Resting phases realize the zero reference. */
  lemma RestingRealizes(d: Drive, s: Sector)
    requires d.phase.a == 0.0 && d.phase.b == 0.0 && d.phase.c == 0.0 && AllResting(d, s)
    ensures IsRealization(d, s)
  {
    RestingPole(s.duty.a, d.p, d.n);
    RestingPole(s.duty.b, d.p, d.n);
    RestingPole(s.duty.c, d.p, d.n);
  }

  lemma ChooseRealizes(d: Drive)
    requires IsDrive(d)
    ensures Choose(d).Some? ==> IsRealization(d, Choose(d).value)
  {
    SectorRealizes(d, Preferred(d));
    SearchRealizes(d, TrySector(d, Preferred(d)));
  }

  /** Whatever the reference and the split of the bus, the instantaneous mode delivers
      valid duties realizing the limited reference. */
  lemma ModulateRealizes(d: Drive)
    requires IsLimited(d)
    ensures IsRealization(d, Modulate(d))
  {
    ChooseRealizes(d);
    if Choose(d).None? {
      FallbackRealizes(d);
    }
  }

  /** With equal half buses the sign sector is always feasible. */
  lemma SignSectorFeasible(d: Drive)
    requires IsLimited(d) && d.p == d.n == 1.0
    ensures Lower(d, Preferred(d)) <= Upper(d, Preferred(d))
  {
  }

  /** So without balancing the search and the fallback are never needed. */
  lemma EqualBusesUseSignSector(d: Drive)
    requires IsLimited(d) && d.p == d.n == 1.0 && !d.balance && !IsIdle(d)
    ensures TrySector(d, Preferred(d)) == Some(Modulate(d))
  {
    SignSectorFeasible(d);
  }

  /** The search never gets worse than what it starts from... */
  lemma {:induction false} SearchKeeps(cs: seq<Option<Sector>>, k: nat, best: Sector, ref: real, tie: real)
    requires k <= |cs| && tie >= 0.0
    ensures var r := Search(cs, k, Some(best), ref, tie, true); r.Some? && Error(r.value, ref) <= Error(best, ref)
    decreases |cs| - k
  {
    if k < |cs| {
      SearchKeeps(cs, k + 1, best, ref, tie);
      if cs[k].Some? {
        SearchKeeps(cs, k + 1, cs[k].value, ref, tie);
      }
    }
  }

  /** ... nor, beyond the tie tolerance, than any candidate it visits. */
  lemma {:induction false} SearchBest(cs: seq<Option<Sector>>, k: nat, best: Option<Sector>, ref: real, tie: real,
      j: nat)
    requires k <= j < |cs| && cs[j].Some? && tie >= 0.0
    ensures var r := Search(cs, k, best, ref, tie, true);
            r.Some? && Error(r.value, ref) <= Error(cs[j].value, ref) + tie
    decreases |cs| - k
  {
    if k < j {
      SearchBest(cs, k + 1, best, ref, tie, j);
      SearchBest(cs, k + 1, cs[k], ref, tie, j);
    } else {
      SearchKeeps(cs, k + 1, Better(cs[k].value, best, ref, tie), ref, tie);
    }
  }

  /** With balancing and a nonzero reference, no offset of any mapping tracks the wanted
      midpoint current better by more than the tie tolerance. */
  lemma ModulateBalancesBest(d: Drive, j: nat, o: real)
    requires IsLimited(d) && d.balance && !IsIdle(d)
    requires j < 6 && Lower(d, MASKS[j]) <= o <= Upper(d, MASKS[j])
    ensures Tracks(d, Modulate(d), Mid(d, MASKS[j], o))
  {
    DrawnIsMid(d, MASKS[j]);
    OffsetOptimal(d, MASKS[j], o);
    var first, cs := TrySector(d, Preferred(d)), Candidates(d);
    if MASKS[j] == Preferred(d) {
      SearchKeeps(cs, 0, first.value, d.ref, Tie(d));
    } else {
      SearchBest(cs, 0, first, d.ref, Tie(d), j);
    }
  }

  // ----- Which mapping is chosen -----

  lemma {:induction false} SearchSwitches(cs: seq<Option<Sector>>, k: nat, best: Sector, ref: real, tie: real)
    requires k <= |cs| && tie >= 0.0
    ensures var r := Search(cs, k, Some(best), ref, tie, true);
            r == Some(best) || (r.Some? && Error(r.value, ref) + tie < Error(best, ref))
    decreases |cs| - k
  {
    if k < |cs| {
      SearchSwitches(cs, k + 1, best, ref, tie);
      if cs[k].Some? {
        SearchSwitches(cs, k + 1, cs[k].value, ref, tie);
      }
    }
  }

  lemma ChoiceAfter(d: Drive, first: Sector, cs: seq<Option<Sector>>)
    requires IsDrive(d) && TrySector(d, Preferred(d)) == Some(first) && cs == Candidates(d)
    ensures Choose(d) == if d.balance then Search(cs, 0, Some(first), d.ref, Tie(d), true) else Some(first)
  {
  }

  /** The sign sector is left only for one that tracks better by more than the tie. */
  lemma SignSectorIsKept(d: Drive, first: Sector)
    requires IsLimited(d) && TrySector(d, Preferred(d)) == Some(first)
    ensures Modulate(d) == first || (d.balance && Error(Modulate(d), d.ref) + Tie(d) < Error(first, d.ref))
  {
    var cs := Candidates(d);
    ChoiceAfter(d, first, cs);
    SearchSwitches(cs, 0, first, d.ref, Tie(d));
  }

  ghost predicate NoneBefore(cs: seq<Option<Sector>>, j: nat) {
    j < |cs| && forall i :: 0 <= i < j ==> cs[i].None?
  }

  lemma {:induction false} SearchTakesFirst(cs: seq<Option<Sector>>, k: nat, ref: real, tie: real, j: nat)
    requires NoneBefore(cs, j) && k <= j && cs[j].Some?
    ensures Search(cs, k, None, ref, tie, false) == cs[j]
    decreases |cs| - k
  {
    if k < j {
      SearchTakesFirst(cs, k + 1, ref, tie, j);
    }
  }

  lemma CandidateIs(d: Drive, j: nat)
    requires IsDrive(d) && j < 6
    ensures Candidates(d)[j] == if MASKS[j] == Preferred(d) then None else TrySector(d, MASKS[j])
  {
  }

  /** Mapping `j` is the first feasible one, and not that of the signs. */
  ghost predicate IsFirstFeasible(d: Drive, j: nat) {
    && j < 6 && Feasible(d, MASKS[j]) && !Feasible(d, Preferred(d))
    && forall i :: 0 <= i < j ==> !Feasible(d, MASKS[i])
  }

  lemma CandidatesBefore(d: Drive, j: nat)
    requires IsDrive(d) && IsFirstFeasible(d, j)
    ensures NoneBefore(Candidates(d), j) && Candidates(d)[j] == Some(Solve(d, MASKS[j]))
  {
    CandidateIs(d, j);
    forall i | 0 <= i < j
      ensures Candidates(d)[i].None?
    {
      CandidateIs(d, i);
    }
  }

  lemma ChoiceWithout(d: Drive, cs: seq<Option<Sector>>, taken: Sector)
    requires IsDrive(d) && !d.balance && TrySector(d, Preferred(d)).None? && cs == Candidates(d)
    requires Search(cs, 0, None, d.ref, Tie(d), false) == Some(taken)
    ensures Modulate(d) == taken
  {
  }

  /** Without balancing an infeasible sign sector gives way to the first feasible one. */
  lemma FirstFeasibleIsTaken(d: Drive, j: nat)
    requires IsLimited(d) && !d.balance && IsFirstFeasible(d, j)
    ensures Modulate(d) == Solve(d, MASKS[j])
  {
    var cs := Candidates(d);
    CandidatesBefore(d, j);
    SearchTakesFirst(cs, 0, d.ref, Tie(d), j);
    ChoiceWithout(d, cs, Solve(d, MASKS[j]));
  }

  lemma {:induction false} SearchFinds(cs: seq<Option<Sector>>, k: nat, best: Option<Sector>, ref: real, tie: real,
      balance: bool)
    requires k <= |cs|
    ensures Search(cs, k, best, ref, tie, balance).None? <==> best.None? && forall j :: k <= j < |cs| ==> cs[j].None?
    decreases |cs| - k
  {
    if k < |cs| {
      SearchFinds(cs, k + 1, best, ref, tie, balance);
      if cs[k].Some? {
        SearchFinds(cs, k + 1, Some(Better(cs[k].value, best, ref, tie)), ref, tie, balance);
      }
    }
  }

  lemma SignsAreMapping(d: Drive) returns (j: nat)
    requires IsLimited(d) && !IsIdle(d)
    ensures j < 6 && MASKS[j] == Preferred(d)
  {
    var m := Preferred(d);
    j := if m.a then if m.b then 1 else if m.c then 5 else 0 else if m.b then if m.c then 3 else 2 else 4;
  }

  ghost predicate NoneFeasible(d: Drive) {
    forall j :: 0 <= j < 6 ==> !Feasible(d, MASKS[j])
  }

  lemma NoCandidates(d: Drive)
    requires IsLimited(d) && !IsIdle(d)
    ensures NoneFeasible(d) <==> !Feasible(d, Preferred(d)) && forall j :: 0 <= j < 6 ==> Candidates(d)[j].None?
  {
    var sign := SignsAreMapping(d);
    forall j | 0 <= j < 6
      ensures Candidates(d)[j].None? <==> MASKS[j] == Preferred(d) || !Feasible(d, MASKS[j])
    {
      CandidateIs(d, j);
    }
  }

  /** The direct realization is used exactly when no mapping is feasible. */
  lemma FallbackIsLast(d: Drive)
    requires IsLimited(d) && !IsIdle(d)
    ensures Choose(d).None? <==> NoneFeasible(d)
    ensures NoneFeasible(d) ==> Modulate(d) == Direct(d)
  {
    FallbackIs(d);
    NoCandidates(d);
    SearchFinds(Candidates(d), 0, TrySector(d, Preferred(d)), d.ref, Tie(d), d.balance);
  }

  /** Without balancing the offset, like that of the direct realization, is midway. */
  lemma OffsetIsMidway(d: Drive, m: Mask)
    requires IsDrive(d)
    ensures !d.balance ==> Upper(d, m) - Offset(d, m) == Offset(d, m) - Lower(d, m)
    ensures d.p - (Max3(d.phase) + Direct(d).offset) == Min3(d.phase) + Direct(d).offset + d.n
  {
  }

  /** At the zero reference the only offset of any mapping is zero, and draws what
      resting draws. */
  lemma RestingIsEveryMapping(d: Drive, s: Sector, j: nat, o: real)
    requires IsLimited(d) && IsIdle(d) && AllResting(d, s)
    requires j < 6 && Lower(d, MASKS[j]) <= o <= Upper(d, MASKS[j])
    ensures o == 0.0 && s.midpoint == Mid(d, MASKS[j], o)
  {
    IdleIsZero(d);
    ShareAtZero(d, MASKS[j].a);
    ShareAtZero(d, MASKS[j].b);
    ShareAtZero(d, MASKS[j].c);
  }

  lemma ShareAtZero(d: Drive, high: bool)
    requires IsDrive(d)
    ensures Share(d, high, 0.0) == 1.0
  {
  }

  /** What the instantaneous mode returns: the search's choice, or rest. */
  predicate IsInstantaneous(d: Drive, s: Sector)
    requires IsDrive(d)
  {
    if IsIdle(d) then AllResting(d, s) else s == Modulate(d)
  }

  /** The sector tracks the wanted midpoint current as well as `mid`, up to the tie. */
  predicate Tracks(d: Drive, s: Sector, mid: real) {
    Error(s, d.ref) <= Abs(mid - d.ref) + Tie(d)
  }

  lemma RestingTracks(d: Drive, s: Sector, j: nat, o: real)
    requires IsLimited(d) && IsIdle(d) && AllResting(d, s)
    requires j < 6 && Lower(d, MASKS[j]) <= o <= Upper(d, MASKS[j])
    ensures Tracks(d, s, Mid(d, MASKS[j], o))
  {
    RestingIsEveryMapping(d, s, j, o);
  }

  /** With balancing, no offset of any mapping tracks the wanted midpoint current better
      by more than the tie tolerance, the zero reference included. */
  lemma {:induction false} BalancesBest(d: Drive, s: Sector, j: nat, o: real)
    requires IsLimited(d) && d.balance && IsInstantaneous(d, s)
    requires j < 6 && Lower(d, MASKS[j]) <= o <= Upper(d, MASKS[j])
    ensures Tracks(d, s, Mid(d, MASKS[j], o))
  {
    if IsIdle(d) {
      RestingTracks(d, s, j, o);
    } else {
      ModulateBalancesBest(d, j, o);
    }
  }
}
