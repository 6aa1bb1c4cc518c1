/** The sector codec itself (code/lib/bch4.c). */
module Bch4 {

  // Shift-and-reduce multiplication, inversion by square-and-multiply, syndromes,
  // the systematic shift-register encoder, and the Berlekamp-Massey / root-search
  // corrector, each as the in-place loop of the source and each proved against the
  // algebra of Gf13, BchTheory and BchWords.

  import opened Gf13
  import opened BchTheory
  import opened BchWords
  import BchEncoder

  const POLY: bv32 := 0x201B

  // ----- Field arithmetic on the source's 32-bit temporaries -----

  function Low(x: bv32): bv13 {
    (x & 0x1FFF) as bv13
  }

  /** Shift left and reduce, as the source writes it on a 32-bit temporary. */
  function ShiftReduce(power: bv32): bv32 {
    if (power << 1) & 0x2000 != 0 then (power << 1) ^ POLY else power << 1
  }

  lemma ShiftReduceIsXtime(power: bv32)
    requires power < 0x2000
    ensures ShiftReduce(power) < 0x2000
    ensures Low(ShiftReduce(power)) == Xtime(Low(power))
  {
  }

  lemma HalveLow(right: bv32)
    requires right < 0x2000
    ensures right >> 1 < 0x2000 && Low(right >> 1) == Low(right) >> 1
    ensures (right & 1 != 0) <==> (Low(right) & 1 != 0)
  {
  }

  lemma XorLow(x: bv32, y: bv32)
    requires x < 0x2000 && y < 0x2000
    ensures x ^ y < 0x2000 && Low(x ^ y) == Add(Low(x), Low(y))
  {
  }

  lemma WidenLow(a: bv13)
    ensures (a as bv32) < 0x2000 && Low(a as bv32) == a
  {
  }

  lemma NarrowLow(x: bv32)
    requires x < 0x2000
    ensures x as bv13 == Low(x)
  {
  }

  method Multiply(a: bv13, b: bv13) returns (product: bv13)
    ensures product == Mul(a, b)
  {
    var left, right, result: bv32 := a as bv32, b as bv32, 0;
    WidenLow(a);
    WidenLow(b);
    MulIsBits(a, b);
    AddZero(Mul(a, b));
    for i := 0 to 13
      invariant left < 0x2000 && right < 0x2000 && result < 0x2000
      invariant Add(Low(result), MulBits(Low(left), Low(right), 13 - i)) == Mul(a, b)
    {
      HalveLow(right);
      XorLow(result, left);
      ShiftReduceIsXtime(left);
      AddZero(Low(result));
      AddAssoc(Low(result), Pick(Low(right), Low(left)), MulBits(Xtime(Low(left)), Low(right) >> 1, 12 - i));
      if right & 1 != 0 {
        result := result ^ left;
      }
      right := right >> 1;
      left := ShiftReduce(left);
    }
    NarrowLow(result);
    AddZero(Low(result));
    product := result as bv13;
  }

  lemma PowHalves(a: bv13, e: nat)
    ensures Pow(a, e) == Mul(if e % 2 == 1 then a else 1, Pow(Mul(a, a), e / 2))
  {
    var h := e / 2;
    PowOne(a);
    assert Pow(a, 2) == Mul(a, a);
    PowPow(a, 2, h);
    if e % 2 == 1 {
      assert e == 1 + 2 * h;
      PowAdd(a, 1, 2 * h);
    } else {
      MulOne(Pow(a, e));
    }
  }

  method Inverse(value: bv13) returns (result: bv13)
    ensures result == Inv(value)
    ensures value != 0 ==> Mul(value, result) == 1
  {
    result := 1;
    var factor: bv13, exponent: nat := value, 8190;
    MulOne(Inv(value));
    assert Two(13) == 8192;
    for i := 0 to 13
      invariant exponent < Two(13 - i)
      invariant Mul(result, Pow(factor, exponent)) == Inv(value)
    {
      PowHalves(factor, exponent);
      var rest := Pow(Mul(factor, factor), exponent / 2);
      MulAssoc(result, factor, rest);
      MulOne(rest);
      if exponent % 2 != 0 {
        result := Multiply(result, factor);
      }
      factor := Multiply(factor, factor);
      exponent := exponent / 2;
    }
    MulOne(result);
    if value != 0 {
      InverseLaw(value);
    }
  }

  // ----- Syndromes -----

  lemma NextPower(k: nat, bit: nat)
    ensures Mul(Pow(2, k), Pow(Alpha(bit), k)) == Pow(Alpha(bit + 1), k)
  {
    PowPow(2, bit, k);
    PowPow(2, bit + 1, k);
    PowAdd(2, k, bit * k);
    assert k + bit * k == (bit + 1) * k;
  }

  /** `steps` shift-and-reduce steps on one running power. */
  method Advance(power: bv13, steps: nat) returns (next: bv13)
    ensures next == Mul(Pow(2, steps), power)
  {
    var wide := power as bv32;
    WidenLow(power);
    MulOne(power);
    for j := 0 to steps
      invariant wide < 0x2000 && Low(wide) == Mul(Pow(2, j), power)
    {
      ShiftReduceIsXtime(wide);
      TimesAlpha(Low(wide));
      MulAssoc(2, Pow(2, j), power);
      wide := ShiftReduce(wide);
    }
    NarrowLow(wide);
    next := wide as bv13;
  }

  lemma OrIsZero(a: bv13, b: bv13)
    ensures a | b == 0 <==> a == 0 && b == 0
  {
  }

  lemma SyndromeStep(w: seq<bool>, k: nat, bit: nat)
    requires bit < |w|
    ensures Syndrome(w, k, bit + 1)
         == if w[bit] then Add(Syndrome(w, k, bit), Pow(Alpha(bit), k)) else Syndrome(w, k, bit)
  {
    AddZero(Syndrome(w, k, bit));
  }

  /** Running powers and odd syndrome sums after `bit` code bits; the first `done`
      of the four already include the next bit. */
  ghost predicate OddSums(s: seq<bv13>, powers: seq<bv13>, w: seq<bool>, done: nat, bit: nat)
    requires bit < |w|
  {
    && |s| == 9 && |powers| == 4 && s[0] == 0
    && (forall k :: 0 <= k < 4 ==> powers[k] == Pow(Alpha(if k < done then bit + 1 else bit), 2 * k + 1))
    && (forall k :: 0 <= k < 4 ==> s[2 * k + 1] == Syndrome(w, 2 * k + 1, if k < done then bit + 1 else bit))
  }

  /** The same between bits. */
  ghost predicate SumsAt(s: seq<bv13>, powers: seq<bv13>, w: seq<bool>, bit: nat)
    requires bit <= |w|
  {
    && |s| == 9 && |powers| == 4 && s[0] == 0
    && (forall k :: 0 <= k < 4 ==> powers[k] == Pow(Alpha(bit), 2 * k + 1))
    && (forall k :: 0 <= k < 4 ==> s[2 * k + 1] == Syndrome(w, 2 * k + 1, bit))
  }

  lemma OddSumsStep(s: seq<bv13>, powers: seq<bv13>, w: seq<bool>, k: nat, bit: nat, sum: bv13, power: bv13)
    requires bit < |w| && k < 4 && OddSums(s, powers, w, k, bit)
    requires sum == Syndrome(w, 2 * k + 1, bit + 1)
    requires power == Pow(Alpha(bit + 1), 2 * k + 1)
    ensures OddSums(s[2 * k + 1 := sum], powers[k := power], w, k + 1, bit)
  {
  }

  method AccumulateOne(isSet: bool, bit: nat, k: nat, sum: bv13, power: bv13, ghost w: seq<bool>)
    returns (nextSum: bv13, nextPower: bv13)
    requires bit < |w| && w[bit] == isSet
    requires sum == Syndrome(w, k, bit) && power == Pow(Alpha(bit), k)
    ensures nextSum == Syndrome(w, k, bit + 1) && nextPower == Pow(Alpha(bit + 1), k)
  {
    SyndromeStep(w, k, bit);
    NextPower(k, bit);
    nextSum := if isSet then Add(sum, power) else sum;
    nextPower := Advance(power, k);
  }

  method AccumulateBit(isSet: bool, bit: nat, powers: array<bv13>, s: array<bv13>, ghost w: seq<bool>)
    requires bit < |w| && w[bit] == isSet
    requires s != powers && SumsAt(s[..], powers[..], w, bit)
    modifies powers, s
    ensures SumsAt(s[..], powers[..], w, bit + 1)
  {
    for k := 0 to 4
      invariant OddSums(s[..], powers[..], w, k, bit)
    {
      ghost var s0, p0 := s[..], powers[..];
      var sum, power := AccumulateOne(isSet, bit, 2 * k + 1, s[2 * k + 1], powers[k], w);
      OddSumsStep(s0, p0, w, k, bit, sum, power);
      s[2 * k + 1] := sum;
      powers[k] := power;
      assert s[..] == s0[2 * k + 1 := sum];
      assert powers[..] == p0[k := power];
    }
  }

  method FillEven(s: array<bv13>, ghost w: seq<bool>)
    requires |w| == BITS && s.Length == 9 && s[0] == 0
    requires forall k :: 1 <= k <= 8 && k % 2 == 1 ==> s[k] == Syndrome(w, k, BITS)
    modifies s
    ensures s[0] == 0 && forall k :: 1 <= k <= 8 ==> s[k] == Syndrome(w, k, BITS)
  {
    for k := 1 to 5
      invariant s[0] == 0
      invariant forall i :: 1 <= i <= 8 && (i % 2 == 1 || i < 2 * k) ==> s[i] == Syndrome(w, i, BITS)
    {
      var square := Multiply(s[k], s[k]);
      assert square == Syndrome(w, 2 * k, BITS) by {
        EvenSyndrome(w, k, BITS);
      }
      s[2 * k] := square;
    }
  }

  method AnyNonzero(s: array<bv13>) returns (any: bool)
    requires s.Length == 9
    ensures any <==> exists k :: 1 <= k <= 8 && s[k] != 0
  {
    var mask: bv13 := 0;
    for k := 1 to 9
      invariant mask == 0 <==> forall i :: 1 <= i < k ==> s[i] == 0
    {
      OrIsZero(mask, s[k]);
      mask := mask | s[k];
    }
    any := mask != 0;
  }

  /** Clear the sums and start all four powers at one. */
  method StartSums(s: array<bv13>) returns (powers: array<bv13>)
    requires s.Length == 9
    modifies s
    ensures fresh(powers) && powers.Length == 4
    ensures forall j :: 0 <= j < 9 ==> s[j] == 0
    ensures forall k :: 0 <= k < 4 ==> powers[k] == Pow(Alpha(0), 2 * k + 1)
  {
    for i := 0 to 9
      invariant forall j :: 0 <= j < i ==> s[j] == 0
    {
      s[i] := 0;
    }
    powers := new bv13[4](i => 1);
    forall k | 0 <= k < 4
      ensures powers[k] == Pow(Alpha(0), 2 * k + 1)
    {
      OnePow(2 * k + 1);
    }
  }

  method OddSyndromes(data: array<bv8>, ecc: array<bv8>, s: array<bv13>)
    requires data.Length == DATA_SIZE && ecc.Length == ECC_SIZE && s.Length == 9
    modifies s
    ensures s[0] == 0
    ensures forall k :: 1 <= k <= 8 && k % 2 == 1 ==> s[k] == Syndrome(Word(data[..], ecc[..]), k, BITS)
  {
    ghost var w := Word(data[..], ecc[..]);
    var powers := StartSums(s);
    for bit := 0 to BITS
      invariant fresh(powers) && SumsAt(s[..], powers[..], w, bit)
    {
      AccumulateBit(BitAt(data[..], ecc[..], bit), bit, powers, s, w);
    }
    forall k | 1 <= k <= 8 && k % 2 == 1
      ensures s[k] == Syndrome(w, k, BITS)
    {
      assert k == 2 * (k / 2) + 1;
    }
  }

  method ComputeSyndromes(data: array<bv8>, ecc: array<bv8>, s: array<bv13>) returns (any: bool)
    requires data.Length == DATA_SIZE && ecc.Length == ECC_SIZE && s.Length == 9
    modifies s
    ensures s[0] == 0
    ensures forall k :: 1 <= k <= 8 ==> s[k] == Syndrome(Word(data[..], ecc[..]), k, BITS)
    ensures any <==> !IsCodeword(Word(data[..], ecc[..]))
  {
    ghost var w := Word(data[..], ecc[..]);
    OddSyndromes(data, ecc, s);
    FillEven(s, w);
    any := AnyNonzero(s);
  }

  // ----- The Berlekamp-Massey iteration -----

  method Discrepancy(locator: array<bv13>, s: array<bv13>, degree: nat, n: nat) returns (d: bv13)
    requires locator.Length == 9 && s.Length == 9 && degree <= n < 8 && locator[0] == 1
    ensures d == Convolve(locator[..], s[..], degree, n + 1)
  {
    d := s[n + 1];
    MulOne(d);
    for j := 1 to degree + 1
      invariant d == Convolve(locator[..], s[..], j - 1, n + 1)
    {
      var term := Multiply(locator[j], s[n + 1 - j]);
      d := Add(d, term);
    }
  }

  /** locator += ratio * x^shift * previous, in place. */
  method AddScaled(locator: array<bv13>, previous: array<bv13>, ratio: bv13, shift: nat)
    requires locator.Length == 9 && previous.Length == 9 && locator != previous
    modifies locator
    ensures locator[..] == Combine(old(locator[..]), previous[..], ratio, shift)
  {
    ghost var c := locator[..];
    var j := 0;
    while j + shift < 9
      invariant 0 <= j && (j + shift <= 9 || j == 0)
      invariant forall i :: 0 <= i < 9 && i < j + shift ==> locator[i] == Combine(c, previous[..], ratio, shift)[i]
      invariant forall i :: j + shift <= i < 9 ==> locator[i] == c[i]
      decreases 9 - j
    {
      var term := Multiply(ratio, previous[j]);
      locator[j + shift] := Add(locator[j + shift], term);
      j := j + 1;
    }
  }

  /** What `xs` being the true error locators means for the decoder's input. */
  ghost predicate Explains(xs: seq<bv13>, s: seq<bv13>) {
    Locators(xs) && 1 <= |xs| <= 4 && Syndromes(s, xs)
  }

  function Unit(): (c: seq<bv13>)
    ensures |c| == 9 && c[0] == 1 && forall i :: 1 <= i < 9 ==> c[i] == 0
  {
    [1, 0, 0, 0, 0, 0, 0, 0, 0]
  }

  lemma MasseyStart(s: seq<bv13>)
    requires |s| == 9
    ensures Massey(s, 0, Unit(), Unit(), 0, 1, 1)
  {
  }

  method UnitArray() returns (a: array<bv13>)
    ensures fresh(a) && a[..] == Unit()
  {
    a := new bv13[9](i => 0);
    a[0] := 1;
  }

  method Copy(a: array<bv13>) returns (b: array<bv13>)
    ensures fresh(b) && b[..] == a[..]
  {
    b := new bv13[a.Length](i => 0);
    for i := 0 to a.Length
      invariant forall j :: 0 <= j < i ==> b[j] == a[j]
    {
      b[i] := a[i];
    }
  }

  lemma RatioTimesScale(d: bv13, scale: bv13, inv: bv13)
    requires Mul(scale, inv) == 1
    ensures Mul(Mul(d, inv), scale) == d
  {
    MulAssoc(d, inv, scale);
    MulComm(inv, scale);
    MulOne(d);
  }

  method FindRatio(d: bv13, scale: bv13) returns (ratio: bv13)
    requires scale != 0
    ensures Mul(ratio, scale) == d
  {
    var inv := Inverse(scale);
    ratio := Multiply(d, inv);
    RatioTimesScale(d, scale, inv);
  }

  /** The decoder's length never exceeds the number of errors, by Massey's bound. */
  lemma LengthStaysBounded(s: seq<bv13>, n: nat, c: seq<bv13>, b: seq<bv13>, L: nat, shift: nat, scale: bv13,
      xs: seq<bv13>)
    requires Massey(s, n, c, b, L, shift, scale) && n < 8
    requires Explains(xs, s) && L <= |xs|
    requires Convolve(c, s, L, n + 1) != 0
    ensures NextLength(n, L) <= |xs|
  {
    MasseyBound(c, s, xs, L, n);
  }

  /** After all eight syndromes the locator's roots are exactly the error locators. */
  lemma LocatorIsFound(s: seq<bv13>, c: seq<bv13>, b: seq<bv13>, L: nat, shift: nat, scale: bv13, xs: seq<bv13>)
    requires Massey(s, 8, c, b, L, shift, scale)
    requires Explains(xs, s) && L <= |xs|
    ensures L == |xs|
    ensures forall x :: x != 0 ==> (Horner(c, L, x) == 0 <==> x in xs)
  {
    EnoughEquations(c, s, xs, L, 8);
    RootsAreLocators(c, L, xs);
  }

  /** One nonzero-discrepancy update of the decoder's variables. */
  method Update(ghost s: seq<bv13>, n: nat, locator: array<bv13>, previous: array<bv13>, degree: nat, shift: nat,
      scale: bv13, d: bv13)
    returns (previous': array<bv13>, degree': nat, shift': nat, scale': bv13)
    requires locator.Length == 9 && previous.Length == 9 && locator != previous && n < 8
    requires Massey(s, n, locator[..], previous[..], degree, shift, scale)
    requires d == Convolve(locator[..], s, degree, n + 1) != 0
    modifies locator
    ensures previous' == previous || fresh(previous')
    ensures previous'.Length == 9 && previous' != locator
    ensures degree' == NextLength(n, degree)
    ensures Massey(s, n + 1, locator[..], previous'[..], degree', shift', scale')
  {
    var ratio := FindRatio(d, scale);
    var saved := Copy(locator);
    MasseyUpdate(s, n, locator[..], previous[..], degree, shift, scale, ratio);
    AddScaled(locator, previous, ratio, shift);
    if 2 * degree <= n {
      previous', degree', shift', scale' := saved, n + 1 - degree, 1, d;
    } else {
      previous', degree', shift', scale' := previous, degree, shift + 1, scale;
    }
  }

  /** One turn: the discrepancy decides between keeping the locator and updating it. */
  method Turn(s: array<bv13>, n: nat, locator: array<bv13>, previous: array<bv13>, degree: nat, shift: nat,
      scale: bv13, ghost xs: seq<bv13>)
    returns (previous': array<bv13>, degree': nat, shift': nat, scale': bv13)
    requires s.Length == locator.Length == previous.Length == 9 && n < 8
    requires locator != previous && locator != s
    requires Massey(s[..], n, locator[..], previous[..], degree, shift, scale)
    requires Explains(xs, s[..]) ==> degree <= |xs|
    modifies locator
    ensures previous' == previous || fresh(previous')
    ensures previous'.Length == 9 && previous' != locator
    ensures Massey(s[..], n + 1, locator[..], previous'[..], degree', shift', scale')
    ensures Explains(xs, s[..]) ==> degree' <= |xs|
  {
    var d := Discrepancy(locator, s, degree, n);
    if d == 0 {
      MasseyKeep(s[..], n, locator[..], previous[..], degree, shift, scale);
      previous', degree', shift', scale' := previous, degree, shift + 1, scale;
    } else {
      if Explains(xs, s[..]) {
        LengthStaysBounded(s[..], n, locator[..], previous[..], degree, shift, scale, xs);
      }
      previous', degree', shift', scale' := Update(s[..], n, locator, previous, degree, shift, scale, d);
    }
  }

  method FindLocator(s: array<bv13>, ghost xs: seq<bv13>) returns (locator: array<bv13>, degree: nat)
    requires s.Length == 9
    ensures fresh(locator) && locator.Length == 9 && degree <= 8 && locator[0] == 1
    ensures Explains(xs, s[..]) ==> degree == |xs|
    ensures Explains(xs, s[..]) ==> forall x :: x != 0 ==> (Horner(locator[..], degree, x) == 0 <==> x in xs)
  {
    locator := UnitArray();
    var previous := UnitArray();
    degree := 0;
    var shift: nat, scale: bv13 := 1, 1;
    MasseyStart(s[..]);
    for n := 0 to 8
      invariant fresh(locator) && fresh(previous) && locator != previous
      invariant locator.Length == previous.Length == 9
      invariant Massey(s[..], n, locator[..], previous[..], degree, shift, scale)
      invariant Explains(xs, s[..]) ==> degree <= |xs|
    {
      previous, degree, shift, scale := Turn(s, n, locator, previous, degree, shift, scale, xs);
    }
    if Explains(xs, s[..]) {
      LocatorIsFound(s[..], locator[..], previous[..], degree, shift, scale, xs);
    }
  }

  // ----- The root search -----

  /** Shift right and reduce: the source's multiplication by alpha^-1. */
  function ShiftBack(term: bv32): bv32 {
    if term & 1 != 0 then (term ^ POLY) >> 1 else term >> 1
  }

  lemma ShiftBackIsInvXtime(term: bv32)
    requires term < 0x2000
    ensures ShiftBack(term) < 0x2000
    ensures Low(ShiftBack(term)) == InvXtime(Low(term))
  {
  }

  method Retreat(term: bv13, steps: nat) returns (next: bv13)
    ensures Mul(next, Pow(2, steps)) == term
  {
    var wide := term as bv32;
    WidenLow(term);
    MulOne(term);
    for k := 0 to steps
      invariant wide < 0x2000 && Mul(Low(wide), Pow(2, k)) == term
    {
      ShiftBackIsInvXtime(wide);
      InvXtimeUndoes(Low(wide));
      TimesAlpha(InvXtime(Low(wide)));
      MulAssoc(InvXtime(Low(wide)), 2, Pow(2, k));
      wide := ShiftBack(wide);
    }
    NarrowLow(wide);
    next := wide as bv13;
  }

  function SumTo(terms: seq<bv13>, n: nat): bv13
    requires n < |terms|
  {
    if n == 0 then terms[0] else Add(SumTo(terms, n - 1), terms[n])
  }

  /** Terms c[j]*x^-j: their sum vanishes exactly when x is a root of the reciprocal. */
  ghost predicate TermsAt(terms: seq<bv13>, c: seq<bv13>, n: nat, x: bv13) {
    n < |terms| && n < |c| && forall j :: 0 <= j <= n ==> Mul(terms[j], Pow(x, j)) == c[j]
  }

  lemma {:induction false} SumIsHorner(terms: seq<bv13>, c: seq<bv13>, n: nat, k: nat, x: bv13)
    requires TermsAt(terms, c, n, x) && k <= n
    ensures Horner(c, k, x) == Mul(Pow(x, k), SumTo(terms, k))
    decreases k
  {
    assert Mul(terms[k], Pow(x, k)) == c[k];
    MulComm(terms[k], Pow(x, k));
    if k > 0 {
      SumIsHorner(terms, c, n, k - 1, x);
      MulAssoc(x, Pow(x, k - 1), SumTo(terms, k - 1));
      MulAdd(Pow(x, k), SumTo(terms, k - 1), terms[k]);
    }
  }

  lemma RootTest(terms: seq<bv13>, c: seq<bv13>, n: nat, x: bv13)
    requires TermsAt(terms, c, n, x) && x != 0
    ensures SumTo(terms, n) == 0 <==> Horner(c, n, x) == 0
  {
    SumIsHorner(terms, c, n, n, x);
    PowNonzero(x, n);
    MulZero(Pow(x, n));
    if Horner(c, n, x) == 0 {
      NoZeroDivisors(Pow(x, n), SumTo(terms, n));
    }
  }

  method Evaluate(terms: array<bv13>, degree: nat) returns (value: bv13)
    requires terms.Length == 5 && degree <= 4
    ensures value == SumTo(terms[..], degree)
  {
    value := terms[0];
    for j := 1 to degree + 1
      invariant value == SumTo(terms[..], j - 1)
    {
      value := Add(value, terms[j]);
    }
  }

  lemma RetreatTerm(next: bv13, term: bv13, c: bv13, j: nat, bit: nat)
    requires Mul(next, Pow(2, j)) == term && Mul(term, Pow(Alpha(bit), j)) == c
    ensures Mul(next, Pow(Alpha(bit + 1), j)) == c
  {
    NextPower(j, bit);
    MulAssoc(next, Pow(2, j), Pow(Alpha(bit), j));
  }

  /** The first `done` terms already belong to the next bit. */
  ghost predicate TermsBetween(terms: seq<bv13>, c: seq<bv13>, degree: nat, bit: nat, done: nat) {
    && degree < |terms| && degree < |c|
    && forall i :: 0 <= i <= degree ==> Mul(terms[i], Pow(Alpha(if i < done then bit + 1 else bit), i)) == c[i]
  }

  lemma TermsStep(terms: seq<bv13>, c: seq<bv13>, degree: nat, bit: nat, j: nat, next: bv13)
    requires TermsBetween(terms, c, degree, bit, j) && j <= degree && Mul(next, Pow(2, j)) == terms[j]
    ensures TermsBetween(terms[j := next], c, degree, bit, j + 1)
  {
    RetreatTerm(next, terms[j], c[j], j, bit);
  }

  method AdvanceTerms(terms: array<bv13>, degree: nat, bit: nat, ghost c: seq<bv13>)
    requires terms.Length == 5 && degree <= 4
    requires TermsAt(terms[..], c, degree, Alpha(bit))
    modifies terms
    ensures TermsAt(terms[..], c, degree, Alpha(bit + 1))
  {
    assert TermsBetween(terms[..], c, degree, bit, 1);
    for j := 1 to degree + 1
      invariant TermsBetween(terms[..], c, degree, bit, j)
    {
      ghost var was := terms[..];
      var next := Retreat(terms[j], j);
      TermsStep(was, c, degree, bit, j, next);
      terms[j] := next;
      assert terms[..] == was[j := next];
    }
  }

  /** Bit `i` is in error according to the locator. */
  ghost predicate RootAt(c: seq<bv13>, n: nat, i: nat)
    requires n < |c|
  {
    Horner(c, n, Alpha(i)) == 0
  }

  /** `v` is `w` with exactly the located bits below `bit` inverted. */
  ghost predicate CorrectedTo(w: seq<bool>, v: seq<bool>, c: seq<bv13>, n: nat, bit: nat)
    requires n < |c|
  {
    && |w| == |v| && bit <= |w|
    && (forall i :: 0 <= i < bit ==> v[i] == (w[i] != RootAt(c, n, i)))
    && (forall i :: bit <= i < |w| ==> v[i] == w[i])
  }

  lemma {:induction false} DifferencesOfPrefix(w: seq<bool>, v: seq<bool>, u: seq<bool>, n: nat)
    requires n <= |w| && n <= |v| && n <= |u|
    requires forall i :: 0 <= i < n ==> v[i] == u[i]
    ensures Differences(w, v, n) == Differences(w, u, n)
    decreases n
  {
    if n > 0 {
      DifferencesOfPrefix(w, v, u, n - 1);
    }
  }

  method FlipBit(data: array<bv8>, ecc: array<bv8>, bit: nat)
    requires data.Length == DATA_SIZE && ecc.Length == ECC_SIZE && data != ecc && bit < BITS
    modifies data, ecc
    ensures var w := old(Word(data[..], ecc[..])); Word(data[..], ecc[..]) == w[bit := !w[bit]]
    ensures ecc[6] & 0xF0 == old(ecc[6]) & 0xF0
  {
    if bit < PARITY {
      FlipEccWord(data[..], ecc[..], bit);
      SpareBitsKept(ecc[bit / 8], bit % 8);
      ghost var e := FlipEcc(ecc[..], bit);
      ecc[bit / 8] := FlipByte(ecc[bit / 8], bit % 8);
      assert ecc[..] == e;
    } else {
      FlipDataWord(data[..], ecc[..], bit);
      ghost var d := FlipData(data[..], bit);
      var index := bit - PARITY;
      data[index / 8] := FlipByte(data[index / 8], index % 8);
      assert data[..] == d;
    }
  }

  lemma SpareBitsKept(b: bv8, k: nat)
    requires k < 8
    ensures k < 4 ==> FlipByte(b, k) & 0xF0 == b & 0xF0
  {
    if k == 0 {
      assert (b ^ 1) & 0xF0 == b & 0xF0;
    } else if k == 1 {
      assert (b ^ 2) & 0xF0 == b & 0xF0;
    } else if k == 2 {
      assert (b ^ 4) & 0xF0 == b & 0xF0;
    } else if k == 3 {
      assert (b ^ 8) & 0xF0 == b & 0xF0;
    }
  }

  lemma OneMoreBit(w: seq<bool>, v: seq<bool>, u: seq<bool>, c: seq<bv13>, n: nat, bit: nat, found: nat)
    requires n < |c| && CorrectedTo(w, v, c, n, bit) && bit < |w|
    requires found == |Differences(w, v, bit)|
    requires u == if RootAt(c, n, bit) then v[bit := !v[bit]] else v
    ensures CorrectedTo(w, u, c, n, bit + 1)
    ensures |Differences(w, u, bit + 1)| == if RootAt(c, n, bit) then found + 1 else found
  {
    DifferencesOfPrefix(w, v, u, bit);
  }

  method StartTerms(locator: array<bv13>, degree: nat) returns (terms: array<bv13>)
    requires locator.Length == 9 && degree <= 4
    ensures fresh(terms) && terms.Length == 5 && TermsAt(terms[..], locator[..], degree, Alpha(0))
  {
    terms := new bv13[5](i requires 0 <= i < 5 reads locator => locator[i]);
    forall j | 0 <= j <= degree
      ensures Mul(terms[j], Pow(Alpha(0), j)) == locator[j]
    {
      OnePow(j);
      MulOne(locator[j]);
    }
  }

  /** The bits below `bit` are corrected, with `found` of them flipped. */
  ghost predicate Flipped(w: seq<bool>, v: seq<bool>, c: seq<bv13>, n: nat, bit: nat, found: nat)
    requires n < |c|
  {
    CorrectedTo(w, v, c, n, bit) && found == |Differences(w, v, bit)|
  }

  lemma NothingFlipped(w: seq<bool>, c: seq<bv13>, n: nat)
    requires n < |c|
    ensures Flipped(w, w, c, n, 0, 0)
  {
  }

  /** One bit position: flip it if the terms sum to zero there, and move the terms on. */
  method FlipIfRoot(data: array<bv8>, ecc: array<bv8>, terms: array<bv13>, degree: nat, bit: nat, found: nat,
      ghost w: seq<bool>, ghost c: seq<bv13>) returns (found': nat)
    requires data.Length == DATA_SIZE && ecc.Length == ECC_SIZE && data != ecc && terms.Length == 5
    requires 1 <= degree <= 4 && bit < BITS && |c| == 9 && |w| == BITS
    requires TermsAt(terms[..], c, degree, Alpha(bit))
    requires Flipped(w, Word(data[..], ecc[..]), c, degree, bit, found)
    modifies data, ecc
    ensures Flipped(w, Word(data[..], ecc[..]), c, degree, bit + 1, found')
    ensures ecc[6] & 0xF0 == old(ecc[6]) & 0xF0
  {
    ghost var v := Word(data[..], ecc[..]);
    var value := Evaluate(terms, degree);
    PowNonzero(2, bit);
    RootTest(terms[..], c, degree, Alpha(bit));
    found' := found;
    if value == 0 {
      FlipBit(data, ecc, bit);
      found' := found + 1;
    }
    OneMoreBit(w, v, Word(data[..], ecc[..]), c, degree, bit, found);
  }

  /** Flip every located bit; count the flips. */
  method FlipLocated(data: array<bv8>, ecc: array<bv8>, locator: array<bv13>, degree: nat) returns (found: nat)
    requires data.Length == DATA_SIZE && ecc.Length == ECC_SIZE && data != ecc
    requires locator.Length == 9 && 1 <= degree <= 4
    modifies data, ecc
    ensures CorrectedTo(old(Word(data[..], ecc[..])), Word(data[..], ecc[..]), locator[..], degree, BITS)
    ensures found == Distance(old(Word(data[..], ecc[..])), Word(data[..], ecc[..]))
    ensures ecc[6] & 0xF0 == old(ecc[6]) & 0xF0
  {
    ghost var w, c := Word(data[..], ecc[..]), locator[..];
    var terms := StartTerms(locator, degree);
    found := 0;
    NothingFlipped(w, c, degree);
    for bit := 0 to BITS
      invariant fresh(terms) && TermsAt(terms[..], c, degree, Alpha(bit))
      invariant Flipped(w, Word(data[..], ecc[..]), c, degree, bit, found)
      invariant ecc[6] & 0xF0 == old(ecc[6]) & 0xF0
    {
      found := FlipIfRoot(data, ecc, terms, degree, bit, found, w, c);
      AdvanceTerms(terms, degree, bit, c);
    }
  }

  // ----- The corrector -----

  /** A code word within four flips of `w`, or `w` itself if there is none. */
  ghost function Nearby(w: seq<bool>): (c: seq<bool>)
    requires |w| == BITS
    ensures |c| == BITS
    ensures (exists d :: Correctable(w, d)) ==> Correctable(w, c)
  {
    if exists d :: Correctable(w, d) then
      var d :| Correctable(w, d); d
    else w
  }

  ghost predicate Correctable(w: seq<bool>, c: seq<bool>) {
    |w| == BITS && IsCodeword(c) && Distance(w, c) <= 4
  }

  /** More errors than the code corrects. */
  ghost predicate Beyond(w: seq<bool>, c: seq<bool>) {
    |w| == BITS && IsCodeword(c) && Distance(w, c) > 4
  }

  lemma MiscorrectsFar(w: seq<bool>, v: seq<bool>)
    requires |w| == BITS && IsCodeword(v) && Distance(w, v) <= 4
    ensures forall c :: Beyond(w, c) ==> Distance(w, v) + Distance(w, c) >= 9
  {
    forall c | Beyond(w, c)
      ensures Distance(w, v) + Distance(w, c) >= 9
    {
      MiscorrectionIsFar(w, c, v);
    }
  }

  lemma {:induction false} LocatorMembership(w: seq<bool>, c: seq<bool>, n: nat, i: nat)
    requires n <= |w| && n <= |c| && n <= BITS && i < n
    ensures Alpha(i) in LocatorsOf(Differences(w, c, n)) <==> w[i] != c[i]
  {
    var d := Differences(w, c, n);
    var xs := LocatorsOf(d);
    DifferencesAreSound(w, c, n);
    if w[i] != c[i] {
      DifferencesAreComplete(w, c, n, i);
      var k :| 0 <= k < |d| && d[k] == i;
      assert xs[k] == Alpha(i);
    } else if Alpha(i) in xs {
      var k :| 0 <= k < |xs| && xs[k] == Alpha(i);
      assert d[k] in d;
      if d[k] < i {
        AlphaDistinct(d[k], i);
      } else if d[k] > i {
        AlphaDistinct(i, d[k]);
      }
    }
  }

  /** Flipping exactly the located bits lands on the code word. */
  lemma CorrectedIsCodeword(w: seq<bool>, v: seq<bool>, c: seq<bool>, locator: seq<bv13>, n: nat)
    requires |w| == |c| == BITS && n < |locator|
    requires CorrectedTo(w, v, locator, n, BITS)
    requires forall x :: x != 0 ==> (Horner(locator, n, x) == 0 <==> x in LocatorsOf(Differences(w, c, BITS)))
    ensures v == c
  {
    forall i | 0 <= i < BITS
      ensures v[i] == c[i]
    {
      PowNonzero(2, i);
      LocatorMembership(w, c, BITS, i);
    }
  }

  lemma {:induction false} SelfDistance(w: seq<bool>, n: nat)
    requires n <= |w|
    ensures Differences(w, w, n) == []
    decreases n
  {
    if n > 0 {
      SelfDistance(w, n - 1);
    }
  }

  lemma OnlyOne(w: seq<bool>, c: seq<bool>)
    requires Correctable(w, c)
    ensures forall d :: Correctable(w, d) ==> d == c
  {
    forall d | Correctable(w, d)
      ensures d == c
    {
      NearestIsUnique(w, c, d);
    }
  }

  lemma ErrorsExplain(w: seq<bool>, c: seq<bool>, s: seq<bv13>)
    requires Correctable(w, c) && !IsCodeword(w) && |s| == 9
    requires forall k :: 1 <= k <= 8 ==> s[k] == Syndrome(w, k, BITS)
    ensures Explains(LocatorsOf(Differences(w, c, BITS)), s)
  {
    DifferencesGiveLocators(w, c, BITS);
    ErrorSyndromes(w, c, s);
    if Distance(w, c) == 0 {
      NoDifferences(w, c);
    }
  }

  method Correct(data: array<bv8>, ecc: array<bv8>) returns (result: int)
    requires data.Length == DATA_SIZE && ecc.Length == ECC_SIZE && data != ecc
    modifies data, ecc
    ensures -1 <= result <= 4
    ensures result >= 0 ==> IsCodeword(Word(data[..], ecc[..]))
    ensures result >= 0 ==> result == Distance(old(Word(data[..], ecc[..])), Word(data[..], ecc[..]))
    ensures forall c :: Correctable(old(Word(data[..], ecc[..])), c) ==>
      result == Distance(old(Word(data[..], ecc[..])), c) && Word(data[..], ecc[..]) == c
    ensures forall c :: Beyond(old(Word(data[..], ecc[..])), c) ==>
      result == -1 || result + Distance(old(Word(data[..], ecc[..])), c) >= 9
    ensures ecc[6] & 0xF0 == old(ecc[6]) & 0xF0
  {
    ghost var w := Word(data[..], ecc[..]);
    var s := new bv13[9](i => 0);
    var any := ComputeSyndromes(data, ecc, s);
    if !any {
      SelfDistance(w, BITS);
      OnlyOne(w, w);
      MiscorrectsFar(w, w);
      return 0;
    }
    ghost var c := Nearby(w);
    ghost var xs := LocatorsOf(Differences(w, c, BITS));
    if Correctable(w, c) {
      ErrorsExplain(w, c, s[..]);
    }
    var locator, degree := FindLocator(s, xs);
    if degree == 0 || degree > 4 {
      assert !Correctable(w, c);
      return -1;
    }
    var found := FlipLocated(data, ecc, locator, degree);
    any := ComputeSyndromes(data, ecc, s);
    if Correctable(w, c) {
      CorrectedIsCodeword(w, Word(data[..], ecc[..]), c, locator[..], degree);
      OnlyOne(w, c);
    }
    if found != degree || any {
      return -1;
    }
    MiscorrectsFar(w, Word(data[..], ecc[..]));
    return found;
  }

  /** `w` is `c` with the first `n` of the listed bits inverted. */
  ghost predicate Corrupted(w: seq<bool>, c: seq<bool>, flips: seq<nat>, n: nat)
    requires forall j :: 0 <= j < |flips| ==> flips[j] < BITS
  {
    && |w| == |c| == BITS && n <= |flips|
    && |Differences(w, c, BITS)| == n
    && forall j :: n <= j < |flips| ==> w[flips[j]] == c[flips[j]]
  }

  method CorruptBits(data: array<bv8>, ecc: array<bv8>, flips: seq<nat>, ghost c: seq<bool>)
    requires data.Length == DATA_SIZE && ecc.Length == ECC_SIZE && data != ecc
    requires forall i :: 0 <= i < |flips| ==> flips[i] < BITS
    requires forall i, j :: 0 <= i < j < |flips| ==> flips[i] != flips[j]
    requires c == Word(data[..], ecc[..])
    modifies data, ecc
    ensures Corrupted(Word(data[..], ecc[..]), c, flips, |flips|)
    ensures ecc[6] & 0xF0 == old(ecc[6]) & 0xF0
  {
    SelfDistance(c, BITS);
    for i := 0 to |flips|
      invariant Corrupted(Word(data[..], ecc[..]), c, flips, i)
      invariant ecc[6] & 0xF0 == old(ecc[6]) & 0xF0
    {
      FlipRaisesDistance(c, Word(data[..], ecc[..]), flips[i], BITS);
      FlipBit(data, ecc, flips[i]);
    }
  }

  /** Encode, invert up to four code bits of one's choice, correct. */
  method EncodeCorruptCorrect(data: array<bv8>, ecc: array<bv8>, flips: seq<nat>) returns (result: int)
    requires data.Length == DATA_SIZE && ecc.Length == ECC_SIZE && data != ecc
    requires |flips| <= 4 && forall i :: 0 <= i < |flips| ==> flips[i] < BITS
    requires forall i, j :: 0 <= i < j < |flips| ==> flips[i] != flips[j]
    modifies data, ecc
    ensures result == |flips|
    ensures data[..] == old(data[..])
    ensures Word(data[..], ecc[..]) == BchEncoder.Systematic(BchEncoder.Dividend(old(data[..])))
    ensures ecc[6] & 0xF0 == 0xF0
  {
    BchEncoder.Encode(data, ecc);
    ghost var d, e := data[..], ecc[..];
    ghost var c := Word(d, e);
    CorruptBits(data, ecc, flips, c);
    ghost var w := Word(data[..], ecc[..]);
    DifferencesTriangle(w, c, w, BITS);
    assert Correctable(w, c);
    result := Correct(data, ecc);
    WordDeterminesBuffers(data[..], ecc[..], d, e);
  }
}
