/**
  The systematic encoder: a 52-bit shift register divides data(x)*x^52 by the
  generator, and the remainder becomes the parity.  The division identity makes
  every encoded word a multiple of the generator, whose roots include alpha,
  alpha^3, alpha^5 and alpha^7; hence all eight syndromes vanish.
*/
module BchEncoder {
  import opened Gf13
  import opened BchWords

  const GENERATOR: bv64 := 0x14523043AB86AB

  // ----- Register bits -----

  /** `i` single-bit right shifts. */
  function Shifted(r: bv64, i: nat): bv64
    decreases i
  {
    if i == 0 then r else Shifted(r >> 1, i - 1)
  }

  function Lowest(r: bv64): bool {
    r & 1 == 1
  }

  /** The low `n` bits of a register, lowest first. */
  function RegisterBits(r: bv64, n: nat): (bs: seq<bool>)
    ensures |bs| == n
    ensures forall i :: 0 <= i < n ==> bs[i] == Lowest(Shifted(r, i))
  {
    seq(n, i requires 0 <= i < n => Lowest(Shifted(r, i)))
  }

  function Zeros(n: nat): (z: seq<bool>)
    ensures |z| == n && forall i :: 0 <= i < n ==> !z[i]
  {
    seq(n, i => false)
  }

  function Generator(): (g: seq<bool>)
    ensures |g| == 53
  {
    RegisterBits(GENERATOR, 53)
  }

  // ----- Polynomials over GF(2): bit sequences, constant term first -----

  function XorBits(a: seq<bool>, b: seq<bool>): (c: seq<bool>)
    requires |a| == |b|
    ensures |c| == |a| && forall i :: 0 <= i < |a| ==> c[i] == (a[i] != b[i])
  {
    seq(|a|, i requires 0 <= i < |a| => a[i] != b[i])
  }

  function OneBit(b: bool): bv13 {
    if b then 1 else 0
  }

  function Evaluate(p: seq<bool>, x: bv13): bv13 {
    if p == [] then 0 else Add(OneBit(p[0]), Mul(x, Evaluate(p[1..], x)))
  }

  lemma OneBitXor(a: bool, b: bool)
    ensures OneBit(a != b) == Add(OneBit(a), OneBit(b))
  {
  }

  lemma {:induction false} EvaluateXor(a: seq<bool>, b: seq<bool>, x: bv13)
    requires |a| == |b|
    ensures Evaluate(XorBits(a, b), x) == Add(Evaluate(a, x), Evaluate(b, x))
    decreases |a|
  {
    if a == [] {
      AddZero(0);
    } else {
      EvaluateXor(a[1..], b[1..], x);
      assert XorBits(a, b)[1..] == XorBits(a[1..], b[1..]);
      OneBitXor(a[0], b[0]);
      MulAdd(x, Evaluate(a[1..], x), Evaluate(b[1..], x));
      AddSwap(OneBit(a[0]), OneBit(b[0]), Mul(x, Evaluate(a[1..], x)), Mul(x, Evaluate(b[1..], x)));
    }
  }

  lemma {:induction false} EvaluateZeros(n: nat, x: bv13)
    ensures Evaluate(Zeros(n), x) == 0
  {
    if n > 0 {
      EvaluateZeros(n - 1, x);
      assert Zeros(n)[1..] == Zeros(n - 1);
      MulZero(x);
      AddZero(0);
    }
  }

  lemma {:induction false} EvaluateConcat(a: seq<bool>, b: seq<bool>, x: bv13)
    ensures Evaluate(a + b, x) == Add(Evaluate(a, x), Mul(Pow(x, |a|), Evaluate(b, x)))
    decreases |a|
  {
    if a == [] {
      assert a + b == b;
      MulOne(Evaluate(b, x));
      AddZero(Evaluate(b, x));
    } else {
      EvaluateConcat(a[1..], b, x);
      assert (a + b)[1..] == a[1..] + b;
      var p := Mul(Pow(x, |a| - 1), Evaluate(b, x));
      MulAdd(x, Evaluate(a[1..], x), p);
      MulAssoc(x, Pow(x, |a| - 1), Evaluate(b, x));
      AddAssoc(OneBit(a[0]), Mul(x, Evaluate(a[1..], x)), Mul(x, p));
    }
  }

  lemma EvaluatePadded(a: seq<bool>, n: nat, x: bv13)
    ensures Evaluate(a + Zeros(n), x) == Evaluate(a, x)
  {
    EvaluateConcat(a, Zeros(n), x);
    EvaluateZeros(n, x);
    MulZero(Pow(x, |a|));
    AddZero(Evaluate(a, x));
  }

  // ----- The generator's roots, by evaluating it a byte at a time -----

  function XtimeN(a: bv13, k: nat): bv13
    decreases k
  {
    if k == 0 then a else Xtime(XtimeN(a, k - 1))
  }

  function EvalStep(r: bv64, k: nat, rest: bv13): bv13 {
    Add(OneBit(Lowest(r)), XtimeN(rest, k))
  }

  /** The low `n` bits of a register evaluated at alpha^k. */
  function EvalRegister(r: bv64, n: nat, k: nat): bv13
    decreases n, r, k
  {
    if n == 0 then 0 else EvalStep(r, k, EvalRegister(r >> 1, n - 1, k))
  }

  lemma EvalByte(r: bv64, n: nat, k: nat, high: bv13, value: bv13)
    requires EvalRegister(r >> 8, n, k) == high
    requires value == EvalStep(r, k, EvalStep(r >> 1, k, EvalStep(r >> 2, k, EvalStep(r >> 3, k,
               EvalStep(r >> 4, k, EvalStep(r >> 5, k, EvalStep(r >> 6, k, EvalStep(r >> 7, k, high))))))))
    ensures EvalRegister(r, n + 8, k) == value
  {
    EvalUnfold(r >> 7, n, k);
    EvalUnfold(r >> 6, n + 1, k);
    EvalUnfold(r >> 5, n + 2, k);
    EvalUnfold(r >> 4, n + 3, k);
    EvalUnfold(r >> 3, n + 4, k);
    EvalUnfold(r >> 2, n + 5, k);
    EvalUnfold(r >> 1, n + 6, k);
    EvalUnfold(r, n + 7, k);
  }

  lemma EvalUnfold(r: bv64, n: nat, k: nat)
    ensures EvalRegister(r, n + 1, k) == EvalStep(r, k, EvalRegister(r >> 1, n, k))
  {
  }

  lemma EvalTop(k: nat, value: bv13)
    requires value == EvalStep(0x14, k, EvalStep(0xA, k, EvalStep(0x5, k, EvalStep(0x2, k, EvalStep(0x1, k, 0)))))
    ensures EvalRegister(0x14, 5, k) == value
  {
    assert EvalRegister(0, 0, k) == 0;
    EvalUnfold(0x1, 0, k);
    EvalUnfold(0x2, 1, k);
    EvalUnfold(0x5, 2, k);
    EvalUnfold(0xA, 3, k);
    EvalUnfold(0x14, 4, k);
  }

  lemma GeneratorHigh1()
    ensures EvalRegister(0x14523043, 29, 1) == 0xe22
  {
    EvalTop(1, 0x14);
    EvalByte(0x1452, 5, 1, 0x14, 0x1452);
    EvalByte(0x145230, 13, 1, 0x1452, 0x1ce6);
    EvalByte(0x14523043, 21, 1, 0x1ce6, 0xe22);
  }

  lemma GeneratorRoot1()
    ensures EvalRegister(GENERATOR, 53, 1) == 0
  {
    GeneratorHigh1();
    EvalByte(0x14523043ab, 29, 1, 0xe22, 0x6a0);
    EvalByte(0x14523043ab86, 37, 1, 0x6a0, 0x221);
    EvalByte(0x14523043ab86ab, 45, 1, 0x221, 0x0);
  }

  lemma GeneratorHigh3()
    ensures EvalRegister(0x14523043, 29, 3) == 0xb98
  {
    EvalTop(3, 0x1040);
    EvalByte(0x1452, 5, 3, 0x1040, 0x1080);
    EvalByte(0x145230, 13, 3, 0x1080, 0xf6f);
    EvalByte(0x14523043, 21, 3, 0xf6f, 0xb98);
  }

  lemma GeneratorRoot3()
    ensures EvalRegister(GENERATOR, 53, 3) == 0
  {
    GeneratorHigh3();
    EvalByte(0x14523043ab, 29, 3, 0xb98, 0xe1d);
    EvalByte(0x14523043ab86, 37, 3, 0xe1d, 0x90c);
    EvalByte(0x14523043ab86ab, 45, 3, 0x90c, 0x0);
  }

  lemma GeneratorHigh5()
    ensures EvalRegister(0x14523043, 29, 5) == 0xf91
  {
    EvalTop(5, 0x980);
    EvalByte(0x1452, 5, 5, 0x980, 0x113);
    EvalByte(0x145230, 13, 5, 0x113, 0x1851);
    EvalByte(0x14523043, 21, 5, 0x1851, 0xf91);
  }

  lemma GeneratorRoot5()
    ensures EvalRegister(GENERATOR, 53, 5) == 0
  {
    GeneratorHigh5();
    EvalByte(0x14523043ab, 29, 5, 0xf91, 0xd7f);
    EvalByte(0x14523043ab86, 37, 5, 0xd7f, 0x8f6);
    EvalByte(0x14523043ab86ab, 45, 5, 0x8f6, 0x0);
  }

  lemma GeneratorHigh7()
    ensures EvalRegister(0x14523043, 29, 7) == 0x9c
  {
    EvalTop(7, 0x522);
    EvalByte(0x1452, 5, 7, 0x522, 0x29c);
    EvalByte(0x145230, 13, 7, 0x29c, 0x4a3);
    EvalByte(0x14523043, 21, 7, 0x4a3, 0x9c);
  }

  lemma GeneratorRoot7()
    ensures EvalRegister(GENERATOR, 53, 7) == 0
  {
    GeneratorHigh7();
    EvalByte(0x14523043ab, 29, 7, 0x9c, 0x1f0b);
    EvalByte(0x14523043ab86, 37, 7, 0x1f0b, 0x1d4c);
    EvalByte(0x14523043ab86ab, 45, 7, 0x1d4c, 0x0);
  }

  lemma {:induction false} XtimeNIsMul(a: bv13, k: nat)
    ensures XtimeN(a, k) == Mul(Pow(2, k), a)
    decreases k
  {
    MulOne(a);
    if k > 0 {
      XtimeNIsMul(a, k - 1);
      TimesAlpha(XtimeN(a, k - 1));
      MulAssoc(2, Pow(2, k - 1), a);
    }
  }

  lemma {:induction false} RegisterEvaluates(r: bv64, n: nat, k: nat)
    ensures EvalRegister(r, n, k) == Evaluate(RegisterBits(r, n), Pow(2, k))
    decreases n
  {
    if n > 0 {
      RegisterEvaluates(r >> 1, n - 1, k);
      assert RegisterBits(r, n)[1..] == RegisterBits(r >> 1, n - 1);
      XtimeNIsMul(EvalRegister(r >> 1, n - 1, k), k);
    }
  }

  /** The generator vanishes at alpha, alpha^3, alpha^5 and alpha^7. */
  lemma GeneratorRoots(k: nat)
    requires k == 1 || k == 3 || k == 5 || k == 7
    ensures Evaluate(Generator(), Pow(2, k)) == 0
  {
    RegisterEvaluates(GENERATOR, 53, k);
    if k == 1 {
      GeneratorRoot1();
    } else if k == 3 {
      GeneratorRoot3();
    } else if k == 5 {
      GeneratorRoot5();
    } else {
      GeneratorRoot7();
    }
  }

  // ----- Division by the generator -----

  function Times(b: bool, p: seq<bool>): (r: seq<bool>)
    ensures |r| == |p| && forall i :: 0 <= i < |p| ==> r[i] == (b && p[i])
  {
    if b then p else Zeros(|p|)
  }

  /** One shift of the 52-bit division register. */
  function LfsrStep(register: seq<bool>, v: bool): (r: seq<bool>)
    requires |register| == PARITY
    ensures |r| == PARITY
  {
    XorBits([v] + register, Times(register[51], Generator()))[..52]
  }

  /** The register after feeding a whole dividend, highest coefficient first. */
  function Remainder(dividend: seq<bool>): (r: seq<bool>)
    ensures |r| == PARITY
  {
    if dividend == [] then Zeros(PARITY) else LfsrStep(Remainder(dividend[1..]), dividend[0])
  }

  /** The quotient coefficients the register shifts out. */
  function QuotientBits(dividend: seq<bool>): (q: seq<bool>)
    ensures |q| == |dividend|
  {
    if dividend == [] then [] else [Remainder(dividend[1..])[51]] + QuotientBits(dividend[1..])
  }

  /** q(x) times the generator, schoolbook. */
  function Product(q: seq<bool>): (p: seq<bool>)
    ensures |p| == |q| + PARITY
  {
    if q == [] then Zeros(PARITY)
    else XorBits(Times(q[0], Generator()) + Zeros(|q| - 1), [false] + Product(q[1..]))
  }

  /** Leading coefficient: the register's outgoing bit is always cancelled. */
  lemma GeneratorIsMonic()
    ensures Generator()[52]
  {
    TopBit(GENERATOR);
  }

  lemma ShiftedBy8(r: bv64)
    ensures Shifted(r, 8) == r >> 8
  {
  }

  lemma {:induction false} ShiftedAdd(r: bv64, m: nat, n: nat)
    ensures Shifted(r, m + n) == Shifted(Shifted(r, m), n)
    decreases m
  {
    if m > 0 {
      ShiftedAdd(r >> 1, m - 1, n);
    }
  }

  /** Register update, coefficient by coefficient; the 53rd cancels. */
  lemma LfsrCoefficients(r: seq<bool>, v: bool, i: nat)
    requires |r| == PARITY && i <= PARITY
    ensures (LfsrStep(r, v) + [false])[i] == (([v] + r)[i] != (r[51] && Generator()[i]))
  {
    GeneratorIsMonic();
  }

  /** Coefficient `i` of quotient times generator plus remainder. */
  function Recombined(dividend: seq<bool>, i: nat): bool
    requires i < |dividend| + PARITY
  {
    Product(QuotientBits(dividend))[i] != (Remainder(dividend) + Zeros(|dividend|))[i]
  }

  lemma ProductOf(b: bool, q: seq<bool>)
    ensures Product([b] + q) == XorBits(Times(b, Generator()) + Zeros(|q|), [false] + Product(q))
  {
    assert ([b] + q)[1..] == q;
  }

  lemma PaddedAt(b: bool, n: nat, i: nat)
    requires i < n + 1 + PARITY
    ensures (Times(b, Generator()) + Zeros(n))[i] == (i <= PARITY && b && Generator()[i])
  {
  }

  lemma ProductCoefficient(b: bool, q: seq<bool>, i: nat)
    requires i < |q| + 1 + PARITY
    ensures Product([b] + q)[i] == ((i <= PARITY && b && Generator()[i]) != (i > 0 && Product(q)[i - 1]))
  {
    ProductOf(b, q);
    PaddedAt(b, |q|, i);
  }

  lemma RecombineStep(rest: seq<bool>, v: bool, i: nat)
    requires i < |rest| + 1 + PARITY
    ensures Recombined([v] + rest, i) == if i == 0 then v else Recombined(rest, i - 1)
  {
    var r, b := Remainder(rest), Remainder(rest)[51];
    assert ([v] + rest)[1..] == rest;
    ProductCoefficient(b, QuotientBits(rest), i);
    var padded := Remainder([v] + rest) + Zeros(|rest| + 1);
    if i <= PARITY {
      LfsrCoefficients(r, v, i);
      assert padded[i] == (LfsrStep(r, v) + [false])[i];
    }
  }

  /** dividend(x) == quotient(x)*generator(x) + remainder(x), coefficient by coefficient. */
  lemma {:induction false} DivisionIdentity(dividend: seq<bool>, i: nat)
    requires i < |dividend| + PARITY
    ensures Recombined(dividend, i) == (dividend + Zeros(PARITY))[i]
    decreases |dividend|
  {
    if dividend != [] {
      var rest, v := dividend[1..], dividend[0];
      assert dividend == [v] + rest;
      RecombineStep(rest, v, i);
      if i > 0 {
        DivisionIdentity(rest, i - 1);
      }
    }
  }

  lemma {:induction false} ProductVanishes(q: seq<bool>, x: bv13)
    requires Evaluate(Generator(), x) == 0
    ensures Evaluate(Product(q), x) == 0
    decreases |q|
  {
    if q == [] {
      EvaluateZeros(PARITY, x);
    } else {
      var first, rest := Times(q[0], Generator()) + Zeros(|q| - 1), [false] + Product(q[1..]);
      ProductVanishes(q[1..], x);
      EvaluateXor(first, rest, x);
      EvaluatePadded(Times(q[0], Generator()), |q| - 1, x);
      EvaluateZeros(53, x);
      assert rest[1..] == Product(q[1..]);
      MulZero(x);
      AddZero(0);
    }
  }

  lemma {:induction false} SyndromeIsEvaluate(w: seq<bool>, k: nat, n: nat)
    requires n <= |w|
    ensures Syndrome(w, k, n) == Evaluate(w[..n], Pow(2, k))
    decreases n
  {
    if n > 0 {
      var x, last := Pow(2, k), [w[n - 1]];
      SyndromeIsEvaluate(w, k, n - 1);
      assert w[..n] == w[..n - 1] + last;
      EvaluateConcat(w[..n - 1], last, x);
      EvaluateLast(w[n - 1], x);
      PowPow(2, k, n - 1);
      PowPow(2, n - 1, k);
      assert k * (n - 1) == (n - 1) * k;
      MulZero(Pow(x, n - 1));
      MulOne(Pow(x, n - 1));
    }
  }

  lemma EvaluateLast(b: bool, x: bv13)
    ensures Evaluate([b], x) == OneBit(b)
  {
    MulZero(x);
    AddZero(OneBit(b));
  }

  // ----- Systematic words -----

  /** A dividend: data bits above 52 zero coefficients. */
  ghost predicate IsDividend(d: seq<bool>) {
    |d| == BITS && forall i :: 0 <= i < PARITY ==> !d[i]
  }

  /** Parity below, data above. */
  function Systematic(d: seq<bool>): (w: seq<bool>)
    requires |d| == BITS
    ensures |w| == BITS
  {
    Remainder(d) + d[PARITY..]
  }

  /** The encoded word is a multiple of the generator. */
  lemma SystematicIsMultiple(d: seq<bool>)
    requires IsDividend(d)
    ensures Systematic(d) + Zeros(PARITY) == Product(QuotientBits(d))
  {
    var w, p := Systematic(d) + Zeros(PARITY), Product(QuotientBits(d));
    forall i | 0 <= i < BITS + PARITY
      ensures w[i] == p[i]
    {
      DivisionIdentity(d, i);
    }
  }

  lemma RootOfEveryWord(d: seq<bool>, x: bv13)
    requires IsDividend(d) && Evaluate(Generator(), x) == 0
    ensures Evaluate(Systematic(d), x) == 0
  {
    SystematicIsMultiple(d);
    ProductVanishes(QuotientBits(d), x);
    EvaluatePadded(Systematic(d), PARITY, x);
  }

  lemma OddSyndromeVanishes(d: seq<bool>, k: nat)
    requires IsDividend(d) && (k == 1 || k == 3 || k == 5 || k == 7)
    ensures Syndrome(Systematic(d), k, BITS) == 0
  {
    GeneratorRoots(k);
    RootOfEveryWord(d, Pow(2, k));
    SyndromeIsEvaluate(Systematic(d), k, BITS);
    assert Systematic(d)[..BITS] == Systematic(d);
  }

  /** The even syndromes are squares of smaller ones. */
  lemma {:induction false} EverySyndromeVanishes(w: seq<bool>, k: nat)
    requires |w| == BITS && 1 <= k <= 8
    requires Syndrome(w, 1, BITS) == Syndrome(w, 3, BITS) == Syndrome(w, 5, BITS) == Syndrome(w, 7, BITS) == 0
    ensures Syndrome(w, k, BITS) == 0
    decreases k
  {
    if k % 2 == 0 {
      EverySyndromeVanishes(w, k / 2);
      EvenSyndrome(w, k / 2, BITS);
      MulZero(0);
    }
  }

  /** Every systematic word is a code word. */
  lemma SystematicIsCodeword(d: seq<bool>)
    requires IsDividend(d)
    ensures IsCodeword(Systematic(d))
  {
    var w := Systematic(d);
    OddSyndromeVanishes(d, 1);
    OddSyndromeVanishes(d, 3);
    OddSyndromeVanishes(d, 5);
    OddSyndromeVanishes(d, 7);
    forall k | 1 <= k <= 8
      ensures Syndrome(w, k, BITS) == 0
    {
      EverySyndromeVanishes(w, k);
    }
  }

  // ----- The 64-bit register of the source -----

  predicate Fits52(r: bv64) {
    r & 0xFFF0_0000_0000_0000 == 0
  }

  function ShiftIn(r: bv64, v: bool): bv64 {
    (r << 1) | (if v then 1 else 0)
  }

  function Xor64(a: bv64, b: bv64): bv64 {
    a ^ b
  }

  function Reduce(r: bv64): bv64 {
    if r & 0x0010_0000_0000_0000 != 0 then Xor64(r, GENERATOR) else r
  }

  lemma ShiftInUndone(r: bv64, v: bool)
    requires Fits52(r)
    ensures ShiftIn(r, v) >> 1 == r && Lowest(ShiftIn(r, v)) == v
    ensures ShiftIn(r, v) & 0xFFE0_0000_0000_0000 == 0
  {
  }

  lemma FirstBit(r: bv64, n: nat)
    requires n > 0
    ensures RegisterBits(r, n) == [Lowest(r)] + RegisterBits(r >> 1, n - 1)
  {
  }

  lemma ShiftInBits(r: bv64, v: bool)
    requires Fits52(r)
    ensures RegisterBits(ShiftIn(r, v), 53) == [v] + RegisterBits(r, 52)
  {
    ShiftInUndone(r, v);
    FirstBit(ShiftIn(r, v), 53);
  }

  lemma LowestXor(a: bv64, b: bv64)
    ensures Lowest(Xor64(a, b)) == (Lowest(a) != Lowest(b))
  {
    assert (a ^ b) & 1 == (a & 1) ^ (b & 1);
    assert a & 1 == 0 || a & 1 == 1;
    assert b & 1 == 0 || b & 1 == 1;
  }

  lemma {:induction false} XorShifted(r: bv64, g: bv64, i: nat)
    ensures Shifted(Xor64(r, g), i) == Xor64(Shifted(r, i), Shifted(g, i))
    decreases i
  {
    if i > 0 {
      calc {
        Xor64(r, g) >> 1;
        (r ^ g) >> 1;
        (r >> 1) ^ (g >> 1);
        Xor64(r >> 1, g >> 1);
      }
      XorShifted(r >> 1, g >> 1, i - 1);
    }
  }

  lemma XorBit(r: bv64, g: bv64, i: nat)
    ensures Lowest(Shifted(Xor64(r, g), i)) == (Lowest(Shifted(r, i)) != Lowest(Shifted(g, i)))
  {
    XorShifted(r, g, i);
    LowestXor(Shifted(r, i), Shifted(g, i));
  }

  lemma XorRegister(r: bv64, g: bv64, n: nat)
    ensures RegisterBits(Xor64(r, g), n) == XorBits(RegisterBits(r, n), RegisterBits(g, n))
  {
    forall i | 0 <= i < n
      ensures RegisterBits(Xor64(r, g), n)[i] == XorBits(RegisterBits(r, n), RegisterBits(g, n))[i]
    {
      XorBit(r, g, i);
    }
  }

  lemma ShiftedBy48(r: bv64)
    ensures Shifted(r, 48) == r >> 48
  {
    ShiftedBy8(r);
    ShiftedBy8(r >> 8);
    ShiftedBy8(r >> 16);
    ShiftedBy8(r >> 24);
    ShiftedBy8(r >> 32);
    ShiftedBy8(r >> 40);
    ShiftedAdd(r, 8, 8);
    ShiftedAdd(r, 16, 8);
    ShiftedAdd(r, 24, 8);
    ShiftedAdd(r, 32, 8);
    ShiftedAdd(r, 40, 8);
  }

  lemma TopBit(r: bv64)
    ensures RegisterBits(r, 53)[52] <==> r & 0x0010_0000_0000_0000 != 0
  {
    ShiftedBy48(r);
    ShiftedAdd(r, 48, 4);
    assert Shifted(r >> 48, 4) == r >> 52;
    assert (r >> 52) & 1 == 1 <==> r & 0x0010_0000_0000_0000 != 0;
  }

  lemma ReduceFits(s: bv64)
    requires s & 0xFFE0_0000_0000_0000 == 0
    ensures Fits52(Reduce(s))
  {
  }

  lemma ReducedBits(s: bv64, p: seq<bool>)
    requires p == RegisterBits(s, 53)
    ensures RegisterBits(Reduce(s), 53) == XorBits(p, Times(p[52], Generator()))
  {
    TopBit(s);
    if p[52] {
      XorRegister(s, GENERATOR, 53);
    }
  }

  /** One iteration of the source's loop is one step of the division register. */
  lemma RegisterStep(r: bv64, v: bool)
    requires Fits52(r)
    ensures Fits52(Reduce(ShiftIn(r, v)))
    ensures RegisterBits(Reduce(ShiftIn(r, v)), 52) == LfsrStep(RegisterBits(r, 52), v)
  {
    var s := ShiftIn(r, v);
    ShiftInUndone(r, v);
    ShiftInBits(r, v);
    ReduceFits(s);
    ReducedBits(s, [v] + RegisterBits(r, 52));
    assert RegisterBits(Reduce(s), 52) == RegisterBits(Reduce(s), 53)[..52];
  }

  // ----- Parity bytes -----

  /** The register's i-th byte: eight times `i` right shifts, then truncation. */
  function ByteOf(r: bv64, i: nat): bv8
    requires i < 7
  {
    (Shifted(r, 8 * i) & 0xFF) as bv8
  }

  lemma LowByteBit(r: bv64, k: nat)
    requires k < 8
    ensures GetBit((r & 0xFF) as bv8, k) == Lowest(Shifted(r, k))
  {
    if k == 0 {
      assert Shifted(r, 0) == r;
    } else if k == 1 {
      assert Shifted(r, 1) == r >> 1;
    } else if k == 2 {
      assert Shifted(r, 2) == r >> 2;
    } else if k == 3 {
      assert Shifted(r, 3) == r >> 3;
    } else if k == 4 {
      assert Shifted(r, 4) == r >> 4;
    } else if k == 5 {
      assert Shifted(r, 5) == r >> 5;
    } else if k == 6 {
      assert Shifted(r, 6) == r >> 6;
    } else {
      assert Shifted(r, 7) == r >> 7;
    }
  }

  lemma ParityBit(r: bv64, bit: nat)
    requires bit < PARITY
    ensures GetBit(ByteOf(r, bit / 8), bit % 8) == RegisterBits(r, 52)[bit]
  {
    var i, k := bit / 8, bit % 8;
    LowByteBit(Shifted(r, 8 * i), k);
    ShiftedAdd(r, 8 * i, k);
    assert 8 * i + k == bit;
  }

  lemma SpareBitsErased(b: bv8, k: nat)
    requires k < 4
    ensures GetBit(b | 0xF0, k) == GetBit(b, k)
    ensures (b | 0xF0) & 0xF0 == 0xF0
  {
    if k == 0 {
    } else if k == 1 {
    } else if k == 2 {
    } else {
    }
  }

  // ----- The encoder -----

  function Dividend(data: seq<bv8>): (d: seq<bool>)
    requires |data| == DATA_SIZE
    ensures IsDividend(d)
    ensures forall i :: PARITY <= i < BITS ==> d[i] == GetBit(data[(i - PARITY) / 8], (i - PARITY) % 8)
  {
    seq(BITS, i requires 0 <= i < BITS => i >= PARITY && GetBit(data[(i - PARITY) / 8], (i - PARITY) % 8))
  }

  lemma FeedOne(d: seq<bool>, bit: nat, r: bv64, v: bool)
    requires bit < |d| && d[bit] == v && Fits52(r)
    requires RegisterBits(r, 52) == Remainder(d[bit + 1..])
    ensures Fits52(Reduce(ShiftIn(r, v)))
    ensures RegisterBits(Reduce(ShiftIn(r, v)), 52) == Remainder(d[bit..])
  {
    RegisterStep(r, v);
    assert d[bit..][1..] == d[bit + 1..];
  }

  method Divide(data: array<bv8>) returns (remainder: bv64)
    requires data.Length == DATA_SIZE
    ensures RegisterBits(remainder, 52) == Remainder(Dividend(data[..]))
  {
    ghost var d := Dividend(data[..]);
    remainder := 0;
    ZeroRegister(52);
    for bit := BITS downto 0
      invariant Fits52(remainder)
      invariant RegisterBits(remainder, 52) == Remainder(d[bit..])
    {
      var value := false;
      if bit >= PARITY {
        var index := bit - PARITY;
        value := GetBit(data[index / 8], index % 8);
      }
      FeedOne(d, bit, remainder, value);
      remainder := Reduce(ShiftIn(remainder, value));
    }
    assert d[0..] == d;
  }

  lemma {:induction false} ZeroRegister(n: nat)
    ensures RegisterBits(0, n) == Zeros(n)
    decreases n
  {
    if n > 0 {
      assert (0 as bv64) >> 1 == 0;
      ZeroRegister(n - 1);
      FirstBit(0, n);
    }
  }

  lemma ParityWord(data: seq<bv8>, ecc: seq<bv8>, r: bv64)
    requires |data| == DATA_SIZE && |ecc| == ECC_SIZE
    requires forall i :: 0 <= i < 6 ==> ecc[i] == ByteOf(r, i)
    requires ecc[6] == ByteOf(r, 6) | 0xF0
    requires RegisterBits(r, 52) == Remainder(Dividend(data))
    ensures Word(data, ecc) == Systematic(Dividend(data))
    ensures ecc[6] & 0xF0 == 0xF0
  {
    var w, v := Word(data, ecc), Systematic(Dividend(data));
    SpareBitsErased(ByteOf(r, 6), 0);
    forall i | 0 <= i < BITS
      ensures w[i] == v[i]
    {
      if i < PARITY {
        ParityBit(r, i);
        if i / 8 == 6 {
          SpareBitsErased(ByteOf(r, 6), i % 8);
        }
      }
    }
  }

  method StoreParity(remainder: bv64, ecc: array<bv8>)
    requires ecc.Length == ECC_SIZE
    modifies ecc
    ensures forall i :: 0 <= i < 6 ==> ecc[i] == ByteOf(remainder, i)
    ensures ecc[6] == ByteOf(remainder, 6) | 0xF0
  {
    for i := 0 to ECC_SIZE
      invariant forall j :: 0 <= j < i ==> ecc[j] == ByteOf(remainder, j)
    {
      ecc[i] := ByteOf(remainder, i);
    }
    ecc[6] := ecc[6] | 0xF0;
  }

  method Encode(data: array<bv8>, ecc: array<bv8>)
    requires data.Length == DATA_SIZE && ecc.Length == ECC_SIZE && data != ecc
    modifies ecc
    ensures Word(data[..], ecc[..]) == Systematic(Dividend(data[..]))
    ensures IsCodeword(Word(data[..], ecc[..]))
    ensures ecc[6] & 0xF0 == 0xF0
  {
    var remainder := Divide(data);
    StoreParity(remainder, ecc);
    ParityWord(data[..], ecc[..], remainder);
    SystematicIsCodeword(Dividend(data[..]));
  }
}
