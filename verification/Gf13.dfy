/** The field GF(2^13) that the BCH sector code computes in. */
module Gf13 {

  // A field element is the 13 significant bits of the source's `uint16_t`; the
  // reduction polynomial is x^13 + x^4 + x^3 + x + 1.  Addition is exclusive-or.
  // `Mul` is the shift-and-reduce product; everything below derives its field laws
  // from the linearity of one reduction step.

  import Circular

  function Add(a: bv13, b: bv13): bv13 {
    a ^ b
  }

  /** One shift-and-reduce step: multiplication by alpha. */
  function Xtime(a: bv13): bv13 {
    if a & 0x1000 != 0 then (a << 1) ^ 0x1B else a << 1
  }

  /** The reverse step used by the root search: multiplication by alpha^-1. */
  function InvXtime(a: bv13): bv13 {
    if a & 1 != 0 then (a >> 1) ^ 0x100D else a >> 1
  }

  /** `a` when the low bit of `b` is set, zero otherwise. */
  function Pick(b: bv13, a: bv13): bv13 {
    if b & 1 != 0 then a else 0
  }

  function MulBits(a: bv13, b: bv13, n: nat): bv13
    decreases n, a, b
  {
    if n == 0 then 0 else Add(Pick(b, a), MulBits(Xtime(a), b >> 1, n - 1))
  }

  /** `MulBits` behind three empty recursive steps: more than the verifier unfolds
      on its own, so algebraic proofs see products as atoms. */
  function FoldedMul(a: bv13, b: bv13, folds: nat): bv13
    decreases folds, a, b
  {
    if folds == 0 then MulBits(a, b, 13) else FoldedMul(a, b, folds - 1)
  }

  function Mul(a: bv13, b: bv13): bv13 {
    FoldedMul(a, b, 3)
  }

  lemma MulIsBits(a: bv13, b: bv13)
    ensures Mul(a, b) == MulBits(a, b, 13)
  {
    assert FoldedMul(a, b, 1) == MulBits(a, b, 13);
    assert FoldedMul(a, b, 2) == FoldedMul(a, b, 1);
  }

  // ----- Addition -----

  lemma AddAssoc(a: bv13, b: bv13, c: bv13)
    ensures Add(Add(a, b), c) == Add(a, Add(b, c))
  {
  }

  lemma AddComm(a: bv13, b: bv13)
    ensures Add(a, b) == Add(b, a)
  {
  }

  lemma AddSwap(a: bv13, b: bv13, c: bv13, d: bv13)
    ensures Add(Add(a, b), Add(c, d)) == Add(Add(a, c), Add(b, d))
  {
    AddAssoc(a, b, Add(c, d));
    AddAssoc(b, c, d);
    AddComm(b, c);
    AddAssoc(c, b, d);
    AddAssoc(a, c, Add(b, d));
  }

  lemma AddZero(a: bv13)
    ensures Add(a, 0) == a && Add(0, a) == a && Add(a, a) == 0
  {
  }

  lemma AddCancel(a: bv13, b: bv13)
    ensures Add(a, Add(a, b)) == b
    ensures Add(a, b) == 0 <==> a == b
  {
  }

  // ----- The reduction step is linear and invertible -----

  lemma XtimeLinear(a: bv13, b: bv13)
    ensures Xtime(Add(a, b)) == Add(Xtime(a), Xtime(b))
  {
    var sa, sb, sc := a & 0x1000, b & 0x1000, (a ^ b) & 0x1000;
    assert sc == sa ^ sb;
    if sa == 0 {
      if sb == 0 { assert sc == 0; } else { assert sb == 0x1000; assert sc == 0x1000; }
    } else {
      assert sa == 0x1000;
      if sb == 0 { assert sc == 0x1000; } else { assert sb == 0x1000; assert sc == 0; }
    }
    assert (a ^ b) << 1 == (a << 1) ^ (b << 1);
  }

  lemma InvXtimeUndoes(a: bv13)
    ensures Xtime(InvXtime(a)) == a
  {
  }

  lemma PickRight(b: bv13, d: bv13, a: bv13)
    ensures Pick(Add(b, d), a) == Add(Pick(b, a), Pick(d, a))
  {
    var sb, sd, sc := b & 1, d & 1, (b ^ d) & 1;
    assert sc == sb ^ sd;
    if sb == 0 {
      if sd == 0 { assert sc == 0; } else { assert sd == 1; assert sc == 1; }
    } else {
      assert sb == 1;
      if sd == 0 { assert sc == 1; } else { assert sd == 1; assert sc == 0; }
    }
  }

  lemma PickLeft(b: bv13, a: bv13, c: bv13)
    ensures Pick(b, Add(a, c)) == Add(Pick(b, a), Pick(b, c))
  {
  }

  // ----- Mul is bilinear and commutes with the reduction step -----

  lemma {:induction false} MulBitsZero(b: bv13, n: nat)
    ensures MulBits(0, b, n) == 0
    decreases n
  {
    if n > 0 {
      assert Xtime(0) == 0;
      MulBitsZero(b >> 1, n - 1);
    }
  }

  lemma {:induction false} MulBitsByZero(a: bv13, n: nat)
    ensures MulBits(a, 0, n) == 0
    decreases n
  {
    if n > 0 {
      assert (0 as bv13) >> 1 == 0;
      MulBitsByZero(Xtime(a), n - 1);
    }
  }

  lemma {:induction false} MulBitsLeft(a: bv13, c: bv13, b: bv13, n: nat)
    ensures MulBits(Add(a, c), b, n) == Add(MulBits(a, b, n), MulBits(c, b, n))
    decreases n
  {
    if n == 0 {
      AddZero(0);
    } else {
      XtimeLinear(a, c);
      PickLeft(b, a, c);
      MulBitsLeft(Xtime(a), Xtime(c), b >> 1, n - 1);
      AddSwap(Pick(b, a), Pick(b, c), MulBits(Xtime(a), b >> 1, n - 1), MulBits(Xtime(c), b >> 1, n - 1));
    }
  }

  lemma ShiftLinear(b: bv13, d: bv13)
    ensures Add(b, d) >> 1 == Add(b >> 1, d >> 1)
  {
  }

  lemma {:induction false} MulBitsRight(a: bv13, b: bv13, d: bv13, n: nat)
    ensures MulBits(a, Add(b, d), n) == Add(MulBits(a, b, n), MulBits(a, d, n))
    decreases n
  {
    if n == 0 {
      AddZero(0);
    } else {
      MulBitsRight(Xtime(a), b >> 1, d >> 1, n - 1);
      ShiftLinear(b, d);
      PickRight(b, d, a);
      AddSwap(Pick(b, a), Pick(d, a), MulBits(Xtime(a), b >> 1, n - 1), MulBits(Xtime(a), d >> 1, n - 1));
    }
  }

  lemma PickXtime(b: bv13, a: bv13)
    ensures Pick(b, Xtime(a)) == Xtime(Pick(b, a))
  {
    assert Xtime(0) == 0;
  }

  lemma {:induction false} MulBitsXtime(a: bv13, b: bv13, n: nat)
    ensures MulBits(Xtime(a), b, n) == Xtime(MulBits(a, b, n))
    decreases n
  {
    if n == 0 {
      assert Xtime(0) == 0;
    } else {
      var rest := MulBits(Xtime(a), b >> 1, n - 1);
      MulBitsXtime(Xtime(a), b >> 1, n - 1);
      XtimeLinear(Pick(b, a), rest);
      PickXtime(b, a);
    }
  }

  // ----- The commutative ring laws -----

  predicate Fits(b: bv13, n: nat)
    decreases n
  {
    if n == 0 then b == 0 else Fits(b >> 1, n - 1)
  }

  lemma HalfAndLow(b: bv13)
    ensures Add(Pick(b, 1), Xtime(b >> 1)) == b
  {
    assert (b >> 1) & 0x1000 == 0;
    assert ((b >> 1) << 1) ^ (b & 1) == b;
    assert b & 1 == 0 || b & 1 == 1;
  }

  lemma {:induction false} OneTimesBits(b: bv13, n: nat)
    requires Fits(b, n)
    ensures MulBits(1, b, n) == b
    decreases n
  {
    if n > 0 {
      OneTimesBits(b >> 1, n - 1);
      MulBitsXtime(1, b >> 1, n - 1);
      HalfAndLow(b);
    }
  }

  lemma AllFit(b: bv13)
    ensures Fits(b, 13)
  {
  }

  lemma OneTimes(b: bv13)
    ensures MulBits(1, b, 13) == b
  {
    AllFit(b);
    OneTimesBits(b, 13);
  }

  lemma {:induction false} MulBitsExchange(c: bv13, a: bv13, b: bv13, n: nat)
    ensures Mul(MulBits(c, a, n), b) == MulBits(Mul(c, b), a, n)
    decreases n
  {
    if n == 0 {
      MulBitsZero(b, 13);
      MulIsBits(0, b);
    } else {
      var rest := MulBits(Xtime(c), a >> 1, n - 1);
      MulAdd(b, Pick(a, c), rest);
      MulZero(b);
      assert Mul(Pick(a, c), b) == Pick(a, Mul(c, b));
      MulBitsExchange(Xtime(c), a >> 1, b, n - 1);
      MulBitsXtime(c, b, 13);
      MulIsBits(Xtime(c), b);
      MulIsBits(c, b);
    }
  }

  lemma MulComm(a: bv13, b: bv13)
    ensures Mul(a, b) == Mul(b, a)
  {
    OneTimes(a);
    OneTimes(b);
    MulBitsExchange(1, a, b, 13);
    MulIsBits(1, b);
    MulIsBits(b, a);
  }

  lemma MulAssoc(a: bv13, b: bv13, c: bv13)
    ensures Mul(Mul(a, b), c) == Mul(a, Mul(b, c))
  {
    MulComm(a, b);
    MulBitsExchange(b, a, c, 13);
    MulIsBits(b, a);
    MulIsBits(Mul(b, c), a);
    MulComm(Mul(b, c), a);
  }

  lemma MulAdd(a: bv13, b: bv13, c: bv13)
    ensures Mul(a, Add(b, c)) == Add(Mul(a, b), Mul(a, c))
    ensures Mul(Add(b, c), a) == Add(Mul(b, a), Mul(c, a))
  {
    MulBitsRight(a, b, c, 13);
    MulIsBits(a, Add(b, c));
    MulIsBits(a, b);
    MulIsBits(a, c);
    MulBitsLeft(b, c, a, 13);
    MulIsBits(Add(b, c), a);
    MulIsBits(b, a);
    MulIsBits(c, a);
  }

  lemma MulOne(a: bv13)
    ensures Mul(1, a) == a && Mul(a, 1) == a
  {
    OneTimes(a);
    MulIsBits(1, a);
    MulComm(a, 1);
  }

  lemma MulZero(a: bv13)
    ensures Mul(0, a) == 0 && Mul(a, 0) == 0
  {
    MulBitsZero(a, 13);
    MulIsBits(0, a);
    MulBitsByZero(a, 13);
    MulIsBits(a, 0);
  }

  // ----- Powers -----

  function Pow(a: bv13, n: nat): bv13
    decreases n, a
  {
    if n == 0 then 1 else Mul(a, Pow(a, n - 1))
  }

  lemma {:induction false} PowAdd(a: bv13, m: nat, n: nat)
    ensures Pow(a, m + n) == Mul(Pow(a, m), Pow(a, n))
    decreases m
  {
    if m == 0 {
      MulOne(Pow(a, n));
    } else {
      PowAdd(a, m - 1, n);
      MulAssoc(a, Pow(a, m - 1), Pow(a, n));
    }
  }

  lemma {:induction false} PowPow(a: bv13, m: nat, n: nat)
    ensures Pow(Pow(a, m), n) == Pow(a, m * n)
    decreases n
  {
    if n > 0 {
      PowPow(a, m, n - 1);
      PowAdd(a, m, m * (n - 1));
      assert m + m * (n - 1) == m * n;
    }
  }

  lemma {:induction false} OnePow(n: nat)
    ensures Pow(1, n) == 1
    decreases n
  {
    if n > 0 {
      OnePow(n - 1);
      MulOne(1);
    }
  }

  lemma PowOne(a: bv13)
    ensures Pow(a, 1) == a
  {
    assert Pow(a, 0) == 1;
    MulOne(a);
  }

  lemma TimesAlpha(a: bv13)
    ensures Mul(a, 2) == Xtime(a) && Mul(2, a) == Xtime(a)
  {
    MulOne(a);
    MulBitsXtime(1, a, 13);
    MulIsBits(Xtime(1), a);
    MulIsBits(1, a);
    assert Xtime(1) == 2;
    MulComm(a, 2);
  }

  // ----- Squaring is linear; thirteen squarings are the identity -----

  function Sq(a: bv13): bv13 {
    Mul(a, a)
  }

  /** `n` squarings: a^(2^n). */
  function Frob(a: bv13, n: nat): bv13
    decreases n, a
  {
    if n == 0 then a else Frob(Sq(a), n - 1)
  }

  lemma SqAdd(a: bv13, b: bv13)
    ensures Sq(Add(a, b)) == Add(Sq(a), Sq(b))
  {
    MulAdd(Add(a, b), a, b);
    MulAdd(a, a, b);
    MulAdd(b, a, b);
    MulComm(a, b);
    var m := Mul(a, b);
    AddComm(m, Sq(b));
    AddSwap(Sq(a), m, Sq(b), m);
    AddZero(m);
    AddZero(Add(Sq(a), Sq(b)));
  }

  lemma SqMul(a: bv13, b: bv13)
    ensures Sq(Mul(a, b)) == Mul(Sq(a), Sq(b))
  {
    MulAssoc(a, b, Mul(a, b));
    MulAssoc(b, a, b);
    MulComm(a, b);
    MulAssoc(a, b, b);
    MulAssoc(a, a, Sq(b));
  }

  lemma {:induction false} FrobAdd(a: bv13, b: bv13, n: nat)
    ensures Frob(Add(a, b), n) == Add(Frob(a, n), Frob(b, n))
    decreases n
  {
    if n > 0 {
      SqAdd(a, b);
      FrobAdd(Sq(a), Sq(b), n - 1);
    }
  }

  lemma {:induction false} FrobMul(a: bv13, b: bv13, n: nat)
    ensures Frob(Mul(a, b), n) == Mul(Frob(a, n), Frob(b, n))
    decreases n
  {
    if n > 0 {
      SqMul(a, b);
      FrobMul(Sq(a), Sq(b), n - 1);
    }
  }

  lemma {:induction false} FrobZero(n: nat)
    ensures Frob(0, n) == 0
    decreases n
  {
    if n > 0 {
      MulZero(0);
      FrobZero(n - 1);
    }
  }

  /** The square of a sum of basis elements: every bit contributes its own square. */
  function SqBits(d: bv13, a: bv13, n: nat): bv13
    decreases n, d, a
  {
    if n == 0 then 0 else Add(Pick(a, d), SqBits(Xtime(Xtime(d)), a >> 1, n - 1))
  }

  lemma {:induction false} SqIsBits(c: bv13, a: bv13, n: nat)
    ensures Sq(MulBits(c, a, n)) == SqBits(Sq(c), a, n)
    decreases n
  {
    MulZero(0);
    if n > 0 {
      SqAdd(Pick(a, c), MulBits(Xtime(c), a >> 1, n - 1));
      SqIsBits(Xtime(c), a >> 1, n - 1);
      TimesAlpha(c);
      SqMul(2, c);
      TimesAlpha(2);
      TimesAlpha(Sq(c));
      TimesAlpha(Xtime(Sq(c)));
      MulAssoc(2, 2, Sq(c));
    }
  }

  function Bit(e: bv13, mask: bv13, value: bv13): bv13 {
    if e & mask != 0 then value else 0
  }

  /** Squaring written out: the images of the thirteen basis elements. */
  function SqTable(e: bv13): bv13 {
    Add(Bit(e, 0x1, 0x1),
      Add(Bit(e, 0x2, 0x4),
      Add(Bit(e, 0x4, 0x10),
      Add(Bit(e, 0x8, 0x40),
      Add(Bit(e, 0x10, 0x100),
      Add(Bit(e, 0x20, 0x400),
      Add(Bit(e, 0x40, 0x1000),
      Add(Bit(e, 0x80, 0x36),
      Add(Bit(e, 0x100, 0xD8),
      Add(Bit(e, 0x200, 0x360),
      Add(Bit(e, 0x400, 0xD80),
      Add(Bit(e, 0x800, 0x161B),
      Add(Bit(e, 0x1000, 0x185A), 0)))))))))))))
  }

  lemma SqTableFixed(e: bv13)
    requires SqTable(e) == e
    ensures e == 0 || e == 1
  {
  }

  lemma SqBitsLow(e: bv13)
    ensures SqBits(0x1, e, 13) == Add(Pick(e, 0x1), Add(Pick((e >> 1), 0x4), Add(Pick(((e >> 1) >> 1), 0x10),
              Add(Pick((((e >> 1) >> 1) >> 1), 0x40), Add(Pick(((((e >> 1) >> 1) >> 1) >> 1), 0x100),
              SqBits(0x400, (((((e >> 1) >> 1) >> 1) >> 1) >> 1), 8))))))
  {
    SqBitsStep(0x1, e, 13);
    SqBitsStep(0x4, (e >> 1), 12);
    SqBitsStep(0x10, ((e >> 1) >> 1), 11);
    SqBitsStep(0x40, (((e >> 1) >> 1) >> 1), 10);
    SqBitsStep(0x100, ((((e >> 1) >> 1) >> 1) >> 1), 9);
  }

  lemma SqBitsMid(e: bv13)
    ensures SqBits(0x400, e, 8) == Add(Pick(e, 0x400), Add(Pick((e >> 1), 0x1000), Add(Pick(((e >> 1) >> 1), 0x36),
              Add(Pick((((e >> 1) >> 1) >> 1), 0xD8),
              SqBits(0x360, ((((e >> 1) >> 1) >> 1) >> 1), 4)))))
  {
    SqBitsStep(0x400, e, 8);
    SqBitsStep(0x1000, (e >> 1), 7);
    SqBitsStep(0x36, ((e >> 1) >> 1), 6);
    SqBitsStep(0xD8, (((e >> 1) >> 1) >> 1), 5);
  }

  lemma SqBitsHigh(e: bv13)
    ensures SqBits(0x360, e, 4) == Add(Pick(e, 0x360), Add(Pick((e >> 1), 0xD80), Add(Pick(((e >> 1) >> 1), 0x161B),
              Add(Pick((((e >> 1) >> 1) >> 1), 0x185A), 0))))
  {
    SqBitsStep(0x360, e, 4);
    SqBitsStep(0xD80, (e >> 1), 3);
    SqBitsStep(0x161B, ((e >> 1) >> 1), 2);
    SqBitsStep(0x185A, (((e >> 1) >> 1) >> 1), 1);
  }

  lemma SqBitsStep(d: bv13, a: bv13, n: nat)
    requires n > 0
    ensures SqBits(d, a, n) == Add(Pick(a, d), SqBits(Xtime(Xtime(d)), a >> 1, n - 1))
  {
  }

  lemma SqIsTable(e: bv13)
    ensures Sq(e) == SqTable(e)
  {
    OneTimes(e);
    MulOne(1);
    SqIsBits(1, e, 13);
    SqBitsLow(e);
    SqBitsMid(e >> 1 >> 1 >> 1 >> 1 >> 1);
    SqBitsHigh(e >> 1 >> 1 >> 1 >> 1 >> 1 >> 1 >> 1 >> 1 >> 1);
  }

  lemma SquaresOfAlphaLow()
    ensures Sq(0x2) == 0x4
    ensures Sq(0x4) == 0x10
    ensures Sq(0x10) == 0x100
    ensures Sq(0x100) == 0xD8
    ensures Sq(0xD8) == 0x1176
    ensures Sq(0x1176) == 0xD96
  {
    SqIsTable(0x2);
    SqIsTable(0x4);
    SqIsTable(0x10);
    SqIsTable(0x100);
    SqIsTable(0xD8);
    SqIsTable(0x1176);
  }

  lemma SquaresOfAlphaHigh()
    ensures Sq(0xD96) == 0x1A61
    ensures Sq(0x1A61) == 0x1920
    ensures Sq(0x1920) == 0xA99
    ensures Sq(0xA99) == 0x140C
    ensures Sq(0x140C) == 0x158A
    ensures Sq(0x158A) == 0x1570
    ensures Sq(0x1570) == 0x2
  {
    SqIsTable(0xD96);
    SqIsTable(0x1A61);
    SqIsTable(0x1920);
    SqIsTable(0xA99);
    SqIsTable(0x140C);
    SqIsTable(0x158A);
    SqIsTable(0x1570);
  }

  lemma FrobStep(a: bv13, n: nat)
    requires n > 0
    ensures Frob(a, n) == Frob(Sq(a), n - 1)
  {
  }

  lemma FrobAlpha()
    ensures Frob(2, 13) == 2
  {
    SquaresOfAlphaLow();
    SquaresOfAlphaHigh();
    FrobStep(0x2, 13);
    FrobStep(0x4, 12);
    FrobStep(0x10, 11);
    FrobStep(0x100, 10);
    FrobStep(0xD8, 9);
    FrobStep(0x1176, 8);
    FrobStep(0xD96, 7);
    FrobStep(0x1A61, 6);
    FrobStep(0x1920, 5);
    FrobStep(0xA99, 4);
    FrobStep(0x140C, 3);
    FrobStep(0x158A, 2);
    FrobStep(0x1570, 1);
  }

  lemma {:induction false} FrobFixes(c: bv13, a: bv13, n: nat)
    requires Frob(c, 13) == c
    ensures Frob(MulBits(c, a, n), 13) == MulBits(c, a, n)
    decreases n
  {
    FrobZero(13);
    if n > 0 {
      TimesAlpha(c);
      FrobMul(2, c, 13);
      FrobAlpha();
      FrobFixes(Xtime(c), a >> 1, n - 1);
      FrobAdd(Pick(a, c), MulBits(Xtime(c), a >> 1, n - 1), 13);
    }
  }

  function Two(n: nat): nat
    decreases n, n
  {
    if n == 0 then 1 else 2 * Two(n - 1)
  }

  lemma {:induction false} FrobIsPow(a: bv13, n: nat)
    ensures Frob(a, n) == Pow(a, Two(n))
    decreases n
  {
    PowOne(a);
    if n > 0 {
      FrobIsPow(Sq(a), n - 1);
      assert Pow(a, 2) == Sq(a);
      PowPow(a, 2, Two(n - 1));
    }
  }

  // ----- Every nonzero element has an inverse: a^8190 -----

  const ORDER: nat := 8191

  lemma AllFixed(a: bv13)
    ensures Frob(a, 13) == a
  {
    OneTimes(a);
    MulOne(1);
    FrobMul(1, 1, 13);
    OneFrob(13);
    FrobFixes(1, a, 13);
  }

  lemma {:induction false} OneFrob(n: nat)
    ensures Frob(1, n) == 1
    decreases n
  {
    MulOne(1);
    if n > 0 {
      OneFrob(n - 1);
    }
  }

  lemma FermatAll(a: bv13, n: nat)
    requires n == 8192
    ensures Pow(a, n) == a
  {
    AllFixed(a);
    FrobIsPow(a, 13);
    assert Two(13) == 8192;
  }

  lemma IdempotentIsTrivial(e: bv13)
    requires Mul(e, e) == e
    ensures e == 0 || e == 1
  {
    SqIsTable(e);
    SqTableFixed(e);
  }

  /** The multiplicative order of every nonzero element divides 8191. */
  lemma Fermat(a: bv13, n: nat)
    requires a != 0 && n == ORDER
    ensures Pow(a, n) == 1
  {
    FermatAll(a, n + 1);
    var e := Pow(a, n);
    PowAdd(a, n, n);
    PowAdd(a, n + 1, n - 1);
    assert n + n == (n + 1) + (n - 1);
    assert Mul(e, e) == Mul(a, Pow(a, n - 1)) == e;
    IdempotentIsTrivial(e);
    MulZero(a);
  }

  function Inv(a: bv13): bv13 {
    Pow(a, ORDER - 1)
  }

  lemma InverseLaw(a: bv13)
    requires a != 0
    ensures Mul(a, Inv(a)) == 1
  {
    Fermat(a, ORDER);
  }

  lemma NoZeroDivisors(a: bv13, b: bv13)
    requires Mul(a, b) == 0
    ensures a == 0 || b == 0
  {
    if a != 0 {
      InverseLaw(a);
      MulComm(a, Inv(a));
      MulAssoc(Inv(a), a, b);
      MulZero(Inv(a));
      MulOne(b);
    }
  }

  // ----- The powers of alpha -----

  function Alpha(n: nat): bv13 {
    Pow(2, n)
  }

  lemma {:induction false} PowNonzero(a: bv13, n: nat)
    requires a != 0
    ensures Pow(a, n) != 0
    decreases n
  {
    if n > 0 {
      PowNonzero(a, n - 1);
      if Mul(a, Pow(a, n - 1)) == 0 {
        NoZeroDivisors(a, Pow(a, n - 1));
      }
    }
  }

  /** Trial division: no number in [lo, hi) divides 8191. */
  predicate NoDivisorIn(lo: nat, hi: nat) {
    hi <= lo || hi <= 1 || (8191 % (hi - 1) != 0 && NoDivisorIn(lo, hi - 1))
  }

  lemma {:induction false} NoDivisorInMeans(lo: nat, hi: nat, e: nat)
    requires NoDivisorIn(lo, hi) && lo <= e < hi && 1 < e
    ensures 8191 % e != 0
  {
    if e < hi - 1 {
      NoDivisorInMeans(lo, hi - 1, e);
    }
  }

  lemma TrialDivision()
    ensures NoDivisorIn(2, 12) && NoDivisorIn(12, 22) && NoDivisorIn(22, 32) && NoDivisorIn(32, 42)
  {
  }

  lemma MoreTrialDivision()
    ensures NoDivisorIn(42, 52) && NoDivisorIn(52, 62) && NoDivisorIn(62, 72) && NoDivisorIn(72, 82)
    ensures NoDivisorIn(82, 92)
  {
  }

  lemma SmallDivisors(e: nat)
    requires 2 <= e < 92
    ensures 8191 % e != 0
  {
    TrialDivision();
    MoreTrialDivision();
    var lo := 2 + (e - 2) / 10 * 10;
    assert NoDivisorIn(lo, lo + 10);
    NoDivisorInMeans(lo, lo + 10, e);
  }

  lemma OrderIsPrime(d: nat)
    requires 2 <= d < 8191
    ensures 8191 % d != 0
  {
    if d < 92 {
      SmallDivisors(d);
    } else if 8191 % d == 0 {
      var q := 8191 / d;
      Cofactor(8191, d, q);
      SmallDivisors(q);
    }
  }

  /** A divisor past the square root leaves one before it. */
  lemma Cofactor(n: nat, d: nat, q: nat)
    requires 0 < d < n && n == q * d && n < 92 * d
    ensures 2 <= q < 92 && n % q == 0
  {
    assert q >= 92 ==> q * d >= 92 * d;
    Circular.ModUnique(n, q, d, 0);
  }

  /** Euclid's argument: a positive exponent below 8191 never gives 1. */
  lemma {:induction false} AlphaNotOne(d: nat)
    requires 0 < d < ORDER
    ensures Alpha(d) != 1
    decreases d
  {
    if d == 1 {
      PowOne(2);
    } else if Alpha(d) == 1 {
      var n := ORDER;
      var q, r := n / d, n % d;
      assert n == d * q + r;
      Fermat(2, n);
      PowAdd(2, d * q, r);
      PowPow(2, d, q);
      OnePow(q);
      MulOne(Pow(2, r));
      OrderIsPrime(d);
      AlphaNotOne(r);
    }
  }

  lemma AlphaDistinct(i: nat, j: nat)
    requires i < j < ORDER
    ensures Alpha(i) != Alpha(j)
  {
    if Alpha(i) == Alpha(j) {
      var d := j - i;
      PowAdd(2, i, d);
      PowNonzero(2, i);
      var p, q := Alpha(i), Alpha(d);
      assert p == Mul(p, q);
      MulOne(p);
      MulAdd(p, q, 1);
      AddZero(p);
      NoZeroDivisors(p, Add(q, 1));
      AddCancel(q, 1);
      AlphaNotOne(d);
    }
  }
}
