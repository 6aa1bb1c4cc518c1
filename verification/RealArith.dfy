/** Small facts about products and quotients of reals. */
module RealArith {

  lemma ProductPositive(a: real, b: real)
    requires a > 0.0 && b > 0.0
    ensures a * b > 0.0
  {
  }

  lemma SquareNonnegative(a: real)
    ensures a * a >= 0.0
  {
  }

  lemma QuotientPositive(a: real, b: real)
    requires a > 0.0 && b > 0.0
    ensures a / b > 0.0
  {
    assert a / b * b == a;
    if a / b <= 0.0 {
      ProductNonnegative(-(a / b), b);
    }
  }

  lemma ProductNonnegative(a: real, b: real)
    requires a >= 0.0 && b >= 0.0
    ensures a * b >= 0.0
  {
  }

  lemma Distribute(a: real, x: real, y: real)
    ensures a * (x + y) == a * x + a * y
  {
  }

  // ----- Folded products -----

  /** A product behind three empty recursive steps: more than the verifier unfolds on
      its own, so proofs about scaled vectors see products as atoms. */
  function FoldedMul(a: real, b: real, folds: nat): real
    decreases folds, a, b
  {
    if folds == 0 then a * b else FoldedMul(a, b, folds - 1)
  }

  function Mul(a: real, b: real): real {
    FoldedMul(a, b, 3)
  }

  lemma MulIs(a: real, b: real)
    ensures Mul(a, b) == a * b
  {
    assert FoldedMul(a, b, 1) == a * b;
    assert FoldedMul(a, b, 2) == FoldedMul(a, b, 1);
  }

  lemma MulAssoc(a: real, b: real, c: real)
    ensures Mul(a, Mul(b, c)) == Mul(Mul(a, b), c)
  {
    MulIs(b, c);
    MulIs(a, b);
    MulIs(a, b * c);
    MulIs(a * b, c);
  }

  lemma MulComm(a: real, b: real)
    ensures Mul(a, b) == Mul(b, a)
  {
    MulIs(a, b);
    MulIs(b, a);
  }

  lemma MulAdd(a: real, b: real, c: real)
    ensures Mul(a, b + c) == Mul(a, b) + Mul(a, c)
    ensures Mul(a, b - c) == Mul(a, b) - Mul(a, c)
  {
    MulIs(a, b + c);
    MulIs(a, b - c);
    MulIs(a, b);
    MulIs(a, c);
    Distribute(a, b, c);
    Distribute(a, b, -c);
  }

  lemma MulZero(a: real)
    ensures Mul(a, 0.0) == 0.0 == Mul(0.0, a)
    ensures Mul(1.0, a) == a
  {
    MulIs(a, 0.0);
    MulIs(0.0, a);
    MulIs(1.0, a);
  }

  lemma MulDivide(a: real, b: real)
    requires b != 0.0
    ensures Mul(b, a / b) == a
  {
    MulIs(b, a / b);
  }

  /** Multiplying by a positive number keeps and reflects order. */
  lemma MulOrder(c: real, x: real, y: real)
    requires c > 0.0
    ensures x <= y <==> Mul(c, x) <= Mul(c, y)
  {
    MulIs(c, x);
    MulIs(c, y);
    Distribute(c, y, -x);
    if x < y {
      ProductPositive(c, y - x);
    } else if x > y {
      ProductPositive(c, x - y);
    }
  }

  lemma MulPositive(a: real, b: real)
    requires a > 0.0
    ensures b > 0.0 <==> Mul(a, b) > 0.0
    ensures b == 0.0 <==> Mul(a, b) == 0.0
  {
    MulOrder(a, 0.0, b);
    MulOrder(a, b, 0.0);
    MulZero(a);
  }
}
