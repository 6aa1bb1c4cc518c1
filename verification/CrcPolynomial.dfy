/**
  What the checksum of code/lib/flash_integrity.c is: the remainder of the message
  modulo the CRC-32 polynomial of section 8 of RFC 1952.
*/
module CrcPolynomial {

  import opened FlashIntegrity

  // ----- Polynomials over two elements -----

  /** x^32 + x^26 + x^23 + x^22 + x^16 + x^12 + x^11 + x^10 + x^8 + x^7 + x^5 + x^4 + x^2 + x + 1 */
  const EXPONENTS: seq<nat> := [32] + LOWER
  const LOWER: seq<nat> := [26, 23, 22] + MIDDLE
  const MIDDLE: seq<nat> := [16, 12, 11] + LOW
  const LOW: seq<nat> := [10, 8, 7, 5] + LOWEST
  const LOWEST: seq<nat> := [4, 2, 1, 0]

  /** The coefficient of x^k of a polynomial listed from x^0 up. */
  predicate At(q: seq<bool>, k: int) {
    0 <= k < |q| && q[k]
  }

  /** The coefficient of x^k in the sum of x^e over `es`. */
  predicate Has(es: seq<nat>, k: int) {
    es != [] && ((es[0] == k) != Has(es[1..], k))
  }

  /** The coefficient of x^k in `q` times that sum. */
  predicate Product(q: seq<bool>, es: seq<nat>, k: int) {
    es != [] && (At(q, k - es[0]) != Product(q, es[1..], k))
  }

  /** Multiplying by x and adding `low`. */
  lemma {:induction false} ProductShift(q: seq<bool>, low: bool, es: seq<nat>, k: int)
    ensures Product([low] + q, es, k) == (Product(q, es, k - 1) != (low && Has(es, k)))
    decreases |es|
  {
    if es != [] {
      ProductShift(q, low, es[1..], k);
      assert At([low] + q, k - es[0]) == if es[0] == k then low else At(q, k - 1 - es[0]);
    }
  }

  lemma {:induction false} ProductBelow(q: seq<bool>, es: seq<nat>, k: int)
    requires k < 0
    ensures !Product(q, es, k)
    decreases |es|
  {
    if es != [] {
      ProductBelow(q, es[1..], k);
    }
  }

  lemma {:induction false} ProductOfNothing(es: seq<nat>, k: int)
    ensures !Product([], es, k)
    decreases |es|
  {
    if es != [] {
      ProductOfNothing(es[1..], k);
    }
  }

  lemma {:induction false} HasAbove(es: seq<nat>, k: int)
    requires forall i :: 0 <= i < |es| ==> es[i] < k
    ensures !Has(es, k)
    decreases |es|
  {
    if es != [] {
      HasAbove(es[1..], k);
    }
  }

  // ----- Bits of the register -----

  /** Half of a register behind three empty recursive steps: proofs about bits see it as
      an atom. */
  function FoldedHalf(r: bv32, folds: nat): bv32
    decreases folds, r
  {
    if folds == 0 then r >> 1 else FoldedHalf(r, folds - 1)
  }

  function Half(r: bv32): bv32 {
    FoldedHalf(r, 3)
  }

  lemma HalfIs(r: bv32)
    ensures Half(r) == r >> 1
  {
    assert FoldedHalf(r, 1) == r >> 1;
    assert FoldedHalf(r, 2) == FoldedHalf(r, 1);
  }

  predicate Bit(r: bv32, i: nat)
    decreases i
  {
    if i == 0 then Odd(r) else Bit(Half(r), i - 1)
  }

  /** The register holds its polynomial reflected: x^31 in the lowest bit. */
  predicate Coefficient(r: bv32, k: int) {
    0 <= k < 32 && Bit(r, 31 - k)
  }

  lemma {:induction false} BitXor(a: bv32, b: bv32, i: nat)
    ensures Bit(Xor32(a, b), i) == (Bit(a, i) != Bit(b, i))
    decreases i
  {
    OddXor(a, b);
    if i > 0 {
      HalfXor(a, b);
      BitXor(Half(a), Half(b), i - 1);
    }
  }

  lemma HalfXor(a: bv32, b: bv32)
    ensures Half(Xor32(a, b)) == Xor32(Half(a), Half(b))
  {
    HalfIs(a);
    HalfIs(b);
    HalfIs(Xor32(a, b));
    calc {
      Xor32(a, b) >> 1;
      (a ^ b) >> 1;
      (a >> 1) ^ (b >> 1);
      Xor32(a >> 1, b >> 1);
    }
  }

  /** `n` low ones. */
  function Ones(n: nat): bv32 {
    if n == 0 then 0 else (Ones(n - 1) << 1) | 1
  }

  predicate Under(r: bv32, m: bv32) {
    r & !m == 0
  }

  lemma UnderHalf(r: bv32, m: bv32)
    requires Under(r, (m << 1) | 1)
    ensures Under(Half(r), m)
  {
    HalfIs(r);
  }

  /** A number below 2^n has no bit n. */
  lemma {:induction false} BitAbove(r: bv32, n: nat)
    requires Under(r, Ones(n))
    ensures !Bit(r, n)
    decreases n
  {
    if n > 0 {
      UnderHalf(r, Ones(n - 1));
      BitAbove(Half(r), n - 1);
    } else {
      assert r == 0;
    }
  }

  lemma AllOnes()
    ensures Ones(32) == 0xFFFFFFFF
  {
    assert Ones(8) == 0xFF;
    assert Ones(16) == 0xFFFF;
    assert Ones(24) == 0xFFFFFF;
  }

  lemma TopIsShiftedOut(r: bv32)
    ensures !Bit(r, 32)
  {
    AllOnes();
    BitAbove(r, 32);
  }

  lemma {:induction false} OnesBit(n: nat, i: nat)
    requires i < n <= 32
    ensures Bit(Ones(n), i)
    decreases n
  {
    OnesHalf(n);
    if i > 0 {
      OnesBit(n - 1, i - 1);
    }
  }

  lemma OnesHalf(n: nat)
    requires 0 < n <= 32
    ensures Odd(Ones(n)) && Half(Ones(n)) == Ones(n - 1)
  {
    OnesFit(n - 1);
    ShiftBack(Ones(n - 1), Ones(n));
  }

  lemma {:induction false} OnesFit(n: nat)
    requires n < 32
    ensures Under(Ones(n), 0x7FFFFFFF)
    decreases n
  {
    AllOnes();
    OnesGrow(n, 31);
    assert Ones(31) == 0x7FFFFFFF by {
      assert Ones(8) == 0xFF;
      assert Ones(16) == 0xFFFF;
      assert Ones(24) == 0xFFFFFF;
    }
  }

  lemma {:induction false} OnesGrow(n: nat, k: nat)
    requires n <= k
    ensures Under(Ones(n), Ones(k))
    decreases n
  {
    if n > 0 {
      OnesGrow(n - 1, k - 1);
      UnderDouble(Ones(n - 1), Ones(k - 1));
    }
  }

  lemma UnderDouble(a: bv32, b: bv32)
    requires Under(a, b)
    ensures Under((a << 1) | 1, (b << 1) | 1)
  {
  }

  lemma ShiftBack(m: bv32, d: bv32)
    requires Under(m, 0x7FFFFFFF) && d == (m << 1) | 1
    ensures Odd(d) && Half(d) == m
  {
    HalfIs(d);
  }

  // ----- The constant of the source is the polynomial -----

  /** The number whose only bit is bit n. */
  function Single(n: nat): bv32 {
    if n == 0 then 1 else Single(n - 1) << 1
  }

  lemma {:induction false} SingleUnder(n: nat)
    ensures Under(Single(n), Ones(n + 1))
    decreases n
  {
    if n > 0 {
      SingleUnder(n - 1);
      UnderShift(Single(n - 1), Ones(n));
    } else {
      assert Ones(1) == 1;
    }
  }

  lemma UnderShift(a: bv32, b: bv32)
    requires Under(a, b)
    ensures Under(a << 1, (b << 1) | 1)
  {
  }

  lemma UnderTrans(a: bv32, b: bv32, c: bv32)
    requires Under(a, b) && Under(b, c)
    ensures Under(a, c)
  {
  }

  lemma DoubledHalf(m: bv32, d: bv32)
    requires Under(m, 0x7FFFFFFF) && d == m << 1
    ensures !Odd(d) && Half(d) == m
  {
    HalfIs(d);
  }

  lemma SingleFits(n: nat)
    requires n < 31
    ensures Under(Single(n), 0x7FFFFFFF)
  {
    SingleUnder(n);
    OnesGrow(n + 1, 31);
    OnesFit(31);
    UnderTrans(Single(n), Ones(n + 1), Ones(31));
    UnderTrans(Single(n), Ones(31), 0x7FFFFFFF);
  }

  lemma SingleHalf(n: nat)
    requires 0 < n < 32
    ensures !Odd(Single(n)) && Half(Single(n)) == Single(n - 1)
  {
    SingleFits(n - 1);
    DoubledHalf(Single(n - 1), Single(n));
  }

  lemma {:induction false} SingleBit(n: nat, i: nat)
    requires n < 32
    ensures Bit(Single(n), i) == (i == n)
    decreases n
  {
    if n == 0 {
      HalfIs(1);
      if i > 0 {
        NoBit(i - 1);
      }
    } else {
      SingleHalf(n);
      if i > 0 {
        SingleBit(n - 1, i - 1);
      }
    }
  }

  lemma {:induction false} NoBit(i: nat)
    ensures !Bit(0, i)
    decreases i
  {
    if i > 0 {
      HalfIs(0);
      NoBit(i - 1);
    }
  }

  /** The sum of x^e over `es` as the register holds it. */
  function Reflected(es: seq<nat>): bv32
    requires forall i :: 0 <= i < |es| ==> es[i] < 32
  {
    if es == [] then 0 else Xor32(Single(31 - es[0]), Reflected(es[1..]))
  }

  lemma {:induction false} ReflectedHas(es: seq<nat>, k: nat)
    requires (forall i :: 0 <= i < |es| ==> es[i] < 32) && k < 32
    ensures Coefficient(Reflected(es), k) == Has(es, k)
    decreases |es|
  {
    if es == [] {
      NoBit(31 - k);
    } else {
      ReflectedHas(es[1..], k);
      BitXor(Single(31 - es[0]), Reflected(es[1..]), 31 - k);
      SingleBit(31 - es[0], 31 - k);
    }
  }

  /** The list holds exponents below 32 whose sum the register shows as `r`. */
  ghost predicate Shows(es: seq<nat>, r: bv32) {
    (forall i :: 0 <= i < |es| ==> es[i] < 32) && Reflected(es) == r
  }

  /** One power more. */
  lemma Extend(e: nat, es: seq<nat>, r: bv32, top: bv32, sum: bv32) returns (more: seq<nat>)
    requires e < 32 && Shows(es, r) && Single(31 - e) == top && sum == top ^ r
    ensures more == [e] + es && Shows(more, sum)
  {
    more := [e] + es;
    assert more[1..] == es;
  }

  lemma SinglesAre()
    ensures Single(5) == 0x20 && Single(8) == 0x100 && Single(9) == 0x200 && Single(15) == 0x8000
    ensures Single(19) == 0x80000 && Single(20) == 0x100000 && Single(21) == 0x200000 && Single(23) == 0x800000
    ensures Single(24) == 0x1000000 && Single(26) == 0x4000000 && Single(27) == 0x8000000
    ensures Single(29) == 0x20000000 && Single(30) == 0x40000000 && Single(31) == 0x80000000
  {
    assert Single(4) == 0x10;
    assert Single(12) == 0x1000;
    assert Single(16) == 0x10000;
    assert Single(28) == 0x10000000;
  }

  lemma LowestPart() returns (es: seq<nat>)
    ensures es == LOWEST && Shows(es, 0xE8000000)
  {
    SinglesAre();
    es := [];
    var rest := es;
    es := Extend(0, es, 0x00000000, 0x80000000, 0x80000000);
    es := Extend(1, es, 0x80000000, 0x40000000, 0xC0000000);
    es := Extend(2, es, 0xC0000000, 0x20000000, 0xE0000000);
    es := Extend(4, es, 0xE0000000, 0x08000000, 0xE8000000);
    assert es == [4, 2, 1, 0] + rest;
  }

  lemma LowPart() returns (es: seq<nat>)
    ensures es == LOW && Shows(es, 0xEDA00000)
  {
    SinglesAre();
    es := LowestPart();
    var rest := es;
    es := Extend(5, es, 0xE8000000, 0x04000000, 0xEC000000);
    es := Extend(7, es, 0xEC000000, 0x01000000, 0xED000000);
    es := Extend(8, es, 0xED000000, 0x00800000, 0xED800000);
    es := Extend(10, es, 0xED800000, 0x00200000, 0xEDA00000);
    assert es == [10, 8, 7, 5] + rest;
  }

  lemma MiddlePart() returns (es: seq<nat>)
    ensures es == MIDDLE && Shows(es, 0xEDB88000)
  {
    SinglesAre();
    es := LowPart();
    var rest := es;
    es := Extend(11, es, 0xEDA00000, 0x00100000, 0xEDB00000);
    es := Extend(12, es, 0xEDB00000, 0x00080000, 0xEDB80000);
    es := Extend(16, es, 0xEDB80000, 0x00008000, 0xEDB88000);
    assert es == [16, 12, 11] + rest;
  }

  /** The source's constant is the polynomial without x^32, reflected. */
  lemma ConstantIsPolynomial() returns (es: seq<nat>)
    ensures es == LOWER && Shows(es, REFLECTED)
  {
    SinglesAre();
    es := MiddlePart();
    var rest := es;
    es := Extend(22, es, 0xEDB88000, 0x00000200, 0xEDB88200);
    es := Extend(23, es, 0xEDB88200, 0x00000100, 0xEDB88300);
    es := Extend(26, es, 0xEDB88300, 0x00000020, 0xEDB88320);
    assert es == [26, 23, 22] + rest;
  }

  // ----- One bit step multiplies by x -----

  lemma StepBit(r: bv32, i: nat)
    ensures Bit(BitStep(r), i) == (Bit(r, i + 1) != (Odd(r) && Bit(REFLECTED, i)))
  {
    HalfIs(r);
    BitXor(Half(r), REFLECTED, i);
    assert BitStep(r) == if Odd(r) then Xor32(Half(r), REFLECTED) else Half(r);
    assert Bit(r, i + 1) == Bit(Half(r), i);
  }

  /** The sum of x^e over `es` is x^32 and what the source's constant holds. */
  ghost predicate IsPolynomial(es: seq<nat>) {
    && (forall k: nat :: k < 32 ==> Coefficient(REFLECTED, k) == Has(es, k))
    && Has(es, 32) && (forall k: nat :: k > 32 ==> !Has(es, k))
  }

  lemma ConstantHas(lower: seq<nat>, es: seq<nat>)
    requires es == [32] + lower && (forall i :: 0 <= i < |lower| ==> lower[i] < 32) && Reflected(lower) == REFLECTED
    ensures IsPolynomial(es)
  {
    assert es[1..] == lower;
    forall k: nat | k < 32
      ensures Coefficient(REFLECTED, k) == Has(es, k)
    {
      ReflectedHas(lower, k);
    }
    forall k: nat | k >= 32
      ensures Has(es, k) == (k == 32)
    {
      HasAbove(lower, k);
    }
  }

  /** Coefficients move up by one; x^31 becomes x^32, which is the rest of the polynomial. */
  lemma StepCoefficient(r: bv32, k: nat, es: seq<nat>)
    requires IsPolynomial(es)
    ensures Coefficient(BitStep(r), k) == (Coefficient(r, k - 1) != (Odd(r) && Has(es, k)))
  {
    if k < 32 {
      StepBit(r, 31 - k);
      assert Coefficient(REFLECTED, k) == Has(es, k);
      if k == 0 {
        TopIsShiftedOut(r);
      }
    }
  }

  // ----- The register is a remainder -----

  /** `d` times x^up equals `q` times the polynomial plus the register; `d` is a polynomial
      given by its coefficients. */
  ghost predicate Divides(d: int -> bool, up: nat, q: seq<bool>, r: bv32, es: seq<nat>) {
    && (forall k: int :: k < 0 ==> !d(k))
    && (forall k: int :: k >= 0 ==> d(k - up) == (Product(q, es, k) != Coefficient(r, k)))
  }

  lemma StepDivides(d: int -> bool, up: nat, q: seq<bool>, r: bv32, es: seq<nat>)
    requires IsPolynomial(es) && Divides(d, up, q, r, es)
    ensures Divides(d, up + 1, [Odd(r)] + q, BitStep(r), es)
  {
    forall k: int | k >= 0
      ensures d(k - (up + 1)) == (Product([Odd(r)] + q, es, k) != Coefficient(BitStep(r), k))
    {
      ProductShift(q, Odd(r), es, k);
      StepCoefficient(r, k, es);
      if k == 0 {
        ProductBelow(q, es, -1);
        assert !d(0 - (up + 1));
      } else {
        assert d((k - 1) - up) == (Product(q, es, k - 1) != Coefficient(r, k - 1));
      }
    }
  }

  /** The quotient after `n` more bit steps. */
  function Quotient(q: seq<bool>, r: bv32, n: nat): seq<bool>
    decreases n
  {
    if n == 0 then q else Quotient([Odd(r)] + q, BitStep(r), n - 1)
  }

  lemma {:induction false} StepsDivide(d: int -> bool, up: nat, q: seq<bool>, r: bv32, es: seq<nat>, n: nat)
    requires IsPolynomial(es) && Divides(d, up, q, r, es)
    ensures Divides(d, up + n, Quotient(q, r, n), BitSteps(r, n), es)
    decreases n
  {
    if n > 0 {
      StepDivides(d, up, q, r, es);
      StepsDivide(d, up + 1, [Odd(r)] + q, BitStep(r), es, n - 1);
    }
  }

  // ----- The message as a polynomial -----

  /** Bit `i` of the message, bytes in order, each from its lowest bit. */
  predicate MessageBit(data: seq<bv8>, i: int) {
    0 <= i < 8 * |data| && Bit(data[i / 8] as bv32, i % 8)
  }

  /** The message times x^32, its first bit the highest coefficient, plus the initial
      value of 32 ones times x to the number of its bits. */
  predicate Dividend(data: seq<bv8>, k: int) {
    (k >= 32 && MessageBit(data, 8 * |data| - 1 - (k - 32))) != (8 * |data| <= k < 8 * |data| + 32)
  }

  /** The coefficients of a byte in the register. */
  predicate ByteCoefficient(b: bv8, k: int) {
    24 <= k < 32 && Bit(b as bv32, 31 - k)
  }

  lemma DividendSnoc(data: seq<bv8>, b: bv8, k: int)
    ensures Dividend(data + [b], k) == (Dividend(data, k - 8) != ByteCoefficient(b, k - 8))
  {
    var i := 8 * |data| + 7 - (k - 32);
    if k >= 40 && i >= 0 {
      assert (data + [b])[i / 8] == data[i / 8];
    }
  }

  lemma NarrowByte(b: bv8)
    ensures Under(b as bv32, 0xFF)
  {
  }

  lemma {:induction false} NarrowBits(r: bv32, n: nat, i: nat)
    requires Under(r, Ones(n)) && n <= i < 32
    ensures !Bit(r, i)
    decreases n
  {
    if n == 0 {
      assert r == 0;
      NoBit(i);
    } else {
      UnderHalf(r, Ones(n - 1));
      NarrowBits(Half(r), n - 1, i - 1);
    }
  }

  lemma ByteIn(r: bv32, b: bv8, k: nat)
    ensures Coefficient(Xor32(r, b as bv32), k) == (Coefficient(r, k) != ByteCoefficient(b, k))
  {
    if k < 32 {
      BitXor(r, b as bv32, 31 - k);
      if k < 24 {
        NarrowByte(b);
        assert Ones(8) == 0xFF;
        NarrowBits(b as bv32, 8, 31 - k);
      }
    }
  }

  ghost predicate IsRemainder(data: seq<bv8>, q: seq<bool>, r: bv32, es: seq<nat>) {
    Divides((k: int) => Dividend(data, k), 0, q, r, es)
  }

  lemma ByteDivides(data: seq<bv8>, b: bv8, q: seq<bool>, r: bv32, es: seq<nat>)
    requires IsPolynomial(es) && IsRemainder(data, q, r, es)
    ensures IsRemainder(data + [b], Quotient(q, Xor32(r, b as bv32), 8), ByteStep(r, b), es)
  {
    var was := (k: int) => Dividend(data, k);
    var fed := (k: int) => Dividend(data, k) != ByteCoefficient(b, k);
    var x := Xor32(r, b as bv32);
    forall k: int | k >= 0
      ensures fed(k - 0) == (Product(q, es, k) != Coefficient(x, k))
    {
      ByteIn(r, b, k);
      assert was(k - 0) == (Product(q, es, k) != Coefficient(r, k));
    }
    StepsDivide(fed, 0, q, x, es, 8);
    var next := (k: int) => Dividend(data + [b], k);
    forall k: int
      ensures next(k) == fed(k - 8)
    {
      DividendSnoc(data, b, k);
    }
  }

  lemma StartDivides(es: seq<nat>)
    ensures IsRemainder([], [], 0xFFFFFFFF, es)
  {
    forall k: int | k >= 0
      ensures Dividend([], k) == (Product([], es, k) != Coefficient(0xFFFFFFFF, k))
    {
      ProductOfNothing(es, k);
      if k < 32 {
        AllOnes();
        OnesBit(32, 31 - k);
      }
    }
  }

  lemma {:induction false} RegisterIsRemainder(data: seq<bv8>, es: seq<nat>) returns (q: seq<bool>)
    requires IsPolynomial(es)
    ensures IsRemainder(data, q, Register(0xFFFFFFFF, data), es)
    decreases |data|
  {
    if data == [] {
      StartDivides(es);
      q := [];
    } else {
      var before, b := data[..|data| - 1], data[|data| - 1];
      var p := RegisterIsRemainder(before, es);
      var r := Register(0xFFFFFFFF, before);
      assert data == before + [b];
      RegisterConcat(0xFFFFFFFF, before, [b]);
      RegisterOne(r, b);
      ByteDivides(before, b, p, r, es);
      q := Quotient(p, Xor32(r, b as bv32), 8);
    }
  }

  /** The register is the complement of the checksum. */
  lemma ChecksumBit(data: seq<bv8>, k: nat)
    requires k < 32
    ensures Coefficient(Register(0xFFFFFFFF, data), k) == !Coefficient(Crc32(data), k)
  {
    BitXor(Register(0xFFFFFFFF, data), 0xFFFFFFFF, 31 - k);
    AllOnes();
    OnesBit(32, 31 - k);
  }

  ghost predicate IsChecksum(data: seq<bv8>, q: seq<bool>, es: seq<nat>) {
    forall k: int :: k >= 0 ==> Dividend(data, k) == (Product(q, es, k) != (k < 32 && !Coefficient(Crc32(data), k)))
  }

  lemma RemainderIsChecksum(data: seq<bv8>, q: seq<bool>, es: seq<nat>)
    requires IsRemainder(data, q, Register(0xFFFFFFFF, data), es)
    ensures IsChecksum(data, q, es)
  {
    var r := Register(0xFFFFFFFF, data);
    var d := (k: int) => Dividend(data, k);
    forall k: int | k >= 0
      ensures Dividend(data, k) == (Product(q, es, k) != (k < 32 && !Coefficient(Crc32(data), k)))
    {
      assert d(k - 0) == (Product(q, es, k) != Coefficient(r, k));
      if k < 32 {
        ChecksumBit(data, k);
      }
    }
  }

  /** The checksum of any message is the complemented remainder of the message polynomial
      modulo the CRC-32 polynomial. */
  lemma Crc32IsRemainder(data: seq<bv8>) returns (q: seq<bool>)
    ensures IsChecksum(data, q, EXPONENTS)
  {
    var lower := ConstantIsPolynomial();
    var es := [32] + lower;
    ConstantHas(lower, es);
    q := RegisterIsRemainder(data, es);
    RemainderIsChecksum(data, q, es);
  }

  // ----- The check value -----

  /** The message of the digits 1 to 9, which checks an implementation. */
  const DIGITS: seq<bv8> := [0x31, 0x32, 0x33, 0x34, 0x35, 0x36, 0x37, 0x38, 0x39]

  /** One more digit through the register, bit by bit. */
  lemma Fed(n: nat, c: bv32, b: bv8, c0: bv32, c1: bv32, c2: bv32, c3: bv32, c4: bv32, c5: bv32, c6: bv32, c7: bv32,
      c8: bv32)
    requires n < 9 && Register(0xFFFFFFFF, DIGITS[..n]) == c && DIGITS[n] == b
    requires c0 == c ^ (b as bv32) && c1 == BitStep(c0) && c2 == BitStep(c1) && c3 == BitStep(c2) && c4 == BitStep(c3)
    requires c5 == BitStep(c4) && c6 == BitStep(c5) && c7 == BitStep(c6) && c8 == BitStep(c7)
    ensures Register(0xFFFFFFFF, DIGITS[..n + 1]) == c8
  {
    EightSteps(c0, c1, c2, c3, c4, c5, c6, c7, c8);
    assert DIGITS[..n + 1] == DIGITS[..n] + [b];
    RegisterConcat(0xFFFFFFFF, DIGITS[..n], [b]);
    RegisterOne(c, b);
  }

  lemma EightSteps(c0: bv32, c1: bv32, c2: bv32, c3: bv32, c4: bv32, c5: bv32, c6: bv32, c7: bv32, c8: bv32)
    requires c1 == BitStep(c0) && c2 == BitStep(c1) && c3 == BitStep(c2) && c4 == BitStep(c3)
    requires c5 == BitStep(c4) && c6 == BitStep(c5) && c7 == BitStep(c6) && c8 == BitStep(c7)
    ensures BitSteps(c0, 8) == c8
  {
    assert BitSteps(c7, 1) == c8;
    assert BitSteps(c5, 3) == c8;
    assert BitSteps(c3, 5) == c8;
    assert BitSteps(c1, 7) == c8;
  }

  lemma FirstDigits()
    ensures Register(0xFFFFFFFF, DIGITS[..3]) == 0x77B79C2D
  {
    Fed(0, 0xFFFFFFFF, 0x31, 0xFFFFFFCE, 0x7FFFFFE7, 0xD2477CD3, 0x849B3D49,
        0xAFF51D84, 0x57FA8EC2, 0x2BFD4761, 0xF8462090, 0x7C231048);
    Fed(1, 0x7C231048, 0x32, 0x7C23107A, 0x3E11883D, 0xF2B0473E, 0x7958239F,
        0xD11492EF, 0x8532CA57, 0xAF21E60B, 0xBA287025, 0xB0ACBB32);
    Fed(2, 0xB0ACBB32, 0x33, 0xB0ACBB01, 0xB5EEDEA0, 0x5AF76F50, 0x2D7BB7A8,
        0x16BDDBD4, 0x0B5EEDEA, 0x05AF76F5, 0xEF6F385A, 0x77B79C2D);
  }

  lemma MiddleDigits()
    ensures Register(0xFFFFFFFF, DIGITS[..6]) == 0xF68D2C9E
  {
    FirstDigits();
    Fed(3, 0x77B79C2D, 0x34, 0x77B79C19, 0xD6634D2C, 0x6B31A696, 0x3598D34B,
        0xF774EA85, 0x9602F662, 0x4B017B31, 0xC8383EB8, 0x641C1F5C);
    Fed(4, 0x641C1F5C, 0x35, 0x641C1F69, 0xDFB68C94, 0x6FDB464A, 0x37EDA325,
        0xF64E52B2, 0x7B272959, 0xD02B178C, 0x68158BC6, 0x340AC5E3);
    Fed(5, 0x340AC5E3, 0x36, 0x340AC5D5, 0xF7BDE1CA, 0x7BDEF0E5, 0xD057FB52,
        0x682BFDA9, 0xD9AD7DF4, 0x6CD6BEFA, 0x366B5F7D, 0xF68D2C9E);
  }

  /** Its checksum, as every CRC-32/ISO-HDLC gives it. */
  lemma CheckValue()
    ensures Crc32(DIGITS) == 0xCBF43926
  {
    MiddleDigits();
    Fed(6, 0xF68D2C9E, 0x37, 0xF68D2CA9, 0x96FE1574, 0x4B7F0ABA, 0x25BF855D,
        0xFF67418E, 0x7FB3A0C7, 0xD2615343, 0x84882A81, 0xAFFC9660);
    Fed(7, 0xAFFC9660, 0x38, 0xAFFC9658, 0x57FE4B2C, 0x2BFF2596, 0x15FF92CB,
        0xE7474A45, 0x9E1B2602, 0x4F0D9301, 0xCA3E4AA0, 0x651F2550);
    Fed(8, 0x651F2550, 0x39, 0x651F2569, 0xDF371194, 0x6F9B88CA, 0x37CDC465,
        0xF65E6112, 0x7B2F3089, 0xD02F1B64, 0x68178DB2, 0x340BC6D9);
    assert DIGITS[..9] == DIGITS;
  }
}
