/** The algebra behind bounded-distance decoding, over GF(2^13). */
module BchTheory {

  // An error pattern is a list `xs` of distinct nonzero locators.  Its syndromes
  // are power sums of the locators, and the Berlekamp-Massey discrepancy of a
  // trial locator polynomial is a weighted power sum whose weights are the values
  // of the reciprocal polynomial at the locators.  With that reading Massey's
  // length bound and the final root property both follow from the Vandermonde
  // lemma.

  import opened Gf13

  // ----- Weighted power sums and the Vandermonde lemma -----

  ghost predicate Locators(xs: seq<bv13>) {
    && (forall i :: 0 <= i < |xs| ==> xs[i] != 0)
    && (forall i, j :: 0 <= i < j < |xs| ==> xs[i] != xs[j])
  }

  /** The sum of ws[l] * xs[l]^j. */
  function WeightedSum(xs: seq<bv13>, ws: seq<bv13>, j: nat): bv13
    requires |xs| == |ws|
  {
    if |xs| == 0 then 0
    else
      var n := |xs| - 1;
      Add(WeightedSum(xs[..n], ws[..n], j), Mul(ws[n], Pow(xs[n], j)))
  }

  /** The sum of xs[l]^k. */
  function PowerSum(xs: seq<bv13>, k: nat): bv13 {
    if |xs| == 0 then 0
    else
      var n := |xs| - 1;
      Add(PowerSum(xs[..n], k), Pow(xs[n], k))
  }

  ghost predicate AllZero(ws: seq<bv13>) {
    forall i :: 0 <= i < |ws| ==> ws[i] == 0
  }

  lemma {:induction false} ZeroWeights(xs: seq<bv13>, ws: seq<bv13>, j: nat)
    requires |xs| == |ws| && AllZero(ws)
    ensures WeightedSum(xs, ws, j) == 0
  {
    if |xs| > 0 {
      var n := |xs| - 1;
      ZeroWeights(xs[..n], ws[..n], j);
      MulZero(Pow(xs[n], j));
      AddZero(0);
    }
  }

  /** Weights multiplied by (xs[l] + x): one elimination step. */
  function Eliminate(xs: seq<bv13>, ws: seq<bv13>, x: bv13): (r: seq<bv13>)
    requires |xs| == |ws|
    ensures |r| == |xs|
    ensures forall i :: 0 <= i < |xs| ==> r[i] == Mul(ws[i], Add(xs[i], x))
  {
    seq(|xs|, i requires 0 <= i < |xs| => Mul(ws[i], Add(xs[i], x)))
  }

  lemma EliminateTerm(w: bv13, y: bv13, x: bv13, p: bv13)
    ensures Mul(Mul(w, Add(y, x)), p) == Add(Mul(w, Mul(y, p)), Mul(x, Mul(w, p)))
  {
    MulAssoc(w, Add(y, x), p);
    MulAdd(p, y, x);
    MulAdd(w, Mul(y, p), Mul(x, p));
    MulAssoc(w, x, p);
    MulComm(w, x);
    MulAssoc(x, w, p);
  }

  lemma {:induction false} EliminateSum(xs: seq<bv13>, ws: seq<bv13>, x: bv13, j: nat)
    requires |xs| == |ws|
    ensures WeightedSum(xs, Eliminate(xs, ws, x), j)
         == Add(WeightedSum(xs, ws, j + 1), Mul(x, WeightedSum(xs, ws, j)))
    decreases |xs|
  {
    if |xs| == 0 {
      MulZero(x);
      AddZero(0);
    } else {
      var n := |xs| - 1;
      var ys, vs := xs[..n], ws[..n];
      EliminateSum(ys, vs, x, j);
      assert Eliminate(xs, ws, x)[..n] == Eliminate(ys, vs, x);
      var p := Pow(xs[n], j);
      EliminateTerm(ws[n], xs[n], x, p);
      MulAdd(x, WeightedSum(ys, vs, j), Mul(ws[n], p));
      AddSwap(WeightedSum(ys, vs, j + 1), Mul(x, WeightedSum(ys, vs, j)),
              Mul(ws[n], Mul(xs[n], p)), Mul(x, Mul(ws[n], p)));
      assert Pow(xs[n], j + 1) == Mul(xs[n], p);
    }
  }

  /** Eliminating the last locator removes its term altogether. */
  lemma EliminateLast(xs: seq<bv13>, ws: seq<bv13>, j: nat)
    requires |xs| == |ws| > 0
    requires WeightedSum(xs, ws, j) == 0 && WeightedSum(xs, ws, j + 1) == 0
    ensures var n := |xs| - 1;
      WeightedSum(xs[..n], Eliminate(xs[..n], ws[..n], xs[n]), j) == 0
  {
    var n := |xs| - 1;
    var x := xs[n];
    EliminateSum(xs, ws, x, j);
    MulZero(x);
    AddZero(0);
    var es := Eliminate(xs, ws, x);
    assert es[..n] == Eliminate(xs[..n], ws[..n], x);
    AddZero(x);
    MulZero(ws[n]);
    MulZero(Pow(x, j));
    AddZero(WeightedSum(xs[..n], es[..n], j));
  }

  /** Fewer equations never hide a nonzero weight: as many consecutive vanishing
      weighted power sums as there are locators force every weight to zero. */
  lemma {:induction false} Vandermonde(xs: seq<bv13>, ws: seq<bv13>, a: nat)
    requires |xs| == |ws| && Locators(xs)
    requires forall j :: a <= j < a + |xs| ==> WeightedSum(xs, ws, j) == 0
    ensures AllZero(ws)
    decreases |xs|
  {
    if |xs| > 0 {
      var n := |xs| - 1;
      var ys, vs, x := xs[..n], ws[..n], xs[n];
      var es := Eliminate(ys, vs, x);
      forall j | a <= j < a + n
        ensures WeightedSum(ys, es, j) == 0
      {
        EliminateLast(xs, ws, j);
      }
      Vandermonde(ys, es, a);
      forall i | 0 <= i < n
        ensures ws[i] == 0
      {
        assert es[i] == Mul(ws[i], Add(xs[i], x)) == 0;
        NoZeroDivisors(ws[i], Add(xs[i], x));
        AddCancel(xs[i], x);
      }
      assert WeightedSum(xs, ws, a) == 0;
      ZeroWeights(ys, vs, a);
      AddZero(Mul(ws[n], Pow(x, a)));
      PowNonzero(x, a);
      NoZeroDivisors(ws[n], Pow(x, a));
    }
  }

  // ----- Polynomials by Horner's rule -----

  /** c[0]*x^n + c[1]*x^(n-1) + ... + c[n]. */
  function Horner(c: seq<bv13>, n: nat, x: bv13): bv13
    requires n < |c|
  {
    if n == 0 then c[0] else Add(Mul(x, Horner(c, n - 1, x)), c[n])
  }

  /** The quotient of synthetic division by (x + r). */
  function Quotient(c: seq<bv13>, n: nat, r: bv13): (q: seq<bv13>)
    requires n < |c|
    ensures |q| == n + 1
    ensures forall i :: 0 <= i <= n ==> q[i] == Horner(c, i, r)
  {
    seq(n + 1, i requires 0 <= i <= n => Horner(c, i, r))
  }

  lemma {:induction false} SyntheticDivision(c: seq<bv13>, n: nat, k: nat, r: bv13, x: bv13)
    requires 0 < k <= n < |c|
    ensures Add(Horner(c, k, x), Horner(c, k, r)) == Mul(Add(x, r), Horner(Quotient(c, n, r), k - 1, x))
    decreases k
  {
    var q := Quotient(c, n, r);
    var hx, hr, qx := Horner(c, k - 1, x), Horner(c, k - 1, r), Horner(q, k - 1, x);
    // Left side: x*hx + r*hr, the constant cancels.
    AddSwap(Mul(x, hx), c[k], Mul(r, hr), c[k]);
    AddZero(c[k]);
    AddZero(Add(Mul(x, hx), Mul(r, hr)));
    // Right side: x*qx + r*qx.
    MulAdd(qx, x, r);
    if k == 1 {
      assert hx == hr == qx;
    } else {
      var qy := Horner(q, k - 2, x);
      SyntheticDivision(c, n, k - 1, r, x);
      assert qx == Add(Mul(x, qy), hr);
      HornerStep(x, r, hx, hr, qy, qx);
    }
  }

  lemma HornerStep(x: bv13, r: bv13, hx: bv13, hr: bv13, qy: bv13, qx: bv13)
    requires Add(hx, hr) == Mul(Add(x, r), qy)
    requires qx == Add(Mul(x, qy), hr)
    ensures Add(Mul(x, hx), Mul(r, hr)) == Add(Mul(x, qx), Mul(r, qx))
  {
    // hx == hr + (x + r)*qy, so x*hx == x*hr + (x + r)*(x*qy)
    AddComm(hx, hr);
    AddCancel(hr, hx);
    var m := Mul(x, qy);
    MulAdd(x, hr, Mul(Add(x, r), qy));
    MulComm(x, Mul(Add(x, r), qy));
    MulAssoc(Add(x, r), qy, x);
    MulComm(qy, x);
    MulAdd(m, x, r);
    // r*qx == r*m + r*hr and x*qx == x*m + x*hr
    MulAdd(r, m, hr);
    MulAdd(x, m, hr);
    AddComm(Mul(x, m), Mul(x, hr));
    AddAssoc(Mul(x, hr), Add(Mul(x, m), Mul(r, m)), Mul(r, hr));
    AddAssoc(Mul(x, m), Mul(r, m), Mul(r, hr));
    AddAssoc(Mul(x, hr), Mul(x, m), Add(Mul(r, m), Mul(r, hr)));
  }

  /** A polynomial of degree n with nonzero leading coefficient has at most n roots. */
  lemma {:induction false} RootBound(c: seq<bv13>, n: nat, xs: seq<bv13>)
    requires n < |c| && |xs| == n + 1 && Locators(xs)
    requires forall i :: 0 <= i < |xs| ==> Horner(c, n, xs[i]) == 0
    ensures c[0] == 0
    decreases n
  {
    assert Horner(c, n, xs[n]) == 0;
    if n > 0 {
      var r, ys := xs[n], xs[..n];
      var q := Quotient(c, n, r);
      forall i | 0 <= i < n
        ensures Horner(q, n - 1, ys[i]) == 0
      {
        assert Horner(c, n, xs[i]) == 0;
        SyntheticDivision(c, n, n, r, xs[i]);
        AddZero(0);
        NoZeroDivisors(Add(xs[i], r), Horner(q, n - 1, xs[i]));
        AddCancel(xs[i], r);
      }
      RootBound(q, n - 1, ys);
      assert q[0] == Horner(c, 0, r);
    }
  }

  // ----- Discrepancies as weighted power sums -----

  /** c[0]*s[j] + c[1]*s[j-1] + ... + c[n]*s[j-n]. */
  function Convolve(c: seq<bv13>, s: seq<bv13>, n: nat, j: nat): bv13
    requires n < |c| && n <= j < |s|
  {
    if n == 0 then Mul(c[0], s[j]) else Add(Convolve(c, s, n - 1, j), Mul(c[n], s[j - n]))
  }

  /** The same with s[i] read as the i-th power sum of `xs`. */
  function ConvolveSums(c: seq<bv13>, xs: seq<bv13>, n: nat, j: nat): bv13
    requires n < |c| && n <= j
  {
    if n == 0 then Mul(c[0], PowerSum(xs, j)) else Add(ConvolveSums(c, xs, n - 1, j), Mul(c[n], PowerSum(xs, j - n)))
  }

  /** s[1], s[2], ... are the power sums of `xs`. */
  ghost predicate Syndromes(s: seq<bv13>, xs: seq<bv13>) {
    forall k :: 1 <= k < |s| ==> s[k] == PowerSum(xs, k)
  }

  lemma {:induction false} ConvolveIsSums(c: seq<bv13>, s: seq<bv13>, xs: seq<bv13>, n: nat, j: nat)
    requires n < |c| && n < j < |s| && Syndromes(s, xs)
    ensures Convolve(c, s, n, j) == ConvolveSums(c, xs, n, j)
    decreases n
  {
    if n > 0 {
      ConvolveIsSums(c, s, xs, n - 1, j);
    }
  }

  function HornerAll(c: seq<bv13>, n: nat, xs: seq<bv13>): (r: seq<bv13>)
    requires n < |c|
    ensures |r| == |xs|
    ensures forall i :: 0 <= i < |xs| ==> r[i] == Horner(c, n, xs[i])
  {
    seq(|xs|, i requires 0 <= i < |xs| => Horner(c, n, xs[i]))
  }

  lemma {:induction false} ConvolveSumsEmpty(c: seq<bv13>, n: nat, j: nat)
    requires n < |c| && n <= j
    ensures ConvolveSums(c, [], n, j) == 0
    decreases n
  {
    MulZero(c[n]);
    AddZero(0);
    if n > 0 {
      ConvolveSumsEmpty(c, n - 1, j);
    }
  }

  lemma OneMoreTerm(sum: bv13, h: bv13, x: bv13, p: bv13, c: bv13, q: bv13)
    ensures Add(Add(sum, Mul(h, Mul(x, p))), Mul(c, Add(q, p)))
         == Add(Add(sum, Mul(c, q)), Mul(Add(Mul(x, h), c), p))
  {
    MulAdd(c, q, p);
    AddSwap(sum, Mul(h, Mul(x, p)), Mul(c, q), Mul(c, p));
    MulAssoc(h, x, p);
    MulComm(h, x);
    MulAdd(p, Mul(x, h), c);
  }

  lemma PowerSumSnoc(ys: seq<bv13>, x: bv13, k: nat)
    ensures PowerSum(ys + [x], k) == Add(PowerSum(ys, k), Pow(x, k))
  {
    assert (ys + [x])[..|ys|] == ys;
  }

  /** Adding one locator adds one term h(x)*x^(j-n). */
  lemma {:induction false} ConvolveSumsSnoc(c: seq<bv13>, ys: seq<bv13>, x: bv13, n: nat, e: nat)
    requires n < |c|
    ensures ConvolveSums(c, ys + [x], n, n + e)
         == Add(ConvolveSums(c, ys, n, n + e), Mul(Horner(c, n, x), Pow(x, e)))
    decreases n
  {
    PowerSumSnoc(ys, x, e);
    if n == 0 {
      MulAdd(c[0], PowerSum(ys, e), Pow(x, e));
    } else {
      ConvolveSumsSnoc(c, ys, x, n - 1, e + 1);
      OneMoreTerm(ConvolveSums(c, ys, n - 1, n + e), Horner(c, n - 1, x), x, Pow(x, e), c[n], PowerSum(ys, e));
    }
  }

  lemma {:induction false} ConvolveSumsIsWeighted(c: seq<bv13>, xs: seq<bv13>, n: nat, j: nat)
    requires n < |c| && n <= j
    ensures ConvolveSums(c, xs, n, j) == WeightedSum(xs, HornerAll(c, n, xs), j - n)
    decreases |xs|
  {
    if |xs| == 0 {
      ConvolveSumsEmpty(c, n, j);
      assert xs == [];
    } else {
      var m := |xs| - 1;
      assert xs == xs[..m] + [xs[m]];
      ConvolveSumsSnoc(c, xs[..m], xs[m], n, j - n);
      ConvolveSumsIsWeighted(c, xs[..m], n, j);
      assert HornerAll(c, n, xs)[..m] == HornerAll(c, n, xs[..m]);
    }
  }

  lemma DiscrepancyIsWeighted(c: seq<bv13>, s: seq<bv13>, xs: seq<bv13>, n: nat, j: nat)
    requires n < |c| && n < j < |s| && Syndromes(s, xs)
    ensures Convolve(c, s, n, j) == WeightedSum(xs, HornerAll(c, n, xs), j - n)
  {
    ConvolveIsSums(c, s, xs, n, j);
    ConvolveSumsIsWeighted(c, xs, n, j);
  }

  /** As many vanishing discrepancies as locators: every locator is a root. */
  lemma EnoughEquations(c: seq<bv13>, s: seq<bv13>, xs: seq<bv13>, n: nat, top: nat)
    requires n < |c| && top < |s| && Syndromes(s, xs) && Locators(xs)
    requires n + |xs| <= top
    requires forall j :: n < j <= top ==> Convolve(c, s, n, j) == 0
    ensures AllZero(HornerAll(c, n, xs))
  {
    var ws := HornerAll(c, n, xs);
    forall j | 1 <= j < 1 + |xs|
      ensures WeightedSum(xs, ws, j) == 0
    {
      assert Convolve(c, s, n, n + j) == 0;
      DiscrepancyIsWeighted(c, s, xs, n, n + j);
    }
    Vandermonde(xs, ws, 1);
  }

  /** Massey's bound: a nonzero discrepancy at n+1 after none in (L, n] needs n+1-L locators. */
  lemma MasseyBound(c: seq<bv13>, s: seq<bv13>, xs: seq<bv13>, L: nat, n: nat)
    requires L < |c| && L <= n && n + 1 < |s| && Syndromes(s, xs) && Locators(xs)
    requires forall j :: L < j <= n ==> Convolve(c, s, L, j) == 0
    requires Convolve(c, s, L, n + 1) != 0
    ensures n + 1 - L <= |xs|
  {
    if L + |xs| <= n {
      EnoughEquations(c, s, xs, L, n);
      DiscrepancyIsWeighted(c, s, xs, L, n + 1);
      ZeroWeights(xs, HornerAll(c, L, xs), n + 1 - L);
      assert false;
    }
  }

  /** A monic polynomial of degree L <= |xs| vanishing on every locator has degree
      exactly |xs| and no other nonzero root. */
  lemma RootsAreLocators(c: seq<bv13>, L: nat, xs: seq<bv13>)
    requires L < |c| && c[0] == 1 && Locators(xs) && L <= |xs|
    requires AllZero(HornerAll(c, L, xs))
    ensures L == |xs|
    ensures forall x :: x != 0 ==> (Horner(c, L, x) == 0 <==> x in xs)
  {
    var ws := HornerAll(c, L, xs);
    assert forall i :: 0 <= i < |xs| ==> ws[i] == 0;
    if L < |xs| {
      RootBound(c, L, xs[..L + 1]);
      assert false;
    }
    forall x | x != 0
      ensures Horner(c, L, x) == 0 <==> x in xs
    {
      if Horner(c, L, x) == 0 && x !in xs {
        RootBound(c, L, xs + [x]);
        assert false;
      }
    }
  }

  // ----- One Berlekamp-Massey update -----

  lemma {:induction false} ConvolveExtend(c: seq<bv13>, s: seq<bv13>, n: nat, m: nat, j: nat)
    requires n <= m < |c| && m <= j < |s|
    requires forall i :: n < i <= m ==> c[i] == 0
    ensures Convolve(c, s, m, j) == Convolve(c, s, n, j)
    decreases m
  {
    if m > n {
      ConvolveExtend(c, s, n, m - 1, j);
      MulZero(s[j - m]);
      AddZero(Convolve(c, s, n, j));
    }
  }

  /** c + ratio * x^shift * b, truncated to |c| coefficients. */
  function Combine(c: seq<bv13>, b: seq<bv13>, ratio: bv13, shift: nat): (r: seq<bv13>)
    requires |b| == |c|
    ensures |r| == |c|
    ensures forall i :: 0 <= i < |c| ==> r[i] == if i < shift then c[i] else Add(c[i], Mul(ratio, b[i - shift]))
  {
    seq(|c|, i requires 0 <= i < |c| => if i < shift then c[i] else Add(c[i], Mul(ratio, b[i - shift])))
  }

  lemma {:induction false} ConvolveCombine(c: seq<bv13>, b: seq<bv13>, s: seq<bv13>, ratio: bv13, shift: nat,
      n: nat, j: nat)
    requires |b| == |c| && n < |c| && n <= j < |s|
    ensures var r := Combine(c, b, ratio, shift);
      Convolve(r, s, n, j)
      == if n < shift then Convolve(c, s, n, j)
         else Add(Convolve(c, s, n, j), Mul(ratio, Convolve(b, s, n - shift, j - shift)))
    decreases n
  {
    var r := Combine(c, b, ratio, shift);
    if n > 0 {
      ConvolveCombine(c, b, s, ratio, shift, n - 1, j);
    }
    if n >= shift {
      var t, y := n - shift, s[j - n];
      MulAdd(y, c[n], Mul(ratio, b[t]));
      MulAssoc(ratio, b[t], y);
      if n > 0 && t == 0 {
        AddAssoc(Convolve(c, s, n - 1, j), Mul(c[n], y), Mul(ratio, Mul(b[t], y)));
      } else if t > 0 {
        var prev := Convolve(b, s, t - 1, j - shift);
        MulAdd(ratio, prev, Mul(b[t], y));
        AddSwap(Convolve(c, s, n - 1, j), Mul(ratio, prev), Mul(c[n], y), Mul(ratio, Mul(b[t], y)));
      }
    }
  }

  /** What the decoder's variables mean after `n` syndromes.  `lb` is the length
      belonging to the saved polynomial and `m` the step at which it was saved. */
  ghost predicate Massey(s: seq<bv13>, n: nat, c: seq<bv13>, b: seq<bv13>, L: nat, shift: nat, scale: bv13) {
    && |s| == 9 && |c| == 9 && |b| == 9 && n <= 8
    && L <= n && 1 <= shift && L + shift <= n + 1
    && c[0] == 1 && scale != 0
    && (forall i :: L < i < 9 ==> c[i] == 0)
    && (forall j :: L < j <= n ==> Convolve(c, s, L, j) == 0)
    && var lb := n + 1 - shift - L;
       && (forall i :: lb < i < 9 ==> b[i] == 0)
       && (L == 0 ==> shift == n + 1)
       && (L > 0 ==>
            && shift <= n
            && (forall j :: lb < j <= n - shift ==> Convolve(b, s, lb, j) == 0)
            && Convolve(b, s, lb, n - shift + 1) == scale)
  }

  /** The length and bookkeeping after step `n` with discrepancy `d`. */
  function NextLength(n: nat, L: nat): nat {
    if 2 * L <= n && L <= n then n + 1 - L else L
  }

  lemma CombinedConvolve(c: seq<bv13>, b: seq<bv13>, s: seq<bv13>, L: nat, lb: nat, ratio: bv13, shift: nat,
      n: nat, j: nat)
    requires |b| == |c| && L <= n < |c| && lb + shift <= n && n <= j < |s|
    requires forall i :: L < i < |c| ==> c[i] == 0
    requires forall i :: lb < i < |b| ==> b[i] == 0
    ensures Convolve(Combine(c, b, ratio, shift), s, n, j)
         == Add(Convolve(c, s, L, j), Mul(ratio, Convolve(b, s, lb, j - shift)))
  {
    ConvolveCombine(c, b, s, ratio, shift, n, j);
    ConvolveExtend(c, s, L, n, j);
    ConvolveExtend(b, s, lb, n - shift, j - shift);
  }

  /** Both polynomials' discrepancies up to `n`, in the form the update cancels. */
  lemma OldConvolves(s: seq<bv13>, n: nat, c: seq<bv13>, b: seq<bv13>, L: nat, shift: nat, scale: bv13,
      ratio: bv13, j: nat)
    requires Massey(s, n, c, b, L, shift, scale) && n < 8
    requires Convolve(c, s, L, n + 1) == Mul(ratio, scale)
    requires NextLength(n, L) < j <= n + 1
    ensures var lb := n + 1 - shift - L;
            && lb + shift <= NextLength(n, L) && L <= NextLength(n, L)
            && Convolve(c, s, L, j) == (if j == n + 1 then Mul(ratio, scale) else 0)
            && Convolve(b, s, lb, j - shift) == (if j == n + 1 then scale else 0)
  {
  }

  lemma UpdatedConvolve(s: seq<bv13>, n: nat, c: seq<bv13>, b: seq<bv13>, L: nat, shift: nat, scale: bv13,
      ratio: bv13, j: nat)
    requires Massey(s, n, c, b, L, shift, scale) && n < 8
    requires Convolve(c, s, L, n + 1) == Mul(ratio, scale)
    requires NextLength(n, L) < j <= n + 1
    ensures Convolve(Combine(c, b, ratio, shift), s, NextLength(n, L), j) == 0
  {
    OldConvolves(s, n, c, b, L, shift, scale, ratio, j);
    CombinedConvolve(c, b, s, L, n + 1 - shift - L, ratio, shift, NextLength(n, L), j);
    AddZero(Mul(ratio, scale));
    MulZero(ratio);
    AddZero(0);
  }

  /** A zero discrepancy keeps both polynomials. */
  lemma MasseyKeep(s: seq<bv13>, n: nat, c: seq<bv13>, b: seq<bv13>, L: nat, shift: nat, scale: bv13)
    requires Massey(s, n, c, b, L, shift, scale) && n < 8
    requires Convolve(c, s, L, n + 1) == 0
    ensures Massey(s, n + 1, c, b, L, shift + 1, scale)
  {
  }

  /** A nonzero discrepancy is cancelled; a growing length saves the old polynomial. */
  lemma MasseyUpdate(s: seq<bv13>, n: nat, c: seq<bv13>, b: seq<bv13>, L: nat, shift: nat, scale: bv13, ratio: bv13)
    requires Massey(s, n, c, b, L, shift, scale) && n < 8
    requires Convolve(c, s, L, n + 1) == Mul(ratio, scale) != 0
    ensures var r := Combine(c, b, ratio, shift);
      if 2 * L <= n then Massey(s, n + 1, r, c, n + 1 - L, 1, Mul(ratio, scale))
      else Massey(s, n + 1, r, b, L, shift + 1, scale)
  {
    var r, K := Combine(c, b, ratio, shift), NextLength(n, L);
    forall j | K < j <= n + 1
      ensures Convolve(r, s, K, j) == 0
    {
      UpdatedConvolve(s, n, c, b, L, shift, scale, ratio, j);
    }
    forall i | K < i < 9
      ensures r[i] == 0
    {
      MulZero(ratio);
      AddZero(0);
    }
  }
}
