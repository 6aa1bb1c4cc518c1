/**
  Sector words: 512 data bytes and 7 parity bytes read as 4148 code bits, their
  eight syndromes, and the distance between words.
*/
module BchWords {
  import opened Gf13
  import opened BchTheory

  const BITS: nat := 4148
  const PARITY: nat := 52
  const DATA_SIZE: nat := 512
  const ECC_SIZE: nat := 7

  // ----- Buffers as bits -----

  function GetBit(b: bv8, k: nat): bool
    requires k < 8
  {
    (b >> k) & 1 == 1
  }

  /** Code bit `bit`: parity bits first, then payload bits, both little-endian. */
  function BitAt(data: seq<bv8>, ecc: seq<bv8>, bit: nat): bool
    requires |data| == DATA_SIZE && |ecc| == ECC_SIZE && bit < BITS
  {
    if bit < PARITY then GetBit(ecc[bit / 8], bit % 8)
    else GetBit(data[(bit - PARITY) / 8], (bit - PARITY) % 8)
  }

  function Word(data: seq<bv8>, ecc: seq<bv8>): (w: seq<bool>)
    requires |data| == DATA_SIZE && |ecc| == ECC_SIZE
    ensures |w| == BITS
    ensures forall i :: 0 <= i < BITS ==> w[i] == BitAt(data, ecc, i)
  {
    seq(BITS, i requires 0 <= i < BITS => BitAt(data, ecc, i))
  }

  function FlipByte(b: bv8, k: nat): bv8
    requires k < 8
  {
    b ^ (1 << k)
  }

  lemma FlipByteBits(b: bv8, k: nat, j: nat)
    requires k < 8 && j < 8
    ensures GetBit(FlipByte(b, k), j) == (GetBit(b, j) != (j == k))
  {
    assert ((b ^ (1 << k)) >> j) & 1 == ((b >> j) & 1) ^ (if j == k then 1 else 0);
  }

  function FlipData(data: seq<bv8>, bit: nat): (r: seq<bv8>)
    requires |data| == DATA_SIZE && PARITY <= bit < BITS
    ensures |r| == DATA_SIZE
  {
    var i := bit - PARITY;
    data[i / 8 := FlipByte(data[i / 8], i % 8)]
  }

  function FlipEcc(ecc: seq<bv8>, bit: nat): (r: seq<bv8>)
    requires |ecc| == ECC_SIZE && bit < PARITY
    ensures |r| == ECC_SIZE
  {
    ecc[bit / 8 := FlipByte(ecc[bit / 8], bit % 8)]
  }

  lemma FlipDataWord(data: seq<bv8>, ecc: seq<bv8>, bit: nat)
    requires |data| == DATA_SIZE && |ecc| == ECC_SIZE && PARITY <= bit < BITS
    ensures Word(FlipData(data, bit), ecc) == Word(data, ecc)[bit := !Word(data, ecc)[bit]]
  {
    var w, v := Word(data, ecc), Word(FlipData(data, bit), ecc);
    forall i | 0 <= i < BITS
      ensures v[i] == (w[i] != (i == bit))
    {
      if i >= PARITY {
        var p, q := i - PARITY, bit - PARITY;
        FlipByteBits(data[q / 8], q % 8, p % 8);
        if p / 8 == q / 8 && p % 8 == q % 8 {
          assert i == bit;
        }
      }
    }
  }

  lemma FlipEccWord(data: seq<bv8>, ecc: seq<bv8>, bit: nat)
    requires |data| == DATA_SIZE && |ecc| == ECC_SIZE && bit < PARITY
    ensures Word(data, FlipEcc(ecc, bit)) == Word(data, ecc)[bit := !Word(data, ecc)[bit]]
  {
    var w, v := Word(data, ecc), Word(data, FlipEcc(ecc, bit));
    forall i | 0 <= i < BITS
      ensures v[i] == (w[i] != (i == bit))
    {
      if i < PARITY {
        FlipByteBits(ecc[bit / 8], bit % 8, i % 8);
        if i / 8 == bit / 8 && i % 8 == bit % 8 {
          assert i == bit;
        }
      }
    }
  }

  lemma SameByte(a: bv8, b: bv8)
    requires forall k :: 0 <= k < 8 ==> GetBit(a, k) == GetBit(b, k)
    ensures a == b
  {
    assert GetBit(a, 0) == GetBit(b, 0) && GetBit(a, 1) == GetBit(b, 1);
    assert GetBit(a, 2) == GetBit(b, 2) && GetBit(a, 3) == GetBit(b, 3);
    assert GetBit(a, 4) == GetBit(b, 4) && GetBit(a, 5) == GetBit(b, 5);
    assert GetBit(a, 6) == GetBit(b, 6) && GetBit(a, 7) == GetBit(b, 7);
  }

  lemma SameNibbles(a: bv8, b: bv8)
    requires a & 0xF0 == b & 0xF0
    requires forall k :: 0 <= k < 4 ==> GetBit(a, k) == GetBit(b, k)
    ensures a == b
  {
    assert GetBit(a, 0) == GetBit(b, 0) && GetBit(a, 1) == GetBit(b, 1);
    assert GetBit(a, 2) == GetBit(b, 2) && GetBit(a, 3) == GetBit(b, 3);
  }

  /** The 4148 code bits and the four spare bits determine both buffers. */
  lemma WordDeterminesBuffers(d0: seq<bv8>, e0: seq<bv8>, d1: seq<bv8>, e1: seq<bv8>)
    requires |d0| == |d1| == DATA_SIZE && |e0| == |e1| == ECC_SIZE
    requires Word(d0, e0) == Word(d1, e1) && e0[6] & 0xF0 == e1[6] & 0xF0
    ensures d0 == d1 && e0 == e1
  {
    var w := Word(d0, e0);
    forall i | 0 <= i < DATA_SIZE
      ensures d0[i] == d1[i]
    {
      forall k | 0 <= k < 8
        ensures GetBit(d0[i], k) == GetBit(d1[i], k)
      {
        var bit := PARITY + 8 * i + k;
        assert w[bit] == BitAt(d0, e0, bit) == BitAt(d1, e1, bit);
      }
      SameByte(d0[i], d1[i]);
    }
    forall i | 0 <= i < ECC_SIZE
      ensures e0[i] == e1[i]
    {
      forall k | 0 <= k < 8 && 8 * i + k < PARITY
        ensures GetBit(e0[i], k) == GetBit(e1[i], k)
      {
        var bit := 8 * i + k;
        assert w[bit] == BitAt(d0, e0, bit) == BitAt(d1, e1, bit);
      }
      if i < 6 {
        SameByte(e0[i], e1[i]);
      } else {
        SameNibbles(e0[i], e1[i]);
      }
    }
  }

  // ----- Syndromes -----

  function Term(b: bool, p: bv13): bv13 {
    if b then p else 0
  }

  /** The k-th syndrome of the first `n` bits: the sum of alpha^(k*i) over set bits i. */
  function Syndrome(w: seq<bool>, k: nat, n: nat): bv13
    requires n <= |w|
  {
    if n == 0 then 0
    else Add(Syndrome(w, k, n - 1), Term(w[n - 1], Pow(Alpha(n - 1), k)))
  }

  /** A code word: 4148 bits with all eight syndromes zero. */
  ghost predicate IsCodeword(w: seq<bool>) {
    |w| == BITS && forall k :: 1 <= k <= 8 ==> Syndrome(w, k, BITS) == 0
  }

  lemma {:induction false} EvenSyndrome(w: seq<bool>, k: nat, n: nat)
    requires n <= |w|
    ensures Syndrome(w, 2 * k, n) == Sq(Syndrome(w, k, n))
    decreases n
  {
    MulZero(0);
    if n > 0 {
      EvenSyndrome(w, k, n - 1);
      PowAdd(Alpha(n - 1), k, k);
      SqAdd(Syndrome(w, k, n - 1), Term(w[n - 1], Pow(Alpha(n - 1), k)));
    }
  }

  // ----- Distance -----

  /** Ascending positions below `n` at which the words differ. */
  function Differences(w: seq<bool>, c: seq<bool>, n: nat): seq<nat>
    requires n <= |w| && n <= |c|
  {
    if n == 0 then []
    else Differences(w, c, n - 1) + if w[n - 1] != c[n - 1] then [n - 1] else []
  }

  ghost predicate Ascending(d: seq<nat>, n: nat) {
    && (forall i :: 0 <= i < |d| ==> d[i] < n)
    && (forall i, j :: 0 <= i < j < |d| ==> d[i] < d[j])
  }

  lemma {:induction false} DifferencesAreAscending(w: seq<bool>, c: seq<bool>, n: nat)
    requires n <= |w| && n <= |c|
    ensures Ascending(Differences(w, c, n), n)
    decreases n
  {
    if n > 0 {
      DifferencesAreAscending(w, c, n - 1);
      var d, e := Differences(w, c, n - 1), Differences(w, c, n);
      assert forall i :: 0 <= i < |d| ==> e[i] == d[i] < n - 1;
    }
  }

  lemma {:induction false} DifferencesAreSound(w: seq<bool>, c: seq<bool>, n: nat)
    requires n <= |w| && n <= |c|
    ensures forall p :: p in Differences(w, c, n) ==> p < n && w[p] != c[p]
    decreases n
  {
    if n > 0 {
      DifferencesAreSound(w, c, n - 1);
    }
  }

  lemma {:induction false} DifferencesAreComplete(w: seq<bool>, c: seq<bool>, n: nat, p: nat)
    requires p < n <= |w| && n <= |c| && w[p] != c[p]
    ensures p in Differences(w, c, n)
    decreases n
  {
    if p < n - 1 {
      DifferencesAreComplete(w, c, n - 1, p);
    }
  }

  /** Hamming distance. */
  function Distance(w: seq<bool>, c: seq<bool>): nat
    requires |w| == |c|
  {
    |Differences(w, c, |w|)|
  }

  /** Inverting a bit that still agrees raises the distance by one. */
  lemma {:induction false} FlipRaisesDistance(w: seq<bool>, v: seq<bool>, p: nat, n: nat)
    requires n <= |w| == |v| && p < |w| && v[p] == w[p]
    ensures |Differences(v[p := !v[p]], w, n)| == |Differences(v, w, n)| + if p < n then 1 else 0
    decreases n
  {
    if n > 0 {
      FlipRaisesDistance(w, v, p, n - 1);
    }
  }

  function LocatorsOf(d: seq<nat>): (xs: seq<bv13>)
    ensures |xs| == |d|
    ensures forall i :: 0 <= i < |d| ==> xs[i] == Alpha(d[i])
  {
    seq(|d|, i requires 0 <= i < |d| => Alpha(d[i]))
  }

  lemma DifferencesGiveLocators(w: seq<bool>, c: seq<bool>, n: nat)
    requires n <= |w| && n <= |c| && n <= BITS
    ensures Locators(LocatorsOf(Differences(w, c, n)))
  {
    var d := Differences(w, c, n);
    var xs := LocatorsOf(d);
    DifferencesAreAscending(w, c, n);
    forall i | 0 <= i < |xs|
      ensures xs[i] != 0
    {
      PowNonzero(2, d[i]);
    }
    forall i, j | 0 <= i < j < |xs|
      ensures xs[i] != xs[j]
    {
      AlphaDistinct(d[i], d[j]);
    }
  }

  /** The part of the syndrome contributed by the differing bits. */
  function ErrorSum(w: seq<bool>, c: seq<bool>, k: nat, n: nat): bv13
    requires n <= |w| && n <= |c|
  {
    if n == 0 then 0
    else Add(ErrorSum(w, c, k, n - 1), Term(w[n - 1] != c[n - 1], Pow(Alpha(n - 1), k)))
  }

  lemma TermSum(b: bool, c: bool, p: bv13)
    ensures Add(Term(b, p), Term(b != c, p)) == Term(c, p)
  {
    AddZero(p);
    AddZero(0);
  }

  lemma {:induction false} SyndromeSplits(w: seq<bool>, c: seq<bool>, k: nat, n: nat)
    requires n <= |w| && n <= |c|
    ensures Syndrome(w, k, n) == Add(Syndrome(c, k, n), ErrorSum(w, c, k, n))
    decreases n
  {
    if n == 0 {
      AddZero(0);
    } else {
      SyndromeSplits(w, c, k, n - 1);
      var p := Pow(Alpha(n - 1), k);
      TermSum(c[n - 1], w[n - 1], p);
      AddSwap(Syndrome(c, k, n - 1), ErrorSum(w, c, k, n - 1), Term(c[n - 1], p), Term(w[n - 1] != c[n - 1], p));
    }
  }

  lemma OneMoreLocator(d: seq<nat>, p: nat, k: nat)
    ensures PowerSum(LocatorsOf(d + [p]), k) == Add(PowerSum(LocatorsOf(d), k), Pow(Alpha(p), k))
  {
    var xs := LocatorsOf(d + [p]);
    assert xs[..|d|] == LocatorsOf(d);
    assert xs[|d|] == Alpha(p);
  }

  lemma DifferencesStep(w: seq<bool>, c: seq<bool>, n: nat)
    requires 0 < n <= |w| && n <= |c|
    ensures var d := Differences(w, c, n - 1);
      Differences(w, c, n) == if w[n - 1] != c[n - 1] then d + [n - 1] else d
  {
    assert Differences(w, c, n - 1) + [] == Differences(w, c, n - 1);
  }

  lemma {:induction false} ErrorSumIsPowerSum(w: seq<bool>, c: seq<bool>, k: nat, n: nat)
    requires n <= |w| && n <= |c|
    ensures ErrorSum(w, c, k, n) == PowerSum(LocatorsOf(Differences(w, c, n)), k)
    decreases n
  {
    if n > 0 {
      DifferencesStep(w, c, n);
      AddZero(ErrorSum(w, c, k, n - 1));
      OneMoreLocator(Differences(w, c, n - 1), n - 1, k);
      ErrorSumIsPowerSum(w, c, k, n - 1);
    }
  }

  /** Adding an error adds the power sums of its locators. */
  lemma SyndromeOfError(w: seq<bool>, c: seq<bool>, k: nat, n: nat)
    requires n <= |w| && n <= |c|
    ensures Syndrome(w, k, n) == Add(Syndrome(c, k, n), PowerSum(LocatorsOf(Differences(w, c, n)), k))
  {
    SyndromeSplits(w, c, k, n);
    ErrorSumIsPowerSum(w, c, k, n);
  }

  /** The syndromes of a word near a code word are the power sums of the error locators. */
  lemma ErrorSyndromes(w: seq<bool>, c: seq<bool>, s: seq<bv13>)
    requires |w| == BITS && IsCodeword(c) && |s| == 9
    requires forall k :: 1 <= k <= 8 ==> s[k] == Syndrome(w, k, BITS)
    ensures Syndromes(s, LocatorsOf(Differences(w, c, BITS)))
  {
    forall k | 1 <= k < |s|
      ensures s[k] == PowerSum(LocatorsOf(Differences(w, c, BITS)), k)
    {
      SyndromeOfError(w, c, k, BITS);
      assert Syndrome(c, k, BITS) == 0;
      AddZero(PowerSum(LocatorsOf(Differences(w, c, BITS)), k));
    }
  }

  function Ones(n: nat): (r: seq<bv13>)
    ensures |r| == n && forall i :: 0 <= i < n ==> r[i] == 1
  {
    seq(n, i => 1)
  }

  lemma {:induction false} PowerSumIsWeighted(xs: seq<bv13>, k: nat)
    ensures PowerSum(xs, k) == WeightedSum(xs, Ones(|xs|), k)
    decreases |xs|
  {
    if |xs| > 0 {
      var n := |xs| - 1;
      PowerSumIsWeighted(xs[..n], k);
      assert Ones(|xs|)[..n] == Ones(n);
      MulOne(Pow(xs[n], k));
    }
  }

  lemma OnesAreNotZero(n: nat)
    requires n > 0
    ensures !AllZero(Ones(n))
  {
    assert Ones(n)[0] != 0;
  }

  lemma NoDifferences(w: seq<bool>, c: seq<bool>)
    requires |w| == |c| && Distance(w, c) == 0
    ensures w == c
  {
    forall p | 0 <= p < |w|
      ensures w[p] == c[p]
    {
      if w[p] != c[p] {
        DifferencesAreComplete(w, c, |w|, p);
      }
    }
  }

  /** The designed distance: distinct code words differ in at least nine bits. */
  lemma MinimumDistance(w: seq<bool>, c: seq<bool>)
    requires IsCodeword(w) && IsCodeword(c) && w != c
    ensures Distance(w, c) >= 9
  {
    var d := Differences(w, c, BITS);
    var xs := LocatorsOf(d);
    DifferencesGiveLocators(w, c, BITS);
    if Distance(w, c) == 0 {
      NoDifferences(w, c);
    } else if |d| < 9 {
      forall j | 1 <= j < 1 + |xs|
        ensures WeightedSum(xs, Ones(|xs|), j) == 0
      {
        SyndromeOfError(w, c, j, BITS);
        assert Syndrome(w, j, BITS) == 0 && Syndrome(c, j, BITS) == 0;
        AddZero(PowerSum(xs, j));
        PowerSumIsWeighted(xs, j);
      }
      OnesAreNotZero(|xs|);
      Vandermonde(xs, Ones(|xs|), 1);
    }
  }

  // ----- Triangle inequality, for uniqueness of the nearest code word -----

  lemma {:induction false} DifferencesTriangle(a: seq<bool>, b: seq<bool>, c: seq<bool>, n: nat)
    requires n <= |a| && n <= |b| && n <= |c|
    ensures |Differences(a, c, n)| <= |Differences(a, b, n)| + |Differences(b, c, n)|
    ensures |Differences(a, b, n)| == |Differences(b, a, n)|
    decreases n
  {
    if n > 0 {
      DifferencesTriangle(a, b, c, n - 1);
    }
  }

  /** Beyond four errors: a code word `v` at most four flips from `w` is not the code word
      `c` that `w` came from, and lies far from it. */
  lemma {:induction false} MiscorrectionIsFar(w: seq<bool>, c: seq<bool>, v: seq<bool>)
    requires |w| == BITS && IsCodeword(c) && IsCodeword(v) && Distance(w, v) <= 4 < Distance(w, c)
    ensures v != c && Distance(w, v) + Distance(w, c) >= 9
  {
    MinimumDistance(v, c);
    DifferencesTriangle(v, w, c, BITS);
  }

  /** At most one code word lies within four flips of any word. */
  lemma NearestIsUnique(w: seq<bool>, c: seq<bool>, d: seq<bool>)
    requires |w| == BITS && IsCodeword(c) && IsCodeword(d)
    requires Distance(w, c) <= 4 && Distance(w, d) <= 4
    ensures c == d
  {
    if c != d {
      MinimumDistance(c, d);
      DifferencesTriangle(c, w, d, BITS);
    }
  }
}
