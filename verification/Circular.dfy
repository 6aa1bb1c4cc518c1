/** Positions of a running count in a circular buffer. */
module Circular {

  /** The buffer position of the `k`-th entry ever written. */
  function Slot(k: nat, size: nat): (r: nat)
    requires size > 0
    ensures r < size
    decreases k
  {
    if k < size then k else Slot(k - size, size)
  }

  lemma {:induction false} SlotIsMod(k: nat, size: nat)
    requires size > 0
    ensures Slot(k, size) == k % size
    decreases k
  {
    if k >= size {
      SlotIsMod(k - size, size);
      assert k == size * (k / size) + k % size;
      assert k - size == size * (k / size - 1) + k % size;
      ModUnique(k - size, size, k / size - 1, k % size);
    }
  }

  lemma ModUnique(k: nat, size: nat, q: int, r: nat)
    requires r < size && k == size * q + r
    ensures k % size == r
  {
    var d := k / size - q;
    assert size * d == r - k % size;
    if d >= 1 {
      MulAtLeast(size, d);
    } else if d <= -1 {
      MulAtLeast(size, -d);
    }
  }

  lemma MulAtLeast(a: nat, b: nat)
    requires b >= 1
    ensures a * b >= a
  {
    assert a * b == a + a * (b - 1);
  }

  lemma {:induction false} SlotNext(k: nat, size: nat)
    requires size > 0
    ensures Slot(k + 1, size) == if Slot(k, size) + 1 == size then 0 else Slot(k, size) + 1
    decreases k
  {
    if k >= size {
      SlotNext(k - size, size);
    }
  }

  lemma {:induction false} SlotAdds(a: nat, b: nat, size: nat)
    requires size > 0
    ensures Slot(Slot(a, size) + b, size) == Slot(a + b, size)
    decreases a
  {
    if a >= size {
      SlotAdds(a - size, b, size);
    }
  }

  /** Fewer than `size` apart, two entries never share a position. */
  lemma {:induction false} SlotsDiffer(k: nat, n: nat, size: nat)
    requires k < n < k + size
    ensures Slot(k, size) != Slot(n, size)
    decreases k
  {
    if k >= size {
      SlotsDiffer(k - size, n - size, size);
    }
  }
}
