/** Indexing a power-of-two buffer with a mask, shared by the deque and the ring buffer. */
module Masks {

  function Pow2(k: nat): (r: nat)
    ensures r > 0
  {
    if k == 0 then 1 else 2 * Pow2(k - 1)
  }

  /** Bitwise conjunction of two unbounded machine words. */
  function BitAnd(x: nat, y: nat): nat {
    if x == 0 || y == 0 then 0 else 2 * BitAnd(x / 2, y / 2) + (x % 2) * (y % 2)
  }

  /** `i & (size - 1)` is the remainder of i by size, for every power of two. */
  lemma {:induction false} MaskIsRemainder(i: nat, k: nat, size: nat)
    requires size == Pow2(k)
    ensures BitAnd(i, size - 1) == i % size
    decreases k
  {
    if i == 0 {
      RemainderUnique(0, size, 0, 0);
    } else if k == 0 {
      assert size == 1;
    } else {
      var half := Pow2(k - 1);
      assert size == 2 * half;
      MaskIsRemainder(i / 2, k - 1, half);
      HalveRemainder(i, half);
      MaskStep(i, half);
    }
  }

  lemma MaskStep(i: nat, half: nat)
    requires i > 0 && half > 0
    ensures BitAnd(i, 2 * half - 1) == 2 * BitAnd(i / 2, half - 1) + i % 2
  {
    assert (2 * half - 1) / 2 == half - 1 && (2 * half - 1) % 2 == 1;
  }

  lemma HalveRemainder(i: nat, half: nat)
    requires half > 0
    ensures i % (2 * half) == 2 * ((i / 2) % half) + i % 2
  {
    var q, r := (i / 2) / half, (i / 2) % half;
    assert i == (2 * half) * q + (2 * r + i % 2);
    RemainderUnique(i, 2 * half, q, 2 * r + i % 2);
  }

  lemma RemainderUnique(x: nat, d: nat, q: nat, r: nat)
    requires d > 0 && r < d && x == d * q + r
    ensures x % d == r
  {
    var q', r' := x / d, x % d;
    assert x == d * q' + r';
    assert d * (q' - q) == d * q' - d * q == r - r';
    if q' > q { AtLeastOnce(d, q' - q); }
    if q' < q { AtLeastOnce(d, q - q'); }
  }

  lemma AtLeastOnce(d: nat, k: nat)
    requires k > 0
    ensures d * k >= d
  {
    Product(d, k - 1);
    assert d * k == d * (k - 1) + d;
  }

  lemma Product(x: nat, y: nat)
    ensures x * y >= 0
  {
  }

  /** Two indices less than a buffer length apart use different slots. */
  lemma SlotsDiffer(i: nat, j: nat, size: nat)
    requires i < j < i + size
    ensures i % size != j % size
  {
    if i % size == j % size {
      var k := j / size - i / size;
      assert i == size * (i / size) + i % size && j == size * (j / size) + j % size;
      assert size * k == size * (j / size) - size * (i / size) == j - i;
      if k > 0 { AtLeastOnce(size, k); }
    }
  }

  /** Indices a whole buffer length apart share a slot. */
  lemma SlotWraps(i: nat, size: nat)
    requires size > 0
    ensures (i + size) % size == i % size
  {
    assert i + size == size * (i / size + 1) + i % size;
    RemainderUnique(i + size, size, i / size + 1, i % size);
  }
}
