/** Blocks of equal size, one after the other. */
module Spans {

  /** Blocks of this size at a and b do not overlap. */
  predicate Apart(a: int, b: int, size: nat) { a + size <= b || b + size <= a }

  lemma {:induction false} Stride(size: nat, j: nat, k: nat)
    requires j < k
    ensures j * size + size <= k * size
  {
    OneMore(size, k - 1);
    if j + 1 < k { Stride(size, j, k - 1); }
  }

  lemma {:induction false} OneMore(size: nat, k: nat)
    ensures (k + 1) * size == k * size + size
  {
  }

  /** The blocks at multiples of the size fill a range of n of them and do not overlap. */
  lemma {:induction false} Tiled(base: int, size: nat, n: nat, j: nat, k: nat)
    requires j < n && k < n
    ensures base <= base + k * size && base + k * size + size <= base + n * size
    ensures j != k ==> Apart(base + j * size, base + k * size, size)
  {
    Stride(size, k, n);
    assert 0 <= k * size;
    if j < k { Stride(size, j, k); } else if k < j { Stride(size, k, j); }
  }
}
