/** The two pieces of 64-bit arithmetic everything else leans on: src/reallocarray.c and SizeReduce. */
module Arithmetic {
  import opened Bytes
  import opened Options

  const SIZE_MAX: int := 0xffff_ffff_ffff_ffff
  const MUL_NO_OVERFLOW: int := 0x1_0000_0000
  const INT_MAX: int := 0x7fff_ffff

  lemma DivisionBound(n: int, d: int, q: int)
    requires 0 < d && 0 <= n && 0 <= q
    ensures n / d < q <==> n < q * d
  {
    var r := n / d;
    assert r * d <= n < r * d + d;
    if r < q {
      MulMonotone(r + 1, q, d);
    } else {
      MulMonotone(q, r, d);
    }
  }

  lemma MulMonotone(a: int, b: int, d: int)
    requires a <= b && 0 <= d
    ensures a * d <= b * d
  {
    assert (b - a) * d >= 0;
  }

  lemma MulBothBounded(a: nat, b: nat, m: nat)
    requires a < m && b < m
    ensures a * b < m * m
  {
    MulMonotone(a, m - 1, b);
    MulMonotone(b, m, m - 1);
  }

  /** The product reduced to size_t. */
  function Product(nmemb: U64, size: U64): (r: U64)
    ensures nmemb * size <= SIZE_MAX ==> r == nmemb * size
  {
    var exact: int := nmemb * size;
    if exact <= SIZE_MAX then exact else exact % (SIZE_MAX + 1)
  }

  predicate GuardRefuses(nmemb: U64, size: U64) {
    (nmemb >= MUL_NO_OVERFLOW || size >= MUL_NO_OVERFLOW) && nmemb > 0 && SIZE_MAX / nmemb < size
  }

  /** The size reallocarray hands to realloc; None when the guard refuses. */
  function RequestedSize(nmemb: U64, size: U64): Option<U64> {
    if GuardRefuses(nmemb, size) then None else Some(Product(nmemb, size))
  }

  lemma GuardMeansOverflow(nmemb: U64, size: U64)
    ensures GuardRefuses(nmemb, size) <==> nmemb * size > SIZE_MAX
  {
    if nmemb < MUL_NO_OVERFLOW && size < MUL_NO_OVERFLOW {
      MulBothBounded(nmemb, size, MUL_NO_OVERFLOW);
    } else if nmemb > 0 {
      DivisionBound(SIZE_MAX, nmemb, size);
    }
  }

  /** The guard refuses exactly the products that do not fit; an accepted request never wraps. */
  lemma GuardIsExact(nmemb: U64, size: U64)
    ensures RequestedSize(nmemb, size) == if nmemb * size > 0xffff_ffff_ffff_ffff then None else Some(nmemb * size)
  {
    GuardMeansOverflow(nmemb, size);
  }

  function Pow1024(k: nat): nat {
    if k == 0 then 1 else 1024 * Pow1024(k - 1)
  }

  lemma {:induction false} Pow1024Positive(k: nat)
    ensures Pow1024(k) >= 1
  {
    if k > 0 {
      Pow1024Positive(k - 1);
    }
  }

  /** Dividing by 1024 once more. */
  lemma ShiftOnce(size: nat, k: nat, v: nat)
    requires v * Pow1024(k) <= size < (v + 1) * Pow1024(k)
    ensures (v / 1024) * Pow1024(k + 1) <= size < (v / 1024 + 1) * Pow1024(k + 1)
  {
    Pow1024Positive(k);
    var q := v / 1024;
    var p := Pow1024(k);
    assert Pow1024(k + 1) == 1024 * p;
    MulMonotone(q * 1024, v, p);
    MulMonotone(v + 1, (q + 1) * 1024, p);
    assert (q * 1024) * p == q * (1024 * p);
    assert ((q + 1) * 1024) * p == (q + 1) * (1024 * p);
  }

  lemma ReducedIsQuotient(size: nat, k: nat, v: nat)
    requires v * Pow1024(k) <= size < (v + 1) * Pow1024(k)
    ensures Pow1024(k) > 0 && size / Pow1024(k) == v
  {
    Pow1024Positive(k);
    DivisionBound(size, Pow1024(k), v);
    DivisionBound(size, Pow1024(k), v + 1);
  }

  /** More than six shifts cannot be needed by a 64-bit size. */
  lemma SevenShiftsTooMany(k: nat, v: nat)
    requires k >= 6 && v > 1024
    ensures v * Pow1024(k) > SIZE_MAX
  {
    PowAtLeast(6, k);
    MulMonotone(1025, v, Pow1024(k));
    assert Pow1024(6) == 1024 * 1024 * 1024 * 1024 * 1024 * 1024;
    assert 1025 * Pow1024(k) >= 1025 * Pow1024(6);
  }

  lemma {:induction false} PowAtLeast(j: nat, k: nat)
    requires j <= k
    ensures Pow1024(j) <= Pow1024(k)
  {
    if j < k {
      PowAtLeast(j, k - 1);
    }
  }

  /** SizeReduce: the loop that picks the printed value and the index of its unit. */
  method SizeReduce(size: U64) returns (v: nat, sz: nat)
    ensures Pow1024(sz) > 0 && v == size / Pow1024(sz) && v <= 1024
    ensures forall j: nat :: j < sz ==> Pow1024(j) > 0 && size / Pow1024(j) > 1024
    ensures v * Pow1024(sz) <= size < (v + 1) * Pow1024(sz)
    ensures sz <= 6 < 9 // the unit table has nine entries
  {
    v, sz := size, 0;
    while v > 1024
      invariant v * Pow1024(sz) <= size < (v + 1) * Pow1024(sz)
      invariant forall j: nat :: j < sz ==> Pow1024(j) > 0 && size / Pow1024(j) > 1024
      invariant sz <= 6
    {
      ReducedIsQuotient(size, sz, v);
      if sz >= 6 {
        SevenShiftsTooMany(sz, v);
      }
      ShiftOnce(size, sz, v);
      v, sz := v / 1024, sz + 1;
    }
    ReducedIsQuotient(size, sz, v);
  }
}
