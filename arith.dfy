/** Integer division facts used by the row/beam index arithmetic. */
module Arith {

  lemma {:induction false} MulAtLeast(d: int, k: int)
    requires d >= 1 && k > 0
    ensures d * k >= k
    decreases d
  {
    if d > 1 {
      MulAtLeast(d - 1, k);
      assert d * k == (d - 1) * k + k;
    }
  }

  /** Division and remainder are determined by any decomposition x == q*k + m with 0 <= m < k. */
  lemma DivModUnique(x: int, k: int, q: int, m: int)
    requires k > 0 && 0 <= m < k && x == q * k + m
    ensures x / k == q && x % k == m
  {
    var q', m' := x / k, x % k;
    assert x == q' * k + m' && 0 <= m' < k;
    var d := q - q';
    assert d * k == m' - m by {
      assert q * k - q' * k == (q - q') * k;
    }
    if d >= 1 {
      MulAtLeast(d, k);
    } else if d <= -1 {
      MulAtLeast(-d, k);
    }
    assert d == 0;
  }

  /** Row r of a block layout with blocks of k rows: (b*k + j) div k == b, mod k == j. */
  lemma BlockIndex(b: int, k: int, j: int)
    requires k > 0 && 0 <= j < k
    ensures (b * k + j) / k == b && (b * k + j) % k == j
  {
    DivModUnique(b * k + j, k, b, j);
  }

  /** Flattened (B, K, K) layout: index b*K*K + f splits into row b*K + f div K and slot f mod K. */
  lemma FlatIndex(b: int, k: int, f: int)
    requires k > 0 && 0 <= f
    ensures (b * (k * k) + f) / k == b * k + f / k
    ensures (b * (k * k) + f) % k == f % k
  {
    var q, m := f / k, f % k;
    assert b * (k * k) + f == (b * k + q) * k + m by {
      assert b * (k * k) == (b * k) * k;
      assert (b * k + q) * k == (b * k) * k + q * k;
    }
    DivModUnique(b * (k * k) + f, k, b * k + q, m);
  }

  /** f in [0, k*k) gives a parent slot f div k in [0, k). */
  lemma SlotBound(f: int, k: int)
    requires k > 0 && 0 <= f < k * k
    ensures 0 <= f / k < k
  {
  }

  lemma MulMono(a: int, b: int, k: int)
    requires 0 <= a <= b && k >= 0
    ensures a * k <= b * k
  {
    assert b * k - a * k == (b - a) * k;
    if b > a && k > 0 { MulAtLeast(b - a, k); }
  }

  /** Row r < n*k lies in block r div k < n. */
  lemma BlockBound(r: int, n: int, k: int)
    requires k > 0 && 0 <= r < n * k
    ensures 0 <= r / k < n
  {
  }

  /** The next block starts k rows later: (i - k) div k + 1 == i div k. */
  lemma DivStep(i: int, k: int)
    requires 0 < k <= i
    ensures (i - k) / k + 1 == i / k
  {
    var q, m := (i - k) / k, (i - k) % k;
    assert i == (q + 1) * k + m;
    DivModUnique(i, k, q + 1, m);
  }

  /** Block b < n of k rows ends within the n*k rows. */
  lemma BlockEnd(b: int, n: int, k: int)
    requires 0 <= b < n && k >= 0
    ensures b * k + k <= n * k
  {
    MulMono(b + 1, n, k);
    assert (b + 1) * k == b * k + k;
  }
}
