/** Division facts for reading bit fields out of a word. */
module Arithmetic {

  /** Peeling one field off the low end: `k` is its position, `m` its range. */
  lemma PeelField(flag: nat, k: nat, m: nat)
    requires k > 0 && m > 0
    ensures k * m > 0 && flag / k == m * (flag / (k * m)) + flag / k % m
  {
    DivideTwice(flag, k, m);
  }

  lemma DivideTwice(n: nat, k: nat, m: nat)
    requires k > 0 && m > 0
    ensures k * m > 0 && n / (k * m) == n / k / m
  {
    var q, x := n / k / m, n / k % m;
    InTwoSteps(n, k, m, n / k, n % k, q, x);
    QuotientIs(n, k * m, q, k * x + n % k);
  }

  /** Quotients and remainders of two divisions in a row, as products and sums. */
  lemma InTwoSteps(n: nat, k: nat, m: nat, a: nat, r: nat, q: nat, x: nat)
    requires n == k * a + r && r < k && a == m * q + x && x < m
    ensures k * m > 0 && n == q * (k * m) + (k * x + r) && k * x + r < k * m
  {
    Distribute(k, m, q, x);
    MultiplyLess(x, m, k);
    MultiplyLess(0, m, k);
  }

  lemma Distribute(k: nat, m: nat, q: nat, x: nat)
    ensures k * (m * q + x) == q * (k * m) + k * x
  {
    assert k * (m * q) == q * (k * m);
  }

  lemma MultiplyLess(x: nat, m: nat, k: nat)
    requires x < m && k > 0
    ensures k * x + k <= k * m
    decreases m - x
  {
    if x + 1 < m {
      MultiplyLess(x + 1, m, k);
      assert k * (x + 1) == k * x + k;
    }
  }

  lemma QuotientIs(n: nat, d: nat, q: nat, r: nat)
    requires d > 0 && n == q * d + r && r < d
    ensures n / d == q && n % d == r
  {
    var e := n / d;
    assert n == d * e + n % d;
    if e < q {
      MultiplyLess(e, q, d);
    } else if e > q {
      MultiplyLess(q, e, d);
    }
  }

  /** Reading the field of range `m` at position `k`, and what lies above it. */
  lemma FieldAt(flag: nat, k: nat, above: nat, m: nat, x: nat)
    requires k > 0 && x < m && flag / k == m * above + x
    ensures flag / k % m == x && k * m > 0 && flag / (k * m) == above
  {
    QuotientIs(m * above + x, m, above, x);
    DivideTwice(flag, k, m);
  }
}
