/** Facts about products and quotients that the statistics proofs share. */
module Arithmetic {

  lemma ProductNonNegative(a: real, b: real)
    requires a >= 0.0 && b >= 0.0
    ensures a * b >= 0.0
  {
  }

  lemma ProductMonotone(a: real, b: real, c: real)
    requires a <= b && c >= 0.0
    ensures c * a <= c * b
  {
    ProductNonNegative(c, b - a);
    assert c * (b - a) == c * b - c * a;
  }

  lemma PositiveMultiple(k: int, n: nat)
    ensures k >= 1 ==> k * n >= n
  {
  }

  lemma NextMultiple(a: nat, n: nat, m: nat)
    requires m == n + 1
    ensures a * m == a + a * n
  {
  }

  /** A quotient rounded down stays within bounds that its dividend keeps. */
  lemma QuotientWithin(total: nat, n: nat, lo: nat, hi: nat)
    requires n > 0 && lo * n <= total <= hi * n
    ensures lo <= total / n <= hi
  {
    var q, r := total / n, total % n;
    assert total == q * n + r && r < n;
    assert (lo - q) * n == lo * n - q * n;
    assert (q - hi) * n == q * n - hi * n;
    PositiveMultiple(lo - q, n);
    PositiveMultiple(q - hi, n);
  }

  /** The rank of a percentile among n sorted values, which a larger percentile never lowers. */
  lemma RankMonotone(n: nat, p: real, q: real)
    requires n > 0 && 0.0 <= p <= q <= 100.0
    ensures 0.0 <= (n as real - 1.0) * (p / 100.0) <= (n as real - 1.0) * (q / 100.0) <= n as real - 1.0
  {
    var m := n as real - 1.0;
    ProductNonNegative(m, p / 100.0);
    ProductMonotone(p / 100.0, q / 100.0, m);
    ProductMonotone(q / 100.0, 1.0, m);
  }
}
