/** The interpolated percentile of the workload generator, over reals. */
module Percentiles {
  import opened Arithmetic
  import opened Seqs
  import opened Sorting

  function Ceil(x: real): int {
    -(-x).Floor
  }

  /** The mean of two values, each weighted by the distance from the other. */
  function Mix(a: real, b: real, fromA: real, fromB: real): real {
    a * fromB + b * fromA
  }

  /** The value at a fractional rank of a sorted sequence. */
  function AtRank(s: seq<real>, k: real): real
    requires 0.0 <= k <= (|s| - 1) as real
  {
    var f, c := k.Floor, Ceil(k);
    if f == c then s[f] else Mix(s[f], s[c], k - f as real, c as real - k)
  }

  function Rank(n: nat, p: real): real {
    (n as real - 1.0) * (p / 100.0)
  }

  lemma RankInRange(n: nat, p: real)
    requires n > 0 && 0.0 <= p <= 100.0
    ensures 0.0 <= Rank(n, p) <= n as real - 1.0
  {
    RankMonotone(n, p, p);
  }

  /** The percentile of any list; an empty one gives zero. */
  function Percentile(values: seq<real>, p: real): real
    requires 0.0 <= p <= 100.0
  {
    if values == [] then 0.0
    else
      RankInRange(|values|, p);
      AtRank(Sort(RealLe, values), Rank(|values|, p))
  }

  lemma MixBetween(a: real, b: real, t: real, u: real)
    requires a <= b && 0.0 <= t && 0.0 <= u && t + u == 1.0
    ensures a <= Mix(a, b, t, u) <= b
  {
    MixFromBelow(a, b, t, u);
    MixFromAbove(a, b, t, u);
    ProductNonNegative(b - a, t);
    ProductNonNegative(b - a, u);
  }

  lemma MixFromBelow(a: real, b: real, t: real, u: real)
    requires t + u == 1.0
    ensures Mix(a, b, t, u) == a + (b - a) * t
  {
    assert u == 1.0 - t;
    assert a * (1.0 - t) == a - a * t;
    assert (b - a) * t == b * t - a * t;
  }

  lemma MixFromAbove(a: real, b: real, t: real, u: real)
    requires t + u == 1.0
    ensures Mix(a, b, t, u) == b - (b - a) * u
  {
    assert t == 1.0 - u;
    assert b * (1.0 - u) == b - b * u;
    assert (b - a) * u == b * u - a * u;
  }

  lemma AtRankBetweenNeighbours(s: seq<real>, k: real)
    requires Sorted(RealLe, s) && 0.0 <= k <= (|s| - 1) as real
    ensures 0 <= k.Floor <= Ceil(k) < |s|
    ensures s[k.Floor] <= AtRank(s, k) <= s[Ceil(k)]
  {
    var f, c := k.Floor, Ceil(k);
    if f != c {
      assert c == f + 1;
      assert RealLe(s[f], s[c]);
      MixBetween(s[f], s[c], k - f as real, c as real - k);
    }
  }

  /** Within one pair of neighbours and across pairs, a larger rank never has a smaller value. */
  lemma AtRankMonotone(s: seq<real>, k: real, l: real)
    requires Sorted(RealLe, s) && 0.0 <= k <= l <= (|s| - 1) as real
    ensures AtRank(s, k) <= AtRank(s, l)
  {
    AtRankBetweenNeighbours(s, k);
    AtRankBetweenNeighbours(s, l);
    var f, g := k.Floor, l.Floor;
    if f == g && Ceil(k) != f && Ceil(l) != f {
      var a, b := s[f], s[f + 1];
      assert RealLe(a, b);
      MixMonotone(a, b, k - f as real, Ceil(k) as real - k, l - f as real, Ceil(l) as real - l);
    } else if f != g || Ceil(k) == f {
      RealOrder();
      SortedAt(RealLe, s, Ceil(k), g);
    }
  }

  lemma MixMonotone(a: real, b: real, t: real, u: real, t2: real, u2: real)
    requires a <= b && t <= t2 && t + u == 1.0 && t2 + u2 == 1.0
    ensures Mix(a, b, t, u) <= Mix(a, b, t2, u2)
  {
    MixFromBelow(a, b, t, u);
    MixFromBelow(a, b, t2, u2);
    ProductMonotone(t, t2, b - a);
  }

  /** The percentile is monotone in p, for every list. */
  lemma PercentileMonotone(values: seq<real>, p: real, q: real)
    requires 0.0 <= p <= q <= 100.0
    ensures Percentile(values, p) <= Percentile(values, q)
  {
    if values != [] {
      RealOrder();
      SortSorted(RealLe, values);
      RankInRange(|values|, p);
      RankInRange(|values|, q);
      RankMonotone(|values|, p, q);
      AtRankMonotone(Sort(RealLe, values), Rank(|values|, p), Rank(|values|, q));
    }
  }

  /** The percentile lies within the list, meets its extremes at 0 and 100, and hits the sorted element at an integer rank. */
  lemma PercentileWithin(values: seq<real>, p: real)
    requires values != [] && 0.0 <= p <= 100.0
    ensures var s := Sort(RealLe, values);
            && s[0] == Percentile(values, 0.0) <= Percentile(values, p) <= Percentile(values, 100.0) == s[|s| - 1]
            && forall i | 0 <= i < |s| && Rank(|values|, p) == i as real :: Percentile(values, p) == s[i]
    ensures forall v | v in values :: Percentile(values, 0.0) <= v <= Percentile(values, 100.0)
  {
    var s := Sort(RealLe, values);
    RealOrder();
    SortSorted(RealLe, values);
    PercentileMonotone(values, 0.0, p);
    PercentileMonotone(values, p, 100.0);
    assert Rank(|values|, 0.0) == 0.0;
    assert Rank(|values|, 100.0) == (|values| - 1) as real;
    forall v | v in values
      ensures s[0] <= v <= s[|s| - 1]
    {
      assert v in multiset(values);
      var k := IndexOf(s, v);
      SortedAt(RealLe, s, 0, k);
      SortedAt(RealLe, s, k, |s| - 1);
    }
  }

  /** On the straight line from the f-th element to the next, at k. */
  ghost predicate OnLine(s: seq<real>, k: real, f: nat, x: real)
    requires f + 1 < |s|
  {
    x == s[f] + (s[f + 1] - s[f]) * (k - f as real)
  }

  lemma PercentileAtRank(values: seq<real>, p: real)
    requires values != [] && 0.0 <= p <= 100.0
    ensures 0.0 <= Rank(|values|, p) <= (|values| - 1) as real
    ensures Percentile(values, p) == AtRank(Sort(RealLe, values), Rank(|values|, p))
  {
    RankInRange(|values|, p);
  }

  /** Between two neighbours of the sorted list the percentile lies on the straight line. */
  lemma PercentileInterpolates(values: seq<real>, p: real, k: real, f: nat)
    requires 0.0 <= p <= 100.0 && f + 1 < |values|
    requires k == (|values| as real - 1.0) * (p / 100.0) && f as real <= k <= f as real + 1.0
    ensures OnLine(Sort(RealLe, values), k, f, Percentile(values, p))
  {
    PercentileAtRank(values, p);
    OnTheLine(Sort(RealLe, values), k, f);
  }

  lemma OnTheLine(s: seq<real>, k: real, f: nat)
    requires f + 1 < |s| && f as real <= k <= f as real + 1.0
    ensures OnLine(s, k, f, AtRank(s, k))
  {
    if k == f as real + 1.0 {
      assert k.Floor == f + 1 && Ceil(k) == f + 1;
    } else if k == f as real {
      assert k.Floor == f && Ceil(k) == f;
    } else {
      assert k.Floor == f && Ceil(k) == f + 1;
      MixFromBelow(s[f], s[f + 1], k - f as real, Ceil(k) as real - k);
    }
  }

  /** The order in which values were measured does not matter. */
  lemma PercentileOrderFree(a: seq<real>, b: seq<real>, p: real)
    requires multiset(a) == multiset(b) && 0.0 <= p <= 100.0
    ensures Percentile(a, p) == Percentile(b, p)
    ensures a == [] ==> Percentile(a, p) == 0.0
  {
    assert |multiset(a)| == |a| && |multiset(b)| == |b|;
    RealOrder();
    SortPermutation(RealLe, a, b);
  }
}
