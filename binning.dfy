/** The score binner: `pd.cut(x, bins=5)` on a column, and the
    `rank(method='first')` that Frequency and Monetary go through first. */
module Binning {

  /** The i-th of the six edges `linspace(lo, hi, 6)`. */
  function Edge(lo: int, hi: int, i: int): real
  {
    lo as real + i as real * (hi - lo) as real / 5.0
  }

  /** 1-based bin of `v` among five equal-width bins spanning the column's
      range [lo, hi]. Bins are closed on the right; the lowest edge is moved
      down slightly, so `lo` itself falls in bin 1. When every value is the
      same (lo == hi) the range is widened by 0.1% on both sides, which puts
      every value in the middle bin. */
  function EqualWidthBin(v: int, lo: int, hi: int): (b: int)
    requires lo <= v <= hi
    ensures 1 <= b <= 5
    ensures lo < hi ==> v as real <= Edge(lo, hi, b) && (b == 1 || Edge(lo, hi, b - 1) < v as real)
    ensures lo == hi ==> b == 3
  {
    if lo == hi then 3
    else if 5 * (v - lo) <= hi - lo then 1
    else if 5 * (v - lo) <= 2 * (hi - lo) then 2
    else if 5 * (v - lo) <= 3 * (hi - lo) then 3
    else if 5 * (v - lo) <= 4 * (hi - lo) then 4
    else 5
  }

  /** Bins never go down as the value goes up. */
  lemma BinMonotone(v: int, w: int, lo: int, hi: int)
    requires lo <= v <= w <= hi
    ensures EqualWidthBin(v, lo, hi) <= EqualWidthBin(w, lo, hi)
  {
  }

  /** The column minimum lands in bin 1 and the maximum in bin 5. */
  lemma BinEnds(lo: int, hi: int)
    requires lo < hi
    ensures EqualWidthBin(lo, lo, hi) == 1 && EqualWidthBin(hi, lo, hi) == 5
  {
  }

  // ------------------------------------------------------------ rank(method='first')

  /** Element j is ranked before element i: a smaller value, or an equal
      value further up the column. */
  predicate Precedes(xs: seq<real>, j: int, i: int)
    requires 0 <= j < |xs| && 0 <= i < |xs|
  {
    xs[j] < xs[i] || (xs[j] == xs[i] && j < i)
  }

  /** How many of the first k elements are ranked before element i. */
  function CountBefore(xs: seq<real>, i: int, k: int): (c: nat)
    requires 0 <= i < |xs| && 0 <= k <= |xs|
    ensures c <= k
  {
    if k == 0 then 0
    else CountBefore(xs, i, k - 1) + (if Precedes(xs, k - 1, i) then 1 else 0)
  }

  /** The 1-based rank of element i, ties broken by position. */
  function Rank(xs: seq<real>, i: int): int
    requires 0 <= i < |xs|
  {
    1 + CountBefore(xs, i, |xs|)
  }

  lemma {:induction false} CountBeforeIrreflexive(xs: seq<real>, i: int, k: int)
    requires 0 <= i < |xs| && 0 <= k <= |xs|
    ensures CountBefore(xs, i, k) <= k - (if i < k then 1 else 0)
  {
    if k > 0 { CountBeforeIrreflexive(xs, i, k - 1); }
  }

  lemma {:induction false} CountBeforeStrict(xs: seq<real>, i: int, j: int, k: int)
    requires 0 <= i < |xs| && 0 <= j < |xs| && 0 <= k <= |xs|
    requires Precedes(xs, i, j)
    ensures CountBefore(xs, j, k) >= CountBefore(xs, i, k) + (if i < k then 1 else 0)
  {
    if k > 0 { CountBeforeStrict(xs, i, j, k - 1); }
  }

  /** Ranks lie in 1..n, a strictly larger value gets a strictly larger rank,
      and equal values are ranked in order of position, so no two elements
      share a rank. */
  lemma RankFacts(xs: seq<real>, i: int, j: int)
    requires 0 <= i < |xs| && 0 <= j < |xs|
    ensures 1 <= Rank(xs, i) <= |xs|
    ensures xs[i] < xs[j] ==> Rank(xs, i) < Rank(xs, j)
    ensures xs[i] == xs[j] && i < j ==> Rank(xs, i) < Rank(xs, j)
    ensures i != j ==> Rank(xs, i) != Rank(xs, j)
  {
    CountBeforeIrreflexive(xs, i, |xs|);
    if Precedes(xs, i, j) { CountBeforeStrict(xs, i, j, |xs|); }
    if i != j && Precedes(xs, j, i) { CountBeforeStrict(xs, j, i, |xs|); }
  }

  /** The rank column `rank(method='first')` produces. */
  function Ranks(xs: seq<real>): (r: seq<int>)
    ensures |r| == |xs|
    ensures forall i :: 0 <= i < |xs| ==> r[i] == Rank(xs, i)
  {
    seq(|xs|, i requires 0 <= i < |xs| => Rank(xs, i))
  }

  /** The ranks of a column of n values are exactly 1..n, each once. */
  lemma RanksArePermutation(xs: seq<real>)
    ensures forall i :: 0 <= i < |xs| ==> 1 <= Ranks(xs)[i] <= |xs|
    ensures forall i, j :: 0 <= i < j < |xs| ==> Ranks(xs)[i] != Ranks(xs)[j]
    ensures forall k :: 1 <= k <= |xs| ==> k in Ranks(xs)
  {
    var n := |xs|;
    var rs := Ranks(xs);
    forall i, j | 0 <= i < n && 0 <= j < n
      ensures 1 <= rs[i] <= n && (i != j ==> rs[i] != rs[j])
    {
      RankFacts(xs, i, j);
    }
    var image := set i | 0 <= i < n :: Rank(xs, i);
    var target := set i | 0 <= i < n :: Succ(i);
    forall y | y in image ensures y in target {
      var i :| 0 <= i < n && Rank(xs, i) == y;
      assert Succ(y - 1) == y;
    }
    ImageSize(xs, n);
    RangeSize(n);
    SubsetOfSameSize(image, target);
    forall k | 1 <= k <= n ensures k in rs {
      assert Succ(k - 1) in target;
      var i :| 0 <= i < n && Rank(xs, i) == k;
      assert rs[i] == k;
    }
  }

  function Succ(i: int): int { i + 1 }

  lemma {:induction false} ImageSize(xs: seq<real>, k: int)
    requires 0 <= k <= |xs|
    ensures |set i | 0 <= i < k :: Rank(xs, i)| == k
  {
    if k > 0 {
      ImageSize(xs, k - 1);
      var a := set i | 0 <= i < k - 1 :: Rank(xs, i);
      var b := set i | 0 <= i < k :: Rank(xs, i);
      assert b == a + {Rank(xs, k - 1)};
      forall i | 0 <= i < k - 1 ensures Rank(xs, i) != Rank(xs, k - 1) { RankFacts(xs, i, k - 1); }
      assert Rank(xs, k - 1) !in a;
    }
  }

  lemma {:induction false} RangeSize(n: int)
    requires n >= 0
    ensures |set i | 0 <= i < n :: Succ(i)| == n
  {
    if n > 0 {
      RangeSize(n - 1);
      var a := set i | 0 <= i < n - 1 :: Succ(i);
      assert (set i | 0 <= i < n :: Succ(i)) == a + {Succ(n - 1)};
      assert Succ(n - 1) !in a;
    }
  }

  lemma SubsetOfSameSize<X>(a: set<X>, b: set<X>)
    requires a <= b && |a| == |b|
    ensures a == b
  {
    assert b == a + (b - a);
    assert a * (b - a) == {};
    assert |b - a| == 0;
    forall x | x in b ensures x in a { assert x !in b - a; }
  }

  // ------------------------------------------------------------ the three scores

  /** Recency is binned directly and the labels run backwards, [5,4,3,2,1]:
      the most recent customers score 5. */
  function RecencyScore(recency: int, lo: int, hi: int): (s: int)
    requires lo <= recency <= hi
    ensures 1 <= s <= 5
    ensures s == 6 - EqualWidthBin(recency, lo, hi)
  {
    6 - EqualWidthBin(recency, lo, hi)
  }

  /** Frequency and Monetary are binned on their ranks 1..n, labels [1..5]. */
  function RankScore(rank: int, n: int): (s: int)
    requires 1 <= rank <= n
    ensures 1 <= s <= 5
  {
    EqualWidthBin(rank, 1, n)
  }

  /** A smaller Recency never gets a lower R score. */
  lemma RecencyScoreAntitone(a: int, b: int, lo: int, hi: int)
    requires lo <= a <= b <= hi
    ensures RecencyScore(a, lo, hi) >= RecencyScore(b, lo, hi)
  {
    BinMonotone(a, b, lo, hi);
  }

  /** A higher rank never gets a lower F or M score. */
  lemma RankScoreMonotone(a: int, b: int, n: int)
    requires 1 <= a <= b <= n
    ensures RankScore(a, n) <= RankScore(b, n)
  {
    BinMonotone(a, b, 1, n);
  }
}
