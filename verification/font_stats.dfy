/**
  Document-wide font-size statistics: the sizes sorted, then the values at the
  median, 75th and 90th percentile indices; fixed defaults for a document with
  no blocks.
*/
module FontStatistics {
  import opened Blocks
  import opened Sorting

  function Sizes(blocks: seq<TextBlock>): (r: seq<real>)
    ensures |r| == |blocks| && forall i :: 0 <= i < |blocks| ==> r[i] == blocks[i].fontSize
  {
    seq(|blocks|, i requires 0 <= i < |blocks| => blocks[i].fontSize)
  }

  function Identity(x: real): real { x }

  /** Number of elements of `s` below `v` (strictly when `strict`, else at most `v`). */
  function Count(s: seq<real>, v: real, strict: bool): nat
    decreases |s|
  {
    if s == [] then 0
    else (if (if strict then s[0] < v else s[0] <= v) then 1 else 0) + Count(s[1..], v, strict)
  }

  /**
    `v` is a k-th smallest element (counting from 0) of `s`: it occurs in `s`,
    at most `k` elements are smaller and more than `k` are not larger. This is
    what "the value at index k of the sorted list" means, independent of any sort.
  */
  ghost predicate IsOrderStatistic(s: seq<real>, v: real, k: nat) {
    v in s && Count(s, v, true) <= k < Count(s, v, false)
  }

  /**
    `calculate_font_statistics`: median, large (p75) and very large (p90) sizes.
    Python's `int(0.75 * n)` and `int(0.90 * n)` are the floors `3n/4` and `9n/10`.
  */
  function CalculateFontStatistics(blocks: seq<TextBlock>): (st: FontStats)
    ensures blocks == [] ==> st == FontStats(12.0, 15.6, 18.0)
    ensures blocks != [] ==> IsOrderStatistic(Sizes(blocks), st.median, |blocks| / 2)
    ensures blocks != [] ==> IsOrderStatistic(Sizes(blocks), st.large, (3 * |blocks|) / 4)
    ensures blocks != [] ==> IsOrderStatistic(Sizes(blocks), st.veryLarge, (9 * |blocks|) / 10)
    ensures blocks != [] ==> st.median <= st.large <= st.veryLarge
  {
    var sizes := Sizes(blocks);
    var n := |sizes|;
    if n == 0 then
      var median := 12.0;
      FontStats(median, median * 1.3, median * 1.5)
    else
      var sorted := SortBy(sizes, Identity);
      var i, j, k := n / 2, (3 * n) / 4, (9 * n) / 10;
      PercentileIndicesOrdered(n);
      SortedIndexIsOrderStatistic(sorted, sizes, i);
      SortedIndexIsOrderStatistic(sorted, sizes, j);
      SortedIndexIsOrderStatistic(sorted, sizes, k);
      OrderStatisticsMonotone(sizes, sorted[i], i, sorted[j], j);
      OrderStatisticsMonotone(sizes, sorted[j], j, sorted[k], k);
      FontStats(sorted[i], sorted[j], sorted[k])
  }

  /** The three percentile indices are ordered and in range for every non-empty list. */
  lemma PercentileIndicesOrdered(n: nat)
    requires n > 0
    ensures n / 2 <= (3 * n) / 4 <= (9 * n) / 10 < n
  {
    assert 4 * (n / 2) <= 2 * n;
    assert 4 * ((3 * n) / 4) <= 3 * n;
    assert 10 * ((3 * n) / 4) <= 10 * n;
  }

  lemma {:induction false} CountAppend(a: seq<real>, b: seq<real>, v: real, strict: bool)
    ensures Count(a + b, v, strict) == Count(a, v, strict) + Count(b, v, strict)
    decreases |a|
  {
    if a != [] {
      assert (a + b)[1..] == a[1..] + b;
      CountAppend(a[1..], b, v, strict);
    } else {
      assert a + b == b;
    }
  }

  /** Counting depends only on the multiset of values, so any permutation has the same counts. */
  lemma {:induction false} CountPermutation(a: seq<real>, b: seq<real>, v: real, strict: bool)
    requires multiset(a) == multiset(b)
    ensures Count(a, v, strict) == Count(b, v, strict)
    decreases |a|
  {
    if a == [] {
      assert |b| == |multiset(b)| == 0;
    } else {
      assert a[0] in multiset(b);
      var j :| 0 <= j < |b| && b[j] == a[0];
      CountPermutation(Remove(a, 0), Remove(b, j), v, strict);
      CountRemove(a, 0, v, strict);
      CountRemove(b, j, v, strict);
    }
  }

  /** `b` without its element at index `j`. */
  function Remove(b: seq<real>, j: nat): (r: seq<real>)
    requires j < |b|
    ensures multiset(r) == multiset(b) - multiset{b[j]} && |r| == |b| - 1
  {
    assert b == b[..j] + [b[j]] + b[j + 1..];
    b[..j] + b[j + 1..]
  }

  lemma CountRemove(b: seq<real>, j: nat, v: real, strict: bool)
    requires j < |b|
    ensures Count(b, v, strict) == Count([b[j]], v, strict) + Count(Remove(b, j), v, strict)
  {
    assert b == b[..j] + [b[j]] + b[j + 1..];
    CountAppend(b[..j] + [b[j]], b[j + 1..], v, strict);
    CountAppend(b[..j], [b[j]], v, strict);
    CountAppend(b[..j], b[j + 1..], v, strict);
  }

  /** In a list whose elements from index `k` on are all at least `v`, at most `k` are below `v`. */
  lemma {:induction false} CountBelowBound(s: seq<real>, v: real, k: nat)
    requires k <= |s|
    requires forall i :: k <= i < |s| ==> v <= s[i]
    ensures Count(s, v, true) <= k
    decreases |s|
  {
    if s != [] {
      if k == 0 {
        CountBelowBound(s[1..], v, 0);
      } else {
        CountBelowBound(s[1..], v, k - 1);
      }
    }
  }

  /** In a list whose first `k` elements are all at most `v`, at least `k` are at most `v`. */
  lemma {:induction false} CountAtMostBound(s: seq<real>, v: real, k: nat)
    requires k <= |s|
    requires forall i :: 0 <= i < k ==> s[i] <= v
    ensures k <= Count(s, v, false)
    decreases |s|
  {
    if s != [] && k > 0 {
      CountAtMostBound(s[1..], v, k - 1);
    }
  }

  lemma SortedIndexIsOrderStatistic(sorted: seq<real>, s: seq<real>, k: nat)
    requires SortedBy(sorted, Identity) && multiset(sorted) == multiset(s)
    requires k < |sorted|
    ensures IsOrderStatistic(s, sorted[k], k)
  {
    var v := sorted[k];
    assert forall i :: k <= i < |sorted| ==> Identity(v) <= Identity(sorted[i]);
    CountBelowBound(sorted, v, k);
    assert forall i :: 0 <= i < k + 1 ==> Identity(sorted[i]) <= Identity(v);
    CountAtMostBound(sorted, v, k + 1);
    CountPermutation(sorted, s, v, true);
    CountPermutation(sorted, s, v, false);
    assert v in multiset(sorted);
  }

  /** Two order statistics of the same list are ordered as their ranks are. */
  lemma OrderStatisticsMonotone(s: seq<real>, v: real, k: nat, w: real, m: nat)
    requires IsOrderStatistic(s, v, k) && IsOrderStatistic(s, w, m) && k <= m
    ensures v <= w
  {
    if w < v {
      CountMonotone(s, w, v);
    }
  }

  lemma {:induction false} CountMonotone(s: seq<real>, w: real, v: real)
    requires w < v
    ensures Count(s, w, false) <= Count(s, v, true)
    decreases |s|
  {
    if s != [] {
      CountMonotone(s[1..], w, v);
    }
  }
}
