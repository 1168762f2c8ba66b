/**
 * The percentile estimator `valueatpercentile` (memcached_object_profile.py, lines 14-38):
 * rank-based linear interpolation over the sorted list of sizes. Arithmetic is exact
 * (`real`), where the source uses binary floating point.
 */
module PercentileEstimator {
  import opened Results
  import opened Sequences

  /** The two ways the estimator aborts: a `ValueError` for a bad percentile, an `IndexError` on an empty list. */
  datatype PercentileError = PercentileOutOfRange | EmptyValues

  /** The percentiles the estimator accepts: `0 <= P < 100`. */
  predicate ValidPercentile(P: real)
  {
    0.0 <= P < 100.0
  }

  /** The rank `R = P / 100 * N + 0.5`: the 1-based, possibly fractional position of percentile `P` among `n` values. */
  function Rank(P: real, n: nat): real
  {
    P / 100.0 * (n as real) + 0.5
  }

  /**
   * The value at percentile `P` of the list `s`, which the caller has already sorted:
   * the first element when `R <= 1`, the last when `R >= N`, the element at 1-based
   * position `R` when `R` is whole, and otherwise the interpolation between the elements
   * at 1-based positions `k` and `k + 1`, where `k` is `R` rounded down. (The source's
   * `int(R)` truncates toward zero, which is rounding down here because `R > 1`.)
   * Every index is within the list for every `P`: the first two branches catch the ranks
   * outside `(1, N)`.
   */
  function AtRank(s: seq<real>, P: real): real
    requires |s| > 0
  {
    var N := |s|;
    var R := Rank(P, N);
    if R <= 1.0 then s[0]
    else if R >= N as real then s[N - 1]
    else if R.Floor as real == R then s[R.Floor - 1]
    else
      var k := R.Floor;
      var Pk := 100.0 / (N as real) * (k as real - 0.5);
      s[k - 1] + (N as real) * (P - Pk) / 100.0 * (s[k] - s[k - 1])
  }

  /**
   * The whole estimator on the caller's list: reject a percentile outside `[0, 100)`,
   * sort, reject an empty list, then pick the value at the rank.
   */
  function Percentile(values: seq<real>, P: real): (r: Result<real, PercentileError>)
    ensures !ValidPercentile(P) ==> r == Failure(PercentileOutOfRange)
    ensures ValidPercentile(P) && |values| == 0 ==> r == Failure(EmptyValues)
    ensures ValidPercentile(P) && |values| > 0 ==> r.Success? && Min(values) <= r.value <= Max(values)
  {
    if !ValidPercentile(P) then Failure(PercentileOutOfRange)
    else if |values| == 0 then Failure(EmptyValues)
    else
      var sorted := SortSeq(values);
      AtRankBounds(sorted, P);
      SortedEnds(values, sorted);
      Success(AtRank(sorted, P))
  }

  /**
   * `valueatpercentile(values, P)`: checks `P`, sorts the caller's list in place, and
   * returns the value at percentile `P`. A bad `P` is rejected before the list is touched;
   * an empty list is sorted (which leaves it empty) and then rejected.
   */
  method ValueAtPercentile(values: array<real>, P: real) returns (r: Result<real, PercentileError>)
    modifies values
    ensures r == Percentile(old(values[..]), P)
    ensures ValidPercentile(P) ==> Sorted(values[..]) && multiset(values[..]) == multiset(old(values[..]))
    ensures !ValidPercentile(P) ==> values[..] == old(values[..])
  {
    if !(0.0 <= P < 100.0) {
      return Failure(PercentileOutOfRange);
    }
    InsertionSort(values);
    if values.Length == 0 {
      return Failure(EmptyValues);
    }
    r := Success(AtRank(values[..], P));
  }

  /**
   * The key fact of the interpolation branch: with `Pk = 100 / N * (k - 0.5)`, the weight
   * `N * (P - Pk) / 100` given to the upper neighbour is exactly `R - k`.
   */
  lemma InterpolationWeight(n: nat, P: real, k: int)
    requires n > 0
    ensures (n as real) * (P - 100.0 / (n as real) * (k as real - 0.5)) / 100.0 == Rank(P, n) - k as real
  {
    var N := n as real;
    assert N * (100.0 / N) == 100.0;
    calc {
      N * (P - 100.0 / N * (k as real - 0.5)) / 100.0;
      (N * P - N * (100.0 / N) * (k as real - 0.5)) / 100.0;
      (N * P - 100.0 * (k as real - 0.5)) / 100.0;
      P / 100.0 * N + 0.5 - k as real;
    }
  }

  /**
   * Between the extreme ranks, the estimate is the linear interpolation with weight
   * `R - k` between the elements at 1-based positions `k` and `k + 1`, `k` being `R` rounded
   * down; both positions lie in the list. A whole rank is the case of weight 0.
   */
  lemma {:induction false} AtRankInterpolates(s: seq<real>, P: real)
    requires |s| > 0
    requires 1.0 < Rank(P, |s|) < |s| as real
    ensures 1 <= Rank(P, |s|).Floor <= |s| - 1
    ensures 0.0 <= Rank(P, |s|) - Rank(P, |s|).Floor as real < 1.0
    ensures var k := Rank(P, |s|).Floor;
            AtRank(s, P) == s[k - 1] + (Rank(P, |s|) - k as real) * (s[k] - s[k - 1])
  {
    var R := Rank(P, |s|);
    var k := R.Floor;
    if k as real != R {
      InterpolationWeight(|s|, P, k);
    }
  }

  /**
   * In the interpolation branch the estimate lies between the two neighbours it
   * interpolates, the elements at 1-based positions `k` and `k + 1`.
   */
  lemma {:induction false} InterpolationBetweenNeighbours(s: seq<real>, P: real)
    requires |s| > 0 && Sorted(s)
    requires 1.0 < Rank(P, |s|) < |s| as real
    ensures 1 <= Rank(P, |s|).Floor <= |s| - 1
    ensures var k := Rank(P, |s|).Floor;
            s[k - 1] <= AtRank(s, P) <= s[k]
  {
    AtRankInterpolates(s, P);
    var R := Rank(P, |s|);
    var k := R.Floor;
    var w := R - k as real;
    var d := s[k] - s[k - 1];
    ProductNonNegative(w, d);
    ProductNonNegative(1.0 - w, d);
  }

  /** A product of two non-negative reals is non-negative. */
  lemma ProductNonNegative(x: real, y: real)
    requires 0.0 <= x && 0.0 <= y
    ensures 0.0 <= x * y
  {
  }

  /** On a sorted list the estimate lies between the first and the last element, for every `P`. */
  lemma AtRankBounds(s: seq<real>, P: real)
    requires |s| > 0 && Sorted(s)
    ensures s[0] <= AtRank(s, P) <= s[|s| - 1]
  {
    var R := Rank(P, |s|);
    if 1.0 < R < |s| as real {
      InterpolationBetweenNeighbours(s, P);
    }
  }

  /** The rank grows with the percentile. */
  lemma RankMonotone(P1: real, P2: real, n: nat)
    requires P1 <= P2
    ensures Rank(P1, n) <= Rank(P2, n)
  {
    assert (P2 - P1) / 100.0 * (n as real) >= 0.0;
  }

  /** On a sorted list, a higher percentile never gives a smaller estimate. */
  lemma {:induction false} AtRankMonotone(s: seq<real>, P1: real, P2: real)
    requires |s| > 0 && Sorted(s)
    requires P1 <= P2
    ensures AtRank(s, P1) <= AtRank(s, P2)
  {
    var N := |s|;
    var R1, R2 := Rank(P1, N), Rank(P2, N);
    RankMonotone(P1, P2, N);
    AtRankBounds(s, P1);
    AtRankBounds(s, P2);
    if 1.0 < R1 && R2 < N as real {
      AtRankInterpolates(s, P1);
      AtRankInterpolates(s, P2);
      InterpolationBetweenNeighbours(s, P1);
      InterpolationBetweenNeighbours(s, P2);
      var k1, k2 := R1.Floor, R2.Floor;
      if k1 < k2 {
        assert s[k1] <= s[k2 - 1];
      } else {
        assert k1 == k2;
        ProductNonNegative(R2 - R1, s[k1] - s[k1 - 1]);
      }
    }
  }

  /**
   * The estimate depends only on the multiset of values: any rearrangement of the
   * caller's list gives the same result, because the list is sorted first.
   */
  lemma PercentileOrderInvariant(a: seq<real>, b: seq<real>, P: real)
    requires multiset(a) == multiset(b)
    ensures Percentile(a, P) == Percentile(b, P)
  {
    assert |a| == |multiset(a)| == |multiset(b)| == |b|;
    SortedUnique(SortSeq(a), SortSeq(b));
  }

  /**
   * Edge ranks: a rank at most 1 gives the smallest value, a rank at least `N` the largest.
   */
  lemma EdgeRanks(values: seq<real>, P: real)
    requires |values| > 0 && ValidPercentile(P)
    ensures Rank(P, |values|) <= 1.0 ==> Percentile(values, P) == Success(Min(values))
    ensures Rank(P, |values|) >= |values| as real ==> Percentile(values, P) == Success(Max(values))
  {
    SortedEnds(values, SortSeq(values));
  }

  /** A one-element list gives its element for every accepted percentile. */
  lemma SingletonPercentile(x: real, P: real)
    requires ValidPercentile(P)
    ensures Percentile([x], P) == Success(x)
  {
    EdgeRanks([x], P);
  }

  /** A whole rank strictly inside `(1, N)` picks the element at that 1-based position of the sorted list. */
  lemma WholeRank(values: seq<real>, P: real, i: nat)
    requires |values| > 0 && ValidPercentile(P)
    requires 1 < i < |values| && Rank(P, |values|) == i as real
    ensures Percentile(values, P) == Success(SortSeq(values)[i - 1])
  {
    assert Rank(P, |values|).Floor == i;
  }

  /** The 50th percentile of a list of odd length is its middle element once sorted. */
  lemma MedianOfOddLength(values: seq<real>)
    requires |values| % 2 == 1
    ensures Percentile(values, 50.0) == Success(SortSeq(values)[|values| / 2])
  {
    var n := |values|;
    var m := n / 2;
    assert n == 2 * m + 1;
    assert Rank(50.0, n) == (m + 1) as real;
    if m == 0 {
      EdgeRanks(values, 50.0);
      SortedEnds(values, SortSeq(values));
    } else {
      WholeRank(values, 50.0, m + 1);
    }
  }

  /** Over the whole estimator: a higher accepted percentile never gives a smaller result. */
  lemma PercentileMonotone(values: seq<real>, P1: real, P2: real)
    requires |values| > 0
    requires ValidPercentile(P1) && ValidPercentile(P2) && P1 <= P2
    ensures Percentile(values, P1).value <= Percentile(values, P2).value
  {
    AtRankMonotone(SortSeq(values), P1, P2);
  }

  /** The five-value example `s = [10, 20, 30, 40, 50]`: 0 gives 10, 50 gives 30 and 90 (rank exactly 5) gives 50. */
  lemma FiveValuesExample(s: seq<real>)
    requires s == [10.0, 20.0, 30.0, 40.0, 50.0]
    ensures Percentile(s, 0.0) == Success(10.0)
    ensures Percentile(s, 50.0) == Success(30.0)
    ensures Percentile(s, 90.0) == Success(50.0)
  {
    assert SortSeq(s) == s by {
      assert Sorted(s);
      SortedPermutationIsSortSeq(s, s);
    }
    EdgeRanks(s, 0.0);
    EdgeRanks(s, 90.0);
    assert Rank(50.0, 5) == 3.0 && Rank(50.0, 5).Floor == 3;
    assert AtRank(s, 50.0) == 30.0;
  }

  /** The same values in another order, `t = [50, 10, 40, 30, 20]`, give the same 90th percentile. */
  lemma ShuffledFiveValuesExample(t: seq<real>)
    requires t == [50.0, 10.0, 40.0, 30.0, 20.0]
    ensures Percentile(t, 90.0) == Success(50.0)
  {
    var s := [10.0, 20.0, 30.0, 40.0, 50.0];
    assert multiset(t) == multiset(s);
    assert Percentile(s, 90.0) == Success(50.0) by {
      FiveValuesExample(s);
    }
    PercentileOrderInvariant(t, s, 90.0);
  }

  /** Between the two neighbours: `t = [20, 10]` at 50 (rank 1.5 in a list of two) gives 15. */
  lemma InterpolationExample(t: seq<real>)
    requires t == [20.0, 10.0]
    ensures Percentile(t, 50.0) == Success(15.0)
  {
    var s := [10.0, 20.0];
    assert SortSeq(s) == s by {
      assert Sorted(s);
      SortedPermutationIsSortSeq(s, s);
    }
    assert Percentile(s, 50.0) == Success(15.0) by {
      assert Rank(50.0, 2) == 1.5 && Rank(50.0, 2).Floor == 1;
      assert AtRank(s, 50.0) == 15.0;
    }
    assert multiset(t) == multiset(s);
    PercentileOrderInvariant(t, s, 50.0);
  }
}
