/**
 * Facts about sequences of sizes: sortedness, the sort that `list.sort()` performs,
 * and the `min`, `max` and `sum` built-ins the profiler applies to its size list.
 */
module Sequences {

  /** Ascending order, as left behind by Python's `list.sort()` on numbers. */
  predicate Sorted(s: seq<real>)
  {
    forall i, j :: 0 <= i < j < |s| ==> s[i] <= s[j]
  }

  /** Putting a lower bound of an ascending sequence in front keeps it ascending. */
  lemma SortedCons(y: real, t: seq<real>)
    requires Sorted(t)
    requires forall z :: z in multiset(t) ==> y <= z
    ensures Sorted([y] + t)
  {
    forall i, j | 0 <= i < j < |[y] + t|
      ensures ([y] + t)[i] <= ([y] + t)[j]
    {
      assert t[j - 1] in multiset(t);
      if i > 0 {
        assert ([y] + t)[i] == t[i - 1];
      }
    }
  }

  /** Inserts `x` before the first element not smaller than it. */
  function Insert(x: real, s: seq<real>): seq<real>
  {
    if s == [] then [x]
    else if x <= s[0] then [x] + s
    else [s[0]] + Insert(x, s[1..])
  }

  /** Inserting adds exactly `x` to the elements. */
  lemma {:induction false} InsertPermutation(x: real, s: seq<real>)
    ensures multiset(Insert(x, s)) == multiset(s) + multiset{x}
  {
    if s != [] && x > s[0] {
      InsertPermutation(x, s[1..]);
      assert s == [s[0]] + s[1..];
    }
  }

  /** Inserting into an ascending sequence keeps it ascending. */
  lemma {:induction false} InsertSorted(x: real, s: seq<real>)
    requires Sorted(s)
    ensures Sorted(Insert(x, s))
  {
    if s != [] {
      assert s == [s[0]] + s[1..];
      assert forall z :: z in multiset(s) ==> s[0] <= z by {
        forall z | z in multiset(s) ensures s[0] <= z {
          var i :| 0 <= i < |s| && s[i] == z;
        }
      }
      if x <= s[0] {
        SortedCons(x, s);
      } else {
        InsertSorted(x, s[1..]);
        InsertPermutation(x, s[1..]);
        SortedCons(s[0], Insert(x, s[1..]));
      }
    }
  }

  /** The ascending rearrangement of `s`: the reference meaning of sorting a list. */
  function SortSeq(s: seq<real>): (r: seq<real>)
    ensures Sorted(r)
    ensures multiset(r) == multiset(s)
    ensures |r| == |s|
  {
    if s == [] then []
    else
      var t := SortSeq(s[1..]);
      InsertSorted(s[0], t);
      InsertPermutation(s[0], t);
      assert s == [s[0]] + s[1..];
      assert |Insert(s[0], t)| == |multiset(Insert(s[0], t))|;
      Insert(s[0], t)
  }

  /** Two ascending sequences with the same elements are equal: sorting has exactly one result. */
  lemma {:induction false} SortedUnique(a: seq<real>, b: seq<real>)
    requires Sorted(a) && Sorted(b)
    requires multiset(a) == multiset(b)
    ensures a == b
  {
    assert |a| == |multiset(a)| == |multiset(b)| == |b|;
    if a != [] {
      assert a[0] in multiset(b);
      assert b[0] in multiset(a);
      assert a[0] == b[0];
      assert a == [a[0]] + a[1..];
      assert b == [b[0]] + b[1..];
      assert multiset(a[1..]) == multiset(a) - multiset{a[0]};
      assert multiset(b[1..]) == multiset(b) - multiset{b[0]};
      SortedUnique(a[1..], b[1..]);
    }
  }

  /** Every sorted rearrangement of `s` is `SortSeq(s)`. */
  lemma SortedPermutationIsSortSeq(s: seq<real>, t: seq<real>)
    requires Sorted(t) && multiset(t) == multiset(s)
    ensures t == SortSeq(s)
  {
    SortedUnique(t, SortSeq(s));
  }

  /** Python's `min` over a non-empty list. */
  function Min(s: seq<real>): (m: real)
    requires |s| > 0
    ensures m in s
    ensures forall i :: 0 <= i < |s| ==> m <= s[i]
  {
    if |s| == 1 then s[0]
    else
      var rest := Min(s[1..]);
      assert rest in s;
      if s[0] <= rest then s[0] else rest
  }

  /** Python's `max` over a non-empty list. */
  function Max(s: seq<real>): (m: real)
    requires |s| > 0
    ensures m in s
    ensures forall i :: 0 <= i < |s| ==> s[i] <= m
  {
    if |s| == 1 then s[0]
    else
      var rest := Max(s[1..]);
      assert rest in s;
      if s[0] >= rest then s[0] else rest
  }

  /** Python's `sum`: the exact total of the list (0 for the empty list). */
  function Sum(s: seq<real>): real
  {
    if s == [] then 0.0 else s[0] + Sum(s[1..])
  }

  /** A lower bound of every element bounds the total from below, `|s|` times over. */
  lemma {:induction false} SumAtLeast(s: seq<real>, m: real)
    requires forall i :: 0 <= i < |s| ==> m <= s[i]
    ensures (|s| as real) * m <= Sum(s)
  {
    if s != [] {
      SumAtLeast(s[1..], m);
      assert (|s| as real) * m == m + ((|s| - 1) as real) * m;
    }
  }

  /** An upper bound of every element bounds the total from above, `|s|` times over. */
  lemma {:induction false} SumAtMost(s: seq<real>, m: real)
    requires forall i :: 0 <= i < |s| ==> s[i] <= m
    ensures Sum(s) <= (|s| as real) * m
  {
    if s != [] {
      SumAtMost(s[1..], m);
      assert (|s| as real) * m == m + ((|s| - 1) as real) * m;
    }
  }

  /** The first element of a sorted rearrangement of `s` is `min(s)`, the last is `max(s)`. */
  lemma SortedEnds(s: seq<real>, t: seq<real>)
    requires |s| > 0
    requires Sorted(t) && multiset(t) == multiset(s)
    ensures |t| == |s|
    ensures t[0] == Min(s) && t[|t| - 1] == Max(s)
  {
    assert |t| == |multiset(t)| == |multiset(s)| == |s|;
    assert Min(s) in multiset(t) && Max(s) in multiset(t);
    assert t[0] in multiset(s) && t[|t| - 1] in multiset(s);
  }

  /** Swaps two cells of an array. */
  method Swap(a: array<real>, i: nat, j: nat)
    requires i < a.Length && j < a.Length
    modifies a
    ensures a[i] == old(a[j]) && a[j] == old(a[i])
    ensures forall m :: 0 <= m < a.Length && m != i && m != j ==> a[m] == old(a[m])
    ensures multiset(a[..]) == multiset(old(a[..]))
  {
    a[i], a[j] := a[j], a[i];
  }

  /**
   * Sorts `a` in place, ascending: the effect of `values.sort()`. The sorting algorithm of
   * the Python runtime is not modelled; only its outcome, which is unique.
   */
  method InsertionSort(a: array<real>)
    modifies a
    ensures Sorted(a[..])
    ensures multiset(a[..]) == multiset(old(a[..]))
    ensures a[..] == SortSeq(old(a[..]))
  {
    var i := 0;
    while i < a.Length
      invariant 0 <= i <= a.Length
      invariant forall p, q :: 0 <= p < q < i ==> a[p] <= a[q]
      invariant multiset(a[..]) == multiset(old(a[..]))
    {
      var j := i;
      while 0 < j && a[j] < a[j - 1]
        invariant 0 <= j <= i
        invariant forall p, q :: 0 <= p < q <= i && q != j ==> a[p] <= a[q]
        invariant multiset(a[..]) == multiset(old(a[..]))
      {
        Swap(a, j - 1, j);
        j := j - 1;
      }
      i := i + 1;
    }
    SortedPermutationIsSortSeq(old(a[..]), a[..]);
  }
}
