/**
 * The statistics `main` reports over the collected sizes (memcached_object_profile.py,
 * lines 112-126), and the whole pipeline from the key listing to the report. Only the
 * values are modelled; the printed text and its number formats are not.
 */
module Aggregation {
  import opened Results
  import opened Sequences
  import opened PercentileEstimator
  import opened KeyFilter

  /** The statistics printed only when at least one key matched. `median` is the value printed under the label "Mean". */
  datatype Stats = Stats(smallest: real, largest: real, average: real, median: real, p90: real, p95: real, p99: real)

  /** Everything the profiler reports: slab count, match count, total size and, for a non-empty match, the statistics. */
  datatype Report = Report(slabs: nat, matches: nat, totalSize: real, stats: Option<Stats>)

  /** Ordering facts about the percentiles of a non-empty list, which a report relies on. */
  lemma PercentileChain(sizes: seq<real>)
    requires |sizes| > 0
    ensures Min(sizes) <= Percentile(sizes, 50.0).value <= Percentile(sizes, 90.0).value
    ensures Percentile(sizes, 90.0).value <= Percentile(sizes, 95.0).value <= Percentile(sizes, 99.0).value <= Max(sizes)
  {
    PercentileMonotone(sizes, 50.0, 90.0);
    PercentileMonotone(sizes, 90.0, 95.0);
    PercentileMonotone(sizes, 95.0, 99.0);
  }

  /** Dividing a lower bound on `total` by `n`. */
  lemma DivideAtLeast(total: real, n: real, lo: real)
    requires n > 0.0 && n * lo <= total
    ensures lo <= total / n
  {
    assert (total / n - lo) * n >= 0.0;
  }

  /** Dividing an upper bound on `total` by `n`. */
  lemma DivideAtMost(total: real, n: real, hi: real)
    requires n > 0.0 && total <= n * hi
    ensures total / n <= hi
  {
    assert (hi - total / n) * n >= 0.0;
  }

  /** A lower bound of every element bounds the average. */
  lemma AverageAtLeast(sizes: seq<real>, lo: real)
    requires |sizes| > 0
    requires forall i :: 0 <= i < |sizes| ==> lo <= sizes[i]
    ensures lo <= Sum(sizes) / (|sizes| as real)
  {
    var total, n := Sum(sizes), |sizes| as real;
    SumAtLeast(sizes, lo);
    DivideAtLeast(total, n, lo);
  }

  /** An upper bound of every element bounds the average. */
  lemma AverageAtMost(sizes: seq<real>, hi: real)
    requires |sizes| > 0
    requires forall i :: 0 <= i < |sizes| ==> sizes[i] <= hi
    ensures Sum(sizes) / (|sizes| as real) <= hi
  {
    var total, n := Sum(sizes), |sizes| as real;
    SumAtMost(sizes, hi);
    DivideAtMost(total, n, hi);
  }

  /** The average of a non-empty list lies between its smallest and largest element. */
  lemma AverageBounds(sizes: seq<real>)
    requires |sizes| > 0
    ensures Min(sizes) <= Sum(sizes) / (|sizes| as real) <= Max(sizes)
  {
    AverageAtLeast(sizes, Min(sizes));
    AverageAtMost(sizes, Max(sizes));
  }

  /**
   * The report over the collected sizes: the match count is their number, the total their
   * sum; only a non-empty list gets statistics, and then the smallest, the percentiles and
   * the largest come in ascending order and the average lies between the extremes, all
   * computed from the same list.
   */
  function ReportOf(slabs: nat, sizes: seq<real>): (rep: Report)
    ensures rep.slabs == slabs && rep.matches == |sizes| && rep.totalSize == Sum(sizes)
    ensures rep.stats.Some? <==> |sizes| > 0
    ensures rep.stats.Some? ==>
      var st := rep.stats.value;
      st.smallest == Min(sizes) && st.largest == Max(sizes) &&
      st.smallest <= st.average <= st.largest &&
      st.smallest <= st.median <= st.p90 <= st.p95 <= st.p99 <= st.largest
  {
    if |sizes| == 0 then Report(slabs, 0, Sum(sizes), None)
    else
      PercentileChain(sizes);
      AverageBounds(sizes);
      var stats := Stats(
        Min(sizes), Max(sizes), Sum(sizes) / (|sizes| as real),
        Percentile(sizes, 50.0).value, Percentile(sizes, 90.0).value,
        Percentile(sizes, 95.0).value, Percentile(sizes, 99.0).value);
      Report(slabs, |sizes|, Sum(sizes), Some(stats))
  }

  /**
   * Lines 112-126 on the collected size list: count, total, and for a non-empty list the
   * extremes, the average and four percentiles. Each percentile call sorts the list in
   * place; the first one leaves it sorted, and sorting does not change the percentiles.
   */
  method Summarize(slabs: nat, sizes: array<real>) returns (rep: Report)
    modifies sizes
    ensures rep == ReportOf(slabs, old(sizes[..]))
    ensures sizes.Length > 0 ==> Sorted(sizes[..]) && multiset(sizes[..]) == multiset(old(sizes[..]))
    ensures sizes.Length == 0 ==> sizes[..] == old(sizes[..])
  {
    ghost var original := sizes[..];
    var matches := sizes.Length;
    var total := Sum(sizes[..]);
    if matches == 0 {
      return Report(slabs, matches, total, None);
    }
    var smallest := Min(sizes[..]);
    var largest := Max(sizes[..]);
    var average := total / (matches as real);
    var median := ValueAtPercentile(sizes, 50.0);
    PercentileOrderInvariant(sizes[..], original, 90.0);
    var p90 := ValueAtPercentile(sizes, 90.0);
    PercentileOrderInvariant(sizes[..], original, 95.0);
    var p95 := ValueAtPercentile(sizes, 95.0);
    PercentileOrderInvariant(sizes[..], original, 99.0);
    var p99 := ValueAtPercentile(sizes, 99.0);
    rep := Report(slabs, matches, total, Some(Stats(smallest, largest, average, median.value, p90.value, p95.value, p99.value)));
  }

  /** The whole run on a key listing: filter, then report; a malformed matched size aborts it. */
  function ProfileOf(slabIds: seq<nat>, details: seq<KeyDetail>, patterns: seq<Pattern>, limit: int): Result<Report, FilterError>
  {
    match Scan(details, patterns, limit, [])
    case Failure(e) => Failure(e)
    case Success(sizes) => Success(ReportOf(|slabIds|, sizes))
  }

  /**
   * `main` after option handling, with the server's answers passed in: the slab count,
   * the key filter loop, then the report over the same list of sizes.
   */
  method Profile(slabIds: seq<nat>, details: seq<KeyDetail>, patterns: seq<Pattern>, limit: int)
    returns (r: Result<Report, FilterError>)
    ensures r == ProfileOf(slabIds, details, patterns, limit)
  {
    var totalSlabs := |slabIds|;
    var collected := CollectSizes(details, patterns, limit);
    if collected.Failure? {
      return Failure(collected.error);
    }
    var list := collected.value;
    var sizes := new real[|list|](i requires 0 <= i < |list| => list[i]);
    assert sizes[..] == list;
    var rep := Summarize(totalSlabs, sizes);
    r := Success(rep);
  }

  /**
   * When no key is matched twice, a positive limit caps the report's match count, and
   * the report is computed from the parsed sizes of the first matching keys, in listing order.
   */
  lemma ProfileRespectsLimit(slabIds: seq<nat>, details: seq<KeyDetail>, patterns: seq<Pattern>, limit: int)
    requires AtMostOneMatch(details, patterns) && limit > 0
    requires ProfileOf(slabIds, details, patterns, limit).Success?
    ensures ProfileOf(slabIds, details, patterns, limit).value.matches <= limit
    ensures ProfileOf(slabIds, details, patterns, limit).value.matches <= |Expanded(details, patterns)|
    ensures var sizes := Scan(details, patterns, limit, []).value;
      MatchSizes(Expanded(details, patterns), sizes) &&
      ProfileOf(slabIds, details, patterns, limit).value == ReportOf(|slabIds|, sizes)
  {
    LimitCapsScan(details, patterns, limit, []);
    ScanCollectsPrefix(details, patterns, limit, []);
    var sizes := Scan(details, patterns, limit, []).value;
    assert sizes[0..] == sizes;
  }

  /** The example listing with `^a:` and no limit: 2 matches, 40 bytes in all, 10 to 30, average 20. */
  lemma ProfileExample(slabIds: seq<nat>)
    ensures var r := ProfileOf(slabIds, ExampleDetails(), [StartsWithA], 0);
      r.Success? && r.value.matches == 2 && r.value.totalSize == 40.0 &&
      r.value.stats.Some? && r.value.stats.value.smallest == 10.0 &&
      r.value.stats.value.largest == 30.0 && r.value.stats.value.average == 20.0
  {
    FilterExample();
    var s := [10.0, 30.0];
    assert Sum(s) == 40.0;
    assert Min(s) == 10.0 && Max(s) == 30.0;
  }
}
