# memcached object profile — a verified model

`memcached_object_profile.py` profiles the objects held in a memcached server. It asks the
server for the key listing, keeps the keys whose names match one or more regular expressions
(up to an optional limit) and reports how many there are, their total size, and the smallest,
largest and average size along with the 50th, 90th, 95th and 99th percentiles. The percentiles
come from `valueatpercentile`, a rank-based estimator that interpolates linearly.

This project models two parts of that program and proves properties about them:

- **The percentile estimator** (`PercentileEstimator`, lines 14-38).
  - `ValueAtPercentile` checks the percentile, sorts the caller's array in place and returns
    the value at the rank `R = P/100·N + 0.5`.
  - The result is proved equal to the pure function `Percentile`.
  - About `Percentile` we prove:
    - it stays within the range of the values, and every index it uses is in range;
    - it depends only on the multiset of values;
    - it never decreases as the percentile grows;
    - edge ranks give the minimum or maximum, a whole rank gives the element at that
      position, and a fractional rank lands between its two neighbours.
- **The key filter and report of `main`** (`KeyFilter`, `SizeField`, `Aggregation`, lines
  85 and 98-126).
  - `CollectSizes` is the loop over the key details. It walks the keys in listing order and,
    for every pattern that matches a key's name, appends that key's parsed size (parsing
    strips a trailing `" b"`). It stops after the first key at which the number of sizes
    equals a non-zero limit.
  - The method is proved equal to the reference function `Scan`.
  - About `Scan` we prove:
    - a successful scan collects the sizes of the first matches, in order;
    - with no limit, every match is collected;
    - with a single match per key, a positive limit caps the count;
    - in general a successful scan returns exactly `limit` sizes or one size per match, so
      the count can overshoot the limit;
    - once the count equals the limit, later keys are never examined;
    - a positive limit the matches cannot reach gives the same result as no limit;
    - a failure names the first key, in listing order, that some pattern matched and whose size
      field does not parse.
  - `Summarize` and `Profile` produce the report. They are proved equal to `ReportOf`, whose
    contract puts the statistics in order: smallest ≤ median ≤ p90 ≤ p95 ≤ p99 ≤ largest,
    with the average between smallest and largest.

The reference functions that the methods are proved against, and that the lemmas are about:

- `PercentileEstimator.Rank` is the rank `R = P/100·N + 0.5` (line 22).
- `PercentileEstimator.AtRank` is the four-branch pick on an already sorted list (lines 23-37).
- `PercentileEstimator.Percentile` combines the checks, the sort and `AtRank` (lines 14-38).
- `SizeField.ParseSize` is `float(rmb.sub('', size))` restricted to decimal integers (line 105).
- `KeyFilter.KeySizes` is what one key adds to the list: its parsed size once per matching
  pattern, or an error (lines 101-105).
- `KeyFilter.Scan` is the key loop with its limit test, over the keys still to examine and
  the sizes collected so far (lines 98-110).
- `KeyFilter.Expanded` lists each key once per matching pattern, in listing order. It is the
  reference order of the matches.
- `Sequences.Sum` is `sum(sizes)` (line 113).
- `Aggregation.ReportOf` is the report over a list of sizes (lines 112-126).
- `Aggregation.ProfileOf` is the whole run: slab count, scan, then report (lines 85-126).

Shared pieces:

- `Sequences` holds sortedness, the reference sort `SortSeq`, the in-place `InsertionSort`
  proved to produce it, and `Min`, `Max` and `Sum`.
- `Results` holds the `Option` and `Result` types.

Python exceptions are modelled as `Failure` values:

| Python behaviour | Model |
|---|---|
| `ValueError` for a percentile outside `[0, 100)` | `PercentileOutOfRange` |
| `IndexError` on an empty list | `EmptyValues` |
| `ValueError` from `float()` on a malformed matched size | `MalformedSize(key)` |

Where the program's behaviour differs from how it is described, the model follows the code:

- A size field without the `" b"` suffix parses as well (`" b$"` is only removed when present).
- A key whose name matches several patterns adds its size once per matching pattern.
- The limit test is `len(sizes) == limit`. When one key adds several sizes the count can jump
  past the limit, and then every remaining key is examined.
- A negative limit never equals a length, so it acts like no limit (`limit` is an `int`).
- The statistic printed under the label "Mean" is the 50th percentile, which is the median;
  `Stats.median` holds it.
- An empty list passed to the estimator fails at `values[0]` after being sorted. This is
  the `EmptyValues` error.

## Model

| member | source | states |
|---|---|---|
| Sequences.SortSeq | memcached_object_profile.py:20 | the reference result of `values.sort()`: an ascending rearrangement of the input with the same elements and length |
| Sequences.InsertPermutation | memcached_object_profile.py:20 | inserting one value into a list adds exactly that value to its elements |
| Sequences.InsertSorted | memcached_object_profile.py:20 | inserting into an ascending list keeps it ascending |
| Sequences.InsertionSort | memcached_object_profile.py:20 | sorting in place leaves the array ascending, a permutation of its old contents, and equal to `SortSeq` of them |
| Sequences.SortedUnique | memcached_object_profile.py:20 | two ascending sequences with the same multiset are equal, so the outcome of sorting is unique |
| Sequences.SortedPermutationIsSortSeq | memcached_object_profile.py:20 | every sorted permutation of a list is `SortSeq` of it |
| Sequences.SortedEnds | memcached_object_profile.py:20-28 | in the sorted rearrangement the first element is `min(values)` and the last is `max(values)` |
| Sequences.Min | memcached_object_profile.py:120 | `min(sizes)` is an element of the list and no element is smaller |
| Sequences.Max | memcached_object_profile.py:121 | `max(sizes)` is an element of the list and no element is larger |
| Sequences.SumAtLeast | memcached_object_profile.py:113 | a lower bound of every element, times the length, bounds `sum(sizes)` from below |
| Sequences.SumAtMost | memcached_object_profile.py:113 | an upper bound of every element, times the length, bounds `sum(sizes)` from above |
| PercentileEstimator.Percentile | memcached_object_profile.py:14-38 | a percentile outside `[0, 100)` is rejected whatever the list; otherwise an empty list is rejected; otherwise the result lies between the list's minimum and maximum |
| PercentileEstimator.ValueAtPercentile | memcached_object_profile.py:14-38 | the result equals `Percentile` of the caller's original list; for a valid `P` the list is left sorted and a permutation of what it held; for an invalid `P` it is left untouched |
| PercentileEstimator.InterpolationWeight | memcached_object_profile.py:35-37 | the interpolation weight `N·(P−Pk)/100` with `Pk = 100/N·(k−0.5)` is exactly `R − k` |
| PercentileEstimator.AtRankInterpolates | memcached_object_profile.py:29-37 | for `1 < R < N`, `k = int(R)` satisfies `1 ≤ k ≤ N−1`, so both indices are in range, and the result is the interpolation with weight `R − k ∈ [0, 1)` between positions `k` and `k+1` |
| PercentileEstimator.InterpolationBetweenNeighbours | memcached_object_profile.py:33-37 | on a sorted list an interpolated value lies between `values[k-1]` and `values[k]` |
| PercentileEstimator.AtRankBounds | memcached_object_profile.py:21-37 | on a sorted non-empty list the value at any percentile lies between the first and the last element |
| PercentileEstimator.RankMonotone | memcached_object_profile.py:22 | the rank `R` grows with `P` |
| PercentileEstimator.AtRankMonotone | memcached_object_profile.py:22-37 | on a sorted list a higher percentile never gives a smaller value, across all four branches |
| PercentileEstimator.PercentileOrderInvariant | memcached_object_profile.py:20 | the result depends only on the multiset of values: any rearrangement of the list gives the same result |
| PercentileEstimator.EdgeRanks | memcached_object_profile.py:23-28 | `R ≤ 1` gives the minimum and `R ≥ N` gives the maximum |
| PercentileEstimator.SingletonPercentile | memcached_object_profile.py:21-28 | a one-element list gives its element for every valid `P` |
| PercentileEstimator.WholeRank | memcached_object_profile.py:29-32 | a whole rank `1 < R < N` gives the element at 1-based position `R` of the sorted list |
| PercentileEstimator.MedianOfOddLength | memcached_object_profile.py:29-32 | `P = 50` on an odd-length list gives its exact middle element once sorted |
| PercentileEstimator.PercentileMonotone | memcached_object_profile.py:14-38 | for a non-empty list, a higher valid percentile never gives a smaller result |
| PercentileEstimator.FiveValuesExample | memcached_object_profile.py:22-32 | on `[10,20,30,40,50]`, `P = 0` gives 10, `P = 50` gives 30 and `P = 90` gives 50 |
| PercentileEstimator.ShuffledFiveValuesExample | memcached_object_profile.py:20 | the same five values in shuffled order give the same 90th percentile, 50 |
| PercentileEstimator.InterpolationExample | memcached_object_profile.py:33-37 | `[20, 10]` at `P = 50` (rank 1.5) interpolates to 15 |
| SizeField.StripByteSuffix | memcached_object_profile.py:105 | a trailing `" b"` is removed and nothing else; a field without it is unchanged |
| SizeField.DecimalString | memcached_object_profile.py:99-105 | the digits of the server's `<n> b` size format: the decimal numeral of a size is a non-empty run of digits |
| SizeField.DecimalRoundTrip | memcached_object_profile.py:105 | parsing the decimal numeral of `n` gives `n` |
| SizeField.SizeRoundTrip | memcached_object_profile.py:105 | a size field written as `"<n> b"` parses to `n` |
| SizeField.ParseSizeAccepts | memcached_object_profile.py:105 | a field parses to `n` exactly when it is a numeral of value `n`, optionally followed by `" b"` |
| SizeField.KilobyteFieldRejected | memcached_object_profile.py:105 | `"10 kb"` does not parse, rather than yielding 10 |
| SizeField.BareNumeralAccepted | memcached_object_profile.py:105 | a bare `"10"` parses to 10: the suffix is optional |
| KeyFilter.MatchCount | memcached_object_profile.py:101-102 | the number of matching patterns is at most the number of patterns, and it is zero exactly when no pattern matches the name |
| KeyFilter.AppendMatches | memcached_object_profile.py:101-107 | the pattern loop appends the key's parsed size once per matching pattern, or fails with `MalformedSize` when a pattern matches and the field does not parse |
| KeyFilter.CollectSizes | memcached_object_profile.py:98-110 | the key loop, including its break on the limit, yields exactly `Scan` of the whole listing from an empty size list |
| KeyFilter.KeySizesMatch | memcached_object_profile.py:101-105 | a key adds one size per matching pattern, each the key's parsed size |
| KeyFilter.KeySizesParse | memcached_object_profile.py:101-105 | a key is processed without error exactly when each of its matches has a size field that parses |
| KeyFilter.ScanCollectsPrefix | memcached_object_profile.py:98-110 | a successful scan extends the collected sizes, in listing order, with the parsed sizes of the first matches, never more than there are matches |
| KeyFilter.UnlimitedScanSucceeds | memcached_object_profile.py:98-110 | with limit 0 (or negative) every key is examined: the scan succeeds exactly when every match's size field parses |
| KeyFilter.UnlimitedScanTakesAll | memcached_object_profile.py:98-110 | with no limit, a successful scan adds one size for every match |
| KeyFilter.LimitCapsScan | memcached_object_profile.py:108-110 | when no key matches twice, a positive limit makes the scan collect `min(limit, matches)` sizes |
| KeyFilter.ScanLength | memcached_object_profile.py:98-110 | a successful scan returns exactly `limit` sizes (it stopped at a key) or one size per match (it examined every key); with several matches per key the count can pass the limit, and then the second case holds |
| KeyFilter.LaterKeysIgnored | memcached_object_profile.py:108-110 | once a scan of a prefix of the listing ends with exactly `limit` sizes, appending further keys changes nothing: they are neither examined nor parsed |
| KeyFilter.BelowLimitIsUnlimited | memcached_object_profile.py:108-110 | a positive limit larger than the number of matches gives the same result as no limit |
| KeyFilter.ScanFailureIsMalformedMatch | memcached_object_profile.py:98-105 | a failed scan stops at the first key, in listing order, whose size cannot be parsed: it returns that key's position, every earlier key was processed without error, and the named key is listed, matched by some pattern, and has a size field that does not parse |
| KeyFilter.FilterExample | memcached_object_profile.py:98-110 | pattern `^a:` over `a:1/10 b`, `b:1/20 b`, `a:2/30 b` gives `[10, 30]`, or `[10]` with limit 1 |
| KeyFilter.LimitOvershootExample | memcached_object_profile.py:101-110 | with patterns `.*` and `^a:` and limit 1 the count jumps to 2, the limit is never hit, and all five matches are collected |
| KeyFilter.LimitSkipsLaterKeysExample | memcached_object_profile.py:108-110 | once the limit is reached later keys are not parsed: a malformed later size fails only without the limit |
| Aggregation.PercentileChain | memcached_object_profile.py:120-126 | smallest ≤ 50th ≤ 90th ≤ 95th ≤ 99th percentile ≤ largest |
| Aggregation.AverageBounds | memcached_object_profile.py:120-122 | the average `total_size/matches` lies between the smallest and largest size |
| Aggregation.ReportOf | memcached_object_profile.py:112-126 | the match count is the number of sizes and the total is their sum; statistics exist exactly when there is a match, and then smallest = min, largest = max, the average lies between them and the percentiles are in ascending order |
| Aggregation.Summarize | memcached_object_profile.py:112-126 | the computed report equals `ReportOf` of the original sizes, even though each percentile call re-sorts the array in place; the array ends sorted and a permutation of its contents (untouched when empty) |
| Aggregation.Profile | memcached_object_profile.py:85-126 | slab count, filter loop and report together equal `ProfileOf` of the server's answers |
| Aggregation.ProfileRespectsLimit | memcached_object_profile.py:108-126 | when no key matches twice, a positive limit caps the reported match count, which never exceeds the number of matches; the report is `ReportOf` the parsed sizes of the first matches, in listing order |
| Aggregation.ProfileExample | memcached_object_profile.py:112-122 | the example listing with `^a:` reports 2 matches, total 40, smallest 10, largest 30, average 20 |

## Left out

- Option parsing, defaults, usage and help text (lines 43-69) are left out because they are command-line plumbing. The limit and the pattern list are parameters; the default limit of 100 and the default pattern `.*` are not modelled.
- The `MemcachedStats` client (lines 82-91) is network I/O through a library that is not part of this model. Its answers, the slab id list and the key details, are parameters of `Aggregation.Profile`.
- The regular-expression engine (`re.compile` and `p.search`, lines 73-77 and 102) is an external library. A compiled pattern is an uninterpreted predicate on names (`KeyFilter.Pattern`).
- All printing, the `%d`/`%.2f` formatting and verbose logging (lines 69, 80, 88, 93-97, 106-107, 114-126) are output only. The report holds the values before formatting; the `%.2f` rounding of the average and the percentiles is not modelled.
- The `isinstance` checks (lines 16-18) always pass in the model, because Dafny's types already guarantee a list and a number.
- Python's sort algorithm is not modelled; only its outcome is (`SortSeq`, reached by `InsertionSort`).
- PercentileEstimator.Percentile: arithmetic is exact (`real`) and does not model IEEE-754 rounding of Python floats.
- The whole model uses exact arithmetic. Python uses binary floats in `float()` at line 105 (sizes above 2^53 are rounded), in `sum(sizes)` at line 113, in `total_size/matches` at line 122 and in the percentile arithmetic. `ParseSize` works on `nat`, and `Sum`, `ReportOf` and `Percentile` work on exact `real`.
- SizeField.ParseSize: only unsigned decimal integers are accepted. Python's `float()` also accepts signs, fractions, exponents, `inf`/`nan` and surrounding whitespace, which are not modelled.
- SizeField.StripByteSuffix: `$` in ` b$` also matches before a final newline, so `"10 b\n"` would lose its `" b"` in Python. The model strips only a `" b"` at the very end.
