/**
 * The key filter of `main` (memcached_object_profile.py, lines 98-110): walk the key
 * details in the order the cache server listed them, append the parsed size of a key once
 * for every pattern that matches its name, and stop after the first key at which the
 * number of collected sizes equals a non-zero limit.
 */
module KeyFilter {
  import opened Results
  import opened SizeField

  /** One entry of the server's key listing: name, size field (`"<n> b"`) and idle-time field (`"<n> s"`, unused). */
  datatype KeyDetail = KeyDetail(name: string, size: string, idle: string)

  /** A compiled name pattern, seen only through `search`: whether it matches somewhere in a name. */
  type Pattern = string -> bool

  /** The only way the filter aborts: a matched key whose size field `float` cannot parse. */
  datatype FilterError = MalformedSize(key: KeyDetail)

  /** How many of the patterns match `name`. */
  function MatchCount(name: string, patterns: seq<Pattern>): (c: nat)
    ensures c <= |patterns|
    ensures c == 0 <==> forall i :: 0 <= i < |patterns| ==> !patterns[i](name)
  {
    if patterns == [] then 0
    else
      var last := |patterns| - 1;
      MatchCount(name, patterns[..last]) + (if patterns[last](name) then 1 else 0)
  }

  /** `n` copies of `x`. */
  function Repeat(x: real, n: nat): seq<real>
  {
    seq(n, _ => x)
  }

  /**
   * What one key adds to the size list: its parsed size once per matching pattern;
   * nothing, and no parsing, when no pattern matches.
   */
  function KeySizes(key: KeyDetail, patterns: seq<Pattern>): Result<seq<real>, FilterError>
  {
    var count := MatchCount(key.name, patterns);
    if count == 0 then Success([])
    else match ParseSize(key.size)
      case None => Failure(MalformedSize(key))
      case Some(n) => Success(Repeat(n as real, count))
  }

  /**
   * The scan over the keys still to examine, given the sizes collected so far. The limit
   * test is `limit != 0 and len(sizes) == limit`, made after each key.
   */
  function Scan(details: seq<KeyDetail>, patterns: seq<Pattern>, limit: int, sizes: seq<real>): Result<seq<real>, FilterError>
  {
    if details == [] then Success(sizes)
    else match KeySizes(details[0], patterns)
      case Failure(e) => Failure(e)
      case Success(added) =>
        var sizes' := sizes + added;
        if limit != 0 && |sizes'| == limit then Success(sizes')
        else Scan(details[1..], patterns, limit, sizes')
  }

  /** One more pattern counts one more match exactly when it matches. */
  lemma MatchCountStep(name: string, patterns: seq<Pattern>, j: nat)
    requires j < |patterns|
    ensures MatchCount(name, patterns[..j + 1]) == MatchCount(name, patterns[..j]) + (if patterns[j](name) then 1 else 0)
  {
    assert patterns[..j + 1][..j] == patterns[..j];
  }

  /** Appending one more copy. */
  lemma RepeatStep(x: real, n: nat)
    ensures Repeat(x, n + 1) == Repeat(x, n) + [x]
  {
  }

  /** Examining the first remaining key, which adds `added`. */
  lemma ScanStep(rest: seq<KeyDetail>, patterns: seq<Pattern>, limit: int, sizes: seq<real>, added: seq<real>)
    requires rest != []
    requires KeySizes(rest[0], patterns) == Success(added)
    ensures Scan(rest, patterns, limit, sizes) ==
      if limit != 0 && |sizes + added| == limit then Success(sizes + added)
      else Scan(rest[1..], patterns, limit, sizes + added)
  {
  }

  /**
   * The inner loop over the patterns for one key: append the key's parsed size to `sizes`
   * for every pattern that matches its name, parsing the field at each match.
   */
  method AppendMatches(sizes: seq<real>, key: KeyDetail, patterns: seq<Pattern>)
    returns (r: Result<seq<real>, FilterError>)
    ensures KeySizes(key, patterns).Failure? ==> r == Failure(MalformedSize(key))
    ensures KeySizes(key, patterns).Success? ==> r == Success(sizes + KeySizes(key, patterns).value)
  {
    var out := sizes;
    var j := 0;
    while j < |patterns|
      invariant 0 <= j <= |patterns|
      invariant MatchCount(key.name, patterns[..j]) == 0 ==> out == sizes
      invariant MatchCount(key.name, patterns[..j]) > 0 ==>
        ParseSize(key.size).Some? &&
        out == sizes + Repeat(ParseSize(key.size).value as real, MatchCount(key.name, patterns[..j]))
    {
      MatchCountStep(key.name, patterns, j);
      if patterns[j](key.name) {
        var parsed := ParseSize(key.size);
        if parsed.None? {
          assert MatchCount(key.name, patterns) > 0;
          return Failure(MalformedSize(key));
        }
        RepeatStep(parsed.value as real, MatchCount(key.name, patterns[..j]));
        out := out + [parsed.value as real];
      }
      j := j + 1;
    }
    assert patterns[..|patterns|] == patterns;
    if MatchCount(key.name, patterns) > 0 {
      assert KeySizes(key, patterns) == Success(Repeat(ParseSize(key.size).value as real, MatchCount(key.name, patterns)));
    } else {
      assert out == sizes + [];
    }
    r := Success(out);
  }

  /** The key filter loop, with `limit = 0` meaning no limit. */
  method CollectSizes(details: seq<KeyDetail>, patterns: seq<Pattern>, limit: int)
    returns (r: Result<seq<real>, FilterError>)
    ensures r == Scan(details, patterns, limit, [])
  {
    var sizes: seq<real> := [];
    var i := 0;
    while i < |details|
      invariant 0 <= i <= |details|
      invariant Scan(details, patterns, limit, []) == Scan(details[i..], patterns, limit, sizes)
    {
      var key := details[i];
      assert details[i..][0] == key && details[i..][1..] == details[i + 1..];
      var step := AppendMatches(sizes, key, patterns);
      if step.Failure? {
        return step;
      }
      ScanStep(details[i..], patterns, limit, sizes, KeySizes(key, patterns).value);
      sizes := step.value;
      if limit != 0 && |sizes| == limit {
        break;
      }
      i := i + 1;
    }
    r := Success(sizes);
  }

  /**
   * The reference order of matches: each key, in listing order, repeated once for
   * every pattern that matches its name.
   */
  function Expanded(details: seq<KeyDetail>, patterns: seq<Pattern>): (e: seq<KeyDetail>)
  {
    if details == [] then []
    else seq(MatchCount(details[0].name, patterns), _ => details[0]) + Expanded(details[1..], patterns)
  }

  /** `t` holds, in order, the parsed sizes of the first `|t|` matches of `e`. */
  predicate MatchSizes(e: seq<KeyDetail>, t: seq<real>)
  {
    |t| <= |e| &&
    forall j :: 0 <= j < |t| ==> ParseSize(e[j].size).Some? && t[j] == ParseSize(e[j].size).value as real
  }

  /** Every match in `e` has a size field that parses. */
  predicate AllParse(e: seq<KeyDetail>)
  {
    forall j :: 0 <= j < |e| ==> ParseSize(e[j].size).Some?
  }

  /** What one key adds is its parsed size once per match, in the key's place in `Expanded`. */
  lemma KeySizesMatch(key: KeyDetail, patterns: seq<Pattern>)
    requires KeySizes(key, patterns).Success?
    ensures var copies := seq(MatchCount(key.name, patterns), _ => key);
      |KeySizes(key, patterns).value| == |copies| && MatchSizes(copies, KeySizes(key, patterns).value)
  {
  }

  /** A key's matches can all be read exactly when its own key sizes are computed without error. */
  lemma KeySizesParse(key: KeyDetail, patterns: seq<Pattern>)
    ensures KeySizes(key, patterns).Success? <==> AllParse(seq(MatchCount(key.name, patterns), _ => key))
  {
    var copies := seq(MatchCount(key.name, patterns), _ => key);
    if MatchCount(key.name, patterns) > 0 {
      assert copies[0] == key;
    }
  }

  lemma MatchSizesConcat(e1: seq<KeyDetail>, t1: seq<real>, e2: seq<KeyDetail>, t2: seq<real>)
    requires |t1| == |e1| && MatchSizes(e1, t1) && MatchSizes(e2, t2)
    ensures MatchSizes(e1 + e2, t1 + t2)
  {
    forall j | 0 <= j < |t1 + t2|
      ensures ParseSize((e1 + e2)[j].size).Some? && (t1 + t2)[j] == ParseSize((e1 + e2)[j].size).value as real
    {
      if j >= |t1| {
        assert (e1 + e2)[j] == e2[j - |t1|] && (t1 + t2)[j] == t2[j - |t1|];
      }
    }
  }

  lemma MatchSizesExtend(e1: seq<KeyDetail>, t: seq<real>, e2: seq<KeyDetail>)
    requires MatchSizes(e1, t)
    ensures MatchSizes(e1 + e2, t)
  {
    assert forall j :: 0 <= j < |t| ==> (e1 + e2)[j] == e1[j];
  }

  lemma AllParseConcat(e1: seq<KeyDetail>, e2: seq<KeyDetail>)
    ensures AllParse(e1 + e2) <==> AllParse(e1) && AllParse(e2)
  {
    if AllParse(e1) && AllParse(e2) {
      forall j | 0 <= j < |e1 + e2| ensures ParseSize((e1 + e2)[j].size).Some? {
        if j >= |e1| {
          assert (e1 + e2)[j] == e2[j - |e1|];
        }
      }
    }
    if AllParse(e1 + e2) {
      assert forall j :: 0 <= j < |e1| ==> (e1 + e2)[j] == e1[j];
      assert forall j :: 0 <= j < |e2| ==> (e1 + e2)[|e1| + j] == e2[j];
    }
  }

  /**
   * Whatever the limit, a successful scan extends what was collected with the sizes of
   * the first matches, in listing order: never more than there are matches.
   */
  lemma {:induction false} ScanCollectsPrefix(details: seq<KeyDetail>, patterns: seq<Pattern>, limit: int, acc: seq<real>)
    requires Scan(details, patterns, limit, acc).Success?
    ensures var s := Scan(details, patterns, limit, acc).value;
      |acc| <= |s| && s[..|acc|] == acc && MatchSizes(Expanded(details, patterns), s[|acc|..])
  {
    if details != [] {
      var key := details[0];
      var copies := seq(MatchCount(key.name, patterns), _ => key);
      var added := KeySizes(key, patterns).value;
      KeySizesMatch(key, patterns);
      var e' := Expanded(details[1..], patterns);
      assert Expanded(details, patterns) == copies + e';
      ScanStep(details, patterns, limit, acc, added);
      if limit != 0 && |acc + added| == limit {
        SlicesOfConcat(acc, added, []);
        MatchSizesExtend(copies, added, e');
      } else {
        var s := Scan(details[1..], patterns, limit, acc + added).value;
        ScanCollectsPrefix(details[1..], patterns, limit, acc + added);
        SlicesOfConcat(acc, added, s[|acc + added|..]);
        assert s == acc + added + s[|acc + added|..];
        MatchSizesConcat(copies, added, e', s[|acc + added|..]);
      }
    }
  }

  /** How slices split a three-part concatenation. */
  lemma SlicesOfConcat(a: seq<real>, b: seq<real>, c: seq<real>)
    ensures (a + b + c)[..|a|] == a && (a + b + c)[|a|..] == b + c
    ensures (a + b)[..|a|] == a && (a + b)[|a|..] == b
  {
    assert (a + b + c)[..|a|] == a;
    assert (a + b + c)[|a|..] == b + c;
    assert (a + b)[|a|..] == b;
  }

  /**
   * With no limit (`limit = 0`, or a negative limit, which never equals a length) every
   * key is examined: the scan succeeds exactly when every matched key's size parses.
   */
  lemma {:induction false} UnlimitedScanSucceeds(details: seq<KeyDetail>, patterns: seq<Pattern>, limit: int, acc: seq<real>)
    requires limit <= 0
    ensures Scan(details, patterns, limit, acc).Success? <==> AllParse(Expanded(details, patterns))
  {
    if details != [] {
      var key := details[0];
      var copies := seq(MatchCount(key.name, patterns), _ => key);
      var e' := Expanded(details[1..], patterns);
      assert Expanded(details, patterns) == copies + e';
      AllParseConcat(copies, e');
      KeySizesParse(key, patterns);
      if KeySizes(key, patterns).Success? {
        UnlimitedScanSucceeds(details[1..], patterns, limit, acc + KeySizes(key, patterns).value);
      }
    }
  }

  /** With no limit, a successful scan adds one size for every match. */
  lemma {:induction false} UnlimitedScanTakesAll(details: seq<KeyDetail>, patterns: seq<Pattern>, limit: int, acc: seq<real>)
    requires limit <= 0
    requires Scan(details, patterns, limit, acc).Success?
    ensures |Scan(details, patterns, limit, acc).value| == |acc| + |Expanded(details, patterns)|
  {
    if details != [] {
      var key := details[0];
      KeySizesMatch(key, patterns);
      UnlimitedScanTakesAll(details[1..], patterns, limit, acc + KeySizes(key, patterns).value);
    }
  }

  /** No key is matched by more than one pattern: always so with a single pattern. */
  predicate AtMostOneMatch(details: seq<KeyDetail>, patterns: seq<Pattern>)
  {
    forall i :: 0 <= i < |details| ==> MatchCount(details[i].name, patterns) <= 1
  }

  /**
   * When no key is matched twice, a positive limit is a cap: the scan collects
   * `min(limit, number of matches)` sizes (starting below the limit).
   */
  lemma {:induction false} LimitCapsScan(details: seq<KeyDetail>, patterns: seq<Pattern>, limit: int, acc: seq<real>)
    requires AtMostOneMatch(details, patterns)
    requires 0 <= |acc| < limit
    requires Scan(details, patterns, limit, acc).Success?
    ensures var n := |acc| + |Expanded(details, patterns)|;
      |Scan(details, patterns, limit, acc).value| == if n < limit then n else limit
  {
    if details != [] {
      var key := details[0];
      KeySizesMatch(key, patterns);
      var acc' := acc + KeySizes(key, patterns).value;
      assert MatchCount(key.name, patterns) <= 1;
      if |acc'| != limit {
        assert AtMostOneMatch(details[1..], patterns) by {
          forall i | 0 <= i < |details[1..]| ensures MatchCount(details[1..][i].name, patterns) <= 1 {
            assert details[1..][i] == details[i + 1];
          }
        }
        LimitCapsScan(details[1..], patterns, limit, acc');
      }
    }
  }

  /**
   * Whatever the limit, a successful scan collects either exactly `limit` sizes (it stopped
   * at a key) or one size for every match (it examined every key). With several matches per
   * key the count can jump past the limit, and then the second case applies.
   */
  lemma {:induction false} ScanLength(details: seq<KeyDetail>, patterns: seq<Pattern>, limit: int, acc: seq<real>)
    requires Scan(details, patterns, limit, acc).Success?
    ensures var n := |Scan(details, patterns, limit, acc).value|;
      (limit != 0 && n == limit) || n == |acc| + |Expanded(details, patterns)|
  {
    if details != [] {
      var key := details[0];
      var added := KeySizes(key, patterns).value;
      KeySizesMatch(key, patterns);
      ScanStep(details, patterns, limit, acc, added);
      if !(limit != 0 && |acc + added| == limit) {
        ScanLength(details[1..], patterns, limit, acc + added);
      }
    }
  }

  /**
   * The scan stops at the first key after which the count equals the limit: once a scan of
   * `d1` ends there, the keys after it are never examined, whether or not they would parse.
   */
  lemma {:induction false} LaterKeysIgnored(d1: seq<KeyDetail>, d2: seq<KeyDetail>, patterns: seq<Pattern>, limit: int, acc: seq<real>)
    requires limit != 0 && d1 != []
    requires Scan(d1, patterns, limit, acc).Success? && |Scan(d1, patterns, limit, acc).value| == limit
    ensures Scan(d1 + d2, patterns, limit, acc) == Scan(d1, patterns, limit, acc)
  {
    var key := d1[0];
    var added := KeySizes(key, patterns).value;
    assert (d1 + d2)[0] == key && (d1 + d2)[1..] == d1[1..] + d2;
    ScanStep(d1, patterns, limit, acc, added);
    ScanStep(d1 + d2, patterns, limit, acc, added);
    if !(limit != 0 && |acc + added| == limit) {
      LaterKeysIgnored(d1[1..], d2, patterns, limit, acc + added);
    }
  }

  /**
   * A positive limit that the matches cannot reach changes nothing: the scan is the
   * unlimited one, so it succeeds exactly when every match parses (`UnlimitedScanSucceeds`).
   */
  lemma {:induction false} BelowLimitIsUnlimited(details: seq<KeyDetail>, patterns: seq<Pattern>, limit: int, acc: seq<real>)
    requires limit > 0 && |acc| + |Expanded(details, patterns)| < limit
    ensures Scan(details, patterns, limit, acc) == Scan(details, patterns, 0, acc)
  {
    if details != [] {
      var key := details[0];
      var copies := seq(MatchCount(key.name, patterns), _ => key);
      assert Expanded(details, patterns) == copies + Expanded(details[1..], patterns);
      if KeySizes(key, patterns).Success? {
        var added := KeySizes(key, patterns).value;
        KeySizesMatch(key, patterns);
        ScanStep(details, patterns, limit, acc, added);
        ScanStep(details, patterns, 0, acc, added);
        BelowLimitIsUnlimited(details[1..], patterns, limit, acc + added);
      }
    }
  }

  /**
   * A failed scan stops at the first key, in listing order, whose matches cannot be parsed:
   * it returns that key's position `i`, and every key before it was processed without error.
   * The key it names is listed, some pattern matched it, and its size field does not parse.
   */
  lemma {:induction false} ScanFailureIsMalformedMatch(details: seq<KeyDetail>, patterns: seq<Pattern>, limit: int, acc: seq<real>)
    returns (i: nat)
    requires Scan(details, patterns, limit, acc).Failure?
    ensures i < |details| && details[i] == Scan(details, patterns, limit, acc).error.key
    ensures KeySizes(details[i], patterns).Failure?
    ensures forall m :: 0 <= m < i ==> KeySizes(details[m], patterns).Success?
    ensures var key := Scan(details, patterns, limit, acc).error.key;
      key in details && MatchCount(key.name, patterns) > 0 && ParseSize(key.size).None?
  {
    var key := details[0];
    if KeySizes(key, patterns).Failure? {
      i := 0;
    } else {
      var added := KeySizes(key, patterns).value;
      ScanStep(details, patterns, limit, acc, added);
      var j := ScanFailureIsMalformedMatch(details[1..], patterns, limit, acc + added);
      i := j + 1;
      forall m | 0 <= m < i ensures KeySizes(details[m], patterns).Success? {
        if m > 0 {
          assert details[m] == details[1..][m - 1];
        }
      }
    }
  }

  /** The pattern `^a:` as a predicate on names. */
  function StartsWithA(name: string): bool
  {
    |name| >= 2 && name[..2] == "a:"
  }

  /** A pattern that matches every name, like the default `.*`. */
  function MatchAll(name: string): bool
  {
    true
  }

  /** Three keys; those named `a:...` are 10 and 30 bytes. */
  function ExampleDetails(): seq<KeyDetail>
  {
    [KeyDetail("a:1", "10 b", "0 s"), KeyDetail("b:1", "20 b", "0 s"), KeyDetail("a:2", "30 b", "0 s")]
  }

  /** The example size fields parse to their byte counts; the names match `^a:` or not as expected. */
  lemma ExampleFields()
    ensures ParseSize("10 b") == Some(10) && ParseSize("20 b") == Some(20) && ParseSize("30 b") == Some(30)
    ensures StartsWithA("a:1") && !StartsWithA("b:1") && StartsWithA("a:2")
  {
    assert "b:1"[..2][0] == 'b';
    assert StripByteSuffix("10 b") == "10" && StripByteSuffix("20 b") == "20" && StripByteSuffix("30 b") == "30";
    assert "10"[..1] == "1" && "20"[..1] == "2" && "30"[..1] == "3";
    assert "1"[..0] == "" && "2"[..0] == "" && "3"[..0] == "";
    assert DigitsValue("10") == 10 && DigitsValue("20") == 20 && DigitsValue("30") == 30;
  }

  /** With `^a:`, no limit collects 10 and 30; limit 1 stops after the first match. */
  lemma FilterExample()
    ensures Scan(ExampleDetails(), [StartsWithA], 0, []) == Success([10.0, 30.0])
    ensures Scan(ExampleDetails(), [StartsWithA], 1, []) == Success([10.0])
  {
    var d := ExampleDetails();
    var ps: seq<Pattern> := [StartsWithA];
    ExampleFields();
    assert ps[..0] == [];
    assert MatchCount("a:1", ps) == 1 && MatchCount("b:1", ps) == 0 && MatchCount("a:2", ps) == 1;
    assert Repeat(10.0, 1) == [10.0] && Repeat(30.0, 1) == [30.0];
    assert KeySizes(d[0], ps) == Success([10.0]);
    assert KeySizes(d[1], ps) == Success([]);
    assert KeySizes(d[2], ps) == Success([30.0]);
    assert d[1..][0] == d[1] && d[1..][1..] == [d[2]];
    assert [d[2]][0] == d[2] && [d[2]][1..] == [];
    assert [10.0] + [30.0] == [10.0, 30.0] && [] + [10.0] == [10.0] && [10.0] + [] == [10.0];
    assert Scan([d[2]], ps, 0, [10.0]) == Success([10.0, 30.0]);
    assert Scan(d[1..], ps, 0, [10.0]) == Success([10.0, 30.0]);
  }

  /**
   * The limit can be overshot: a key matched by two patterns adds two sizes, so with
   * limit 1 the count jumps from 0 to 2, never equals the limit, and every key is examined.
   */
  lemma LimitOvershootExample()
    ensures Scan(ExampleDetails(), [MatchAll, StartsWithA], 1, []) == Success([10.0, 10.0, 20.0, 30.0, 30.0])
  {
    var d := ExampleDetails();
    var ps: seq<Pattern> := [MatchAll, StartsWithA];
    ExampleFields();
    assert ps[..1] == [MatchAll] && ps[..1][..0] == [];
    assert MatchCount("a:1", ps) == 2 && MatchCount("b:1", ps) == 1 && MatchCount("a:2", ps) == 2;
    assert Repeat(10.0, 2) == [10.0, 10.0] && Repeat(20.0, 1) == [20.0] && Repeat(30.0, 2) == [30.0, 30.0];
    assert KeySizes(d[0], ps) == Success([10.0, 10.0]);
    assert KeySizes(d[1], ps) == Success([20.0]);
    assert KeySizes(d[2], ps) == Success([30.0, 30.0]);
    assert d[1..][0] == d[1] && d[1..][1..] == [d[2]];
    assert [d[2]][0] == d[2] && [d[2]][1..] == [];
    assert [] + [10.0, 10.0] == [10.0, 10.0] && [10.0, 10.0] + [20.0] == [10.0, 10.0, 20.0];
    assert [10.0, 10.0, 20.0] + [30.0, 30.0] == [10.0, 10.0, 20.0, 30.0, 30.0];
    assert Scan([d[2]], ps, 1, [10.0, 10.0, 20.0]) == Success([10.0, 10.0, 20.0, 30.0, 30.0]);
    assert Scan(d[1..], ps, 1, [10.0, 10.0]) == Success([10.0, 10.0, 20.0, 30.0, 30.0]);
  }

  /** Once the limit is reached, later keys are not parsed: a malformed later match does no harm. */
  lemma LimitSkipsLaterKeysExample()
    ensures Scan([KeyDetail("a:1", "10 b", "0 s"), KeyDetail("a:2", "10 kb", "0 s")], [StartsWithA], 1, []) == Success([10.0])
    ensures Scan([KeyDetail("a:1", "10 b", "0 s"), KeyDetail("a:2", "10 kb", "0 s")], [StartsWithA], 0, []) ==
      Failure(MalformedSize(KeyDetail("a:2", "10 kb", "0 s")))
  {
    var d := [KeyDetail("a:1", "10 b", "0 s"), KeyDetail("a:2", "10 kb", "0 s")];
    var ps: seq<Pattern> := [StartsWithA];
    ExampleFields();
    KilobyteFieldRejected();
    assert ps[..0] == [];
    assert MatchCount("a:1", ps) == 1 && MatchCount("a:2", ps) == 1;
    assert Repeat(10.0, 1) == [10.0];
    assert KeySizes(d[0], ps) == Success([10.0]);
    assert KeySizes(d[1], ps) == Failure(MalformedSize(d[1]));
    assert d[1..] == [d[1]] && [] + [10.0] == [10.0];
    assert Scan(d[1..], ps, 0, [10.0]) == Failure(MalformedSize(d[1]));
  }
}
