/** The nearest-rank percentiles of bench/respcost.go and its twins in
    bench/flipgate.go, bench/live_report.go and bench/arms/toon.go, over reals. */
module Percentiles {
  import opened Sorting

  function AtMostInt(): Order<int> {
    (a: int, b: int) => a <= b
  }

  function Sorted(samples: seq<int>): seq<int> {
    Sort(samples, AtMostInt())
  }

  /** `math.Ceil` */
  function Ceil(x: real): (n: int)
    ensures (n - 1) as real < x <= n as real
  {
    -((-x).Floor)
  }

  /** p per cent of n. */
  function Share(p: real, n: nat): real {
    p / 100.0 * n as real
  }

  /** `percentileInt`; `nearestRankIndex` is the index it reads. */
  function NearestRankIndex(n: nat, p: real): (i: int)
    ensures n > 0 ==> 0 <= i < n
  {
    var rank := Ceil(Share(p, n));
    var low := if rank < 1 then 1 else rank;
    (if low > n then n else low) - 1
  }

  function Percentile(sorted: seq<int>, p: real): int {
    if sorted == [] then 0 else sorted[NearestRankIndex(|sorted|, p)]
  }

  /** How many samples are at most v. */
  function Below(samples: seq<int>, v: int): (n: nat)
    ensures n <= |samples|
  {
    if samples == [] then 0 else (if samples[0] <= v then 1 else 0) + Below(samples[1..], v)
  }

  /** At least p per cent of the samples are at most v. */
  predicate Covers(samples: seq<int>, p: real, v: int) {
    Below(samples, v) as real >= Share(p, |samples|)
  }

  lemma {:induction false} SortedSamples(samples: seq<int>)
    ensures Ordered(Sorted(samples), AtMostInt()) && multiset(Sorted(samples)) == multiset(samples)
    ensures |Sorted(samples)| == |samples| && forall x :: x in Sorted(samples) <==> x in samples
  {
    SortSorts(samples, AtMostInt());
  }

  lemma {:induction false} InsertCounts(x: int, s: seq<int>, v: int)
    ensures Below(Insert(x, s, AtMostInt()), v) == (if x <= v then 1 else 0) + Below(s, v)
  {
    if s == [] {
      assert Insert(x, s, AtMostInt())[1..] == [];
    } else if x <= s[0] {
      assert ([x] + s)[1..] == s;
    } else {
      InsertCounts(x, s[1..], v);
    }
  }

  lemma {:induction false} SortCounts(samples: seq<int>, v: int)
    ensures Below(Sorted(samples), v) == Below(samples, v)
  {
    if samples != [] {
      SortCounts(samples[1..], v);
      InsertCounts(samples[0], Sorted(samples[1..]), v);
    }
  }

  /** In a sorted list more than i samples are at most v exactly when the one at i is. */
  lemma {:induction false} CountsFromTheLeft(s: seq<int>, i: nat, v: int)
    requires Ordered(s, AtMostInt()) && i < |s|
    ensures Below(s, v) > i <==> s[i] <= v
  {
    assert s[0] <= s[i];
    if i > 0 {
      CountsFromTheLeft(s[1..], i - 1, v);
    } else if s[0] > v {
      NoneBelow(s, v);
    }
  }

  lemma {:induction false} NoneBelow(s: seq<int>, v: int)
    requires forall x <- s :: x > v
    ensures Below(s, v) == 0
  {
    if s != [] {
      forall x | x in s[1..] ensures x > v {
        assert x in s;
      }
      assert s[0] in s;
      NoneBelow(s[1..], v);
    }
  }

  /** The percentile is the smallest sample that covers p per cent. */
  lemma {:induction false} PercentileIsTheSmallestCover(samples: seq<int>, p: real, v: int)
    requires samples != [] && 0.0 < p <= 100.0
    ensures Percentile(Sorted(samples), p) in samples
    ensures Covers(samples, p, v) <==> Percentile(Sorted(samples), p) <= v
  {
    ShareIsPositive(p, |samples|);
    hide Share, Below, Sorted;
    var s, n := Sorted(samples), |samples|;
    SortedSamples(samples);
    SortCounts(samples, v);
    var i := NearestRankIndex(n, p);
    assert i == Ceil(Share(p, n)) - 1;
    assert s[i] in s;
    CountsFromTheLeft(s, i, v);
    assert Below(samples, v) as real >= Share(p, n) <==> Below(samples, v) >= i + 1;
  }

  ghost function AtMost(samples: seq<int>, v: int): set<nat> {
    set i: nat | i < |samples| && samples[i] <= v
  }

  /** v is a sample, and the values that at least p per cent of the samples do not
      exceed are v and all above it. */
  ghost predicate IsPercentile(v: int, samples: seq<int>, p: real) {
    v in samples && forall w :: |AtMost(samples, w)| as real * 100.0 >= p * |samples| as real <==> v <= w
  }

  lemma {:induction false} BelowAppend(s: seq<int>, x: int, v: int)
    ensures Below(s + [x], v) == Below(s, v) + if x <= v then 1 else 0
  {
    if s == [] {
      assert s + [x] == [x] && [x][1..] == [];
    } else {
      BelowAppend(s[1..], x, v);
      assert (s + [x])[1..] == s[1..] + [x];
    }
  }

  lemma {:induction false} BelowCounts(samples: seq<int>, v: int)
    ensures Below(samples, v) == |AtMost(samples, v)|
  {
    if samples == [] {
      assert AtMost(samples, v) == {};
    } else {
      hide Below;
      var n, init := |samples| - 1, samples[..|samples| - 1];
      BelowCounts(init, v);
      BelowAppend(init, samples[n], v);
      assert samples == init + [samples[n]];
      AtMostAppend(init, samples[n], v);
      hide AtMost;
    }
  }

  lemma {:induction false} AtMostAppend(s: seq<int>, x: int, v: int)
    ensures |AtMost(s + [x], v)| == |AtMost(s, v)| + if x <= v then 1 else 0
  {
    assert AtMost(s + [x], v) == AtMost(s, v) + if x <= v then {|s|} else {};
  }

  lemma {:induction false} ShareIsPerCent(p: real, n: nat, count: nat)
    ensures count as real >= Share(p, n) <==> count as real * 100.0 >= p * n as real
  {
    assert Share(p, n) * 100.0 == p * n as real;
  }

  lemma {:induction false} PercentileIsMet(samples: seq<int>, p: real)
    requires samples != [] && 0.0 < p <= 100.0
    ensures IsPercentile(Percentile(Sorted(samples), p), samples, p)
  {
    hide Percentile, Sorted, Below, Share, AtMost;
    PercentileIsTheSmallestCover(samples, p, 0);
    forall w ensures |AtMost(samples, w)| as real * 100.0 >= p * |samples| as real <==>
                     Percentile(Sorted(samples), p) <= w {
      PercentileIsTheSmallestCover(samples, p, w);
      BelowCounts(samples, w);
      ShareIsPerCent(p, |samples|, |AtMost(samples, w)|);
    }
  }

  lemma {:induction false} ShareIsPositive(p: real, n: nat)
    requires 0.0 < p <= 100.0 && n > 0
    ensures 0.0 < Share(p, n) <= n as real
  {}

  lemma {:induction false} ShareIsMonotone(p: real, q: real, n: nat)
    requires p <= q
    ensures Share(p, n) <= Share(q, n)
  {}

  lemma {:induction false} IndexIsMonotone(p: real, q: real, n: nat)
    requires p <= q && n > 0
    ensures NearestRankIndex(n, p) <= NearestRankIndex(n, q)
  {
    ShareIsMonotone(p, q, n);
    hide Share;
  }

  /** Percentiles grow with p, whatever p is. */
  lemma {:induction false} PercentileIsMonotone(samples: seq<int>, p: real, q: real)
    requires samples != [] && p <= q
    ensures Percentile(Sorted(samples), p) <= Percentile(Sorted(samples), q)
  {
    SortedSamples(samples);
    IndexIsMonotone(p, q, |samples|);
    hide Share, Sorted, NearestRankIndex;
    var s, i, j := Sorted(samples), NearestRankIndex(|samples|, p), NearestRankIndex(|samples|, q);
    assert i < j ==> s[i] <= s[j];
  }

  /** A percentile is one of the samples and does not depend on their order. */
  lemma {:induction false} PercentileIgnoresOrder(samples: seq<int>, other: seq<int>, p: real)
    requires samples != [] && multiset(samples) == multiset(other)
    ensures Percentile(Sorted(samples), p) == Percentile(Sorted(other), p)
    ensures Percentile(Sorted(samples), p) in samples
  {
    SortedSamples(samples);
    SortIgnoresOrder(samples, other, AtMostInt());
    hide Share, NearestRankIndex;
    var s := Sorted(samples);
    assert s[NearestRankIndex(|s|, p)] in s;
  }

  // ----- the summary -----

  datatype Summary = Summary(p50: int, p95: int, max: int, mean: real)

  function Sum(s: seq<int>): int {
    if s == [] then 0 else Sum(s[..|s| - 1]) + s[|s| - 1]
  }

  predicate IsMean(mean: real, s: seq<int>) {
    mean * |s| as real == Sum(s) as real
  }

  function Ratio(sum: int, n: nat): (r: real)
    requires n > 0
  {
    sum as real / n as real
  }

  lemma {:induction false} RatioIsMean(s: seq<int>)
    requires s != []
    ensures IsMean(Ratio(Sum(s), |s|), s)
  {
    hide Sum;
  }

  /** `SummarizeResponseCost`, on the per-query token totals. */
  method SummarizeResponseCost(perQuery: seq<int>) returns (s: Summary)
    ensures perQuery == [] ==> s == Summary(0, 0, 0, 0.0)
    ensures perQuery != [] ==> s.p50 == Percentile(Sorted(perQuery), 50.0) && IsPercentile(s.p50, perQuery, 50.0)
    ensures perQuery != [] ==> s.p95 == Percentile(Sorted(perQuery), 95.0) && IsPercentile(s.p95, perQuery, 95.0)
    ensures perQuery != [] ==> s.max in perQuery && forall x <- perQuery :: x <= s.max
    ensures perQuery != [] ==> IsMean(s.mean, perQuery)
  {
    hide Percentile, Sorted, Ratio, IsMean, IsPercentile;
    if |perQuery| == 0 {
      return Summary(0, 0, 0, 0.0);
    }
    PercentileIsMet(perQuery, 50.0);
    PercentileIsMet(perQuery, 95.0);
    var totals, sum := [], 0;
    for i := 0 to |perQuery|
      invariant totals == perQuery[..i] && sum == Sum(perQuery[..i])
    {
      assert perQuery[..i + 1][..i] == perQuery[..i];
      totals := totals + [perQuery[i]];
      sum := sum + perQuery[i];
    }
    assert perQuery[..|perQuery|] == perQuery;
    RatioIsMean(perQuery);
    SortedSamples(perQuery);
    totals := Sorted(totals);
    LastIsLargest(totals);
    s := Summary(Percentile(totals, 50.0), Percentile(totals, 95.0), totals[|totals| - 1], Ratio(sum, |totals|));
    assert s.max in totals;
  }

  lemma {:induction false} LastIsLargest(s: seq<int>)
    requires Ordered(s, AtMostInt()) && s != []
    ensures forall x <- s :: s[0] <= x <= s[|s| - 1]
  {
    forall x | x in s ensures s[0] <= x <= s[|s| - 1] {
      var i :| 0 <= i < |s| && s[i] == x;
      assert i < |s| - 1 ==> s[i] <= s[|s| - 1];
      assert 0 < i ==> s[0] <= s[i];
    }
  }

  predicate SumWithin(low: int, high: int, n: nat, sum: int) {
    low * n <= sum <= high * n
  }

  lemma {:induction false} SumIsBounded(s: seq<int>, low: int, high: int)
    requires forall x <- s :: low <= x <= high
    ensures SumWithin(low, high, |s|, Sum(s))
  {
    if s != [] {
      var init := s[..|s| - 1];
      assert s == init + [s[|s| - 1]] && s[|s| - 1] in s;
      forall x | x in init ensures low <= x <= high {
        assert x in s;
      }
      SumIsBounded(init, low, high);
      hide SumWithin;
      OneMoreWithin(low, high, |init|, Sum(init), s[|s| - 1]);
    }
  }

  lemma {:induction false} OneMoreWithin(low: int, high: int, n: nat, sum: int, x: int)
    requires SumWithin(low, high, n, sum) && low <= x <= high
    ensures SumWithin(low, high, n + 1, sum + x)
  {
    assert low * (n + 1) == low * n + low && high * (n + 1) == high * n + high;
  }

  lemma {:induction false} DivideBounds(low: int, high: int, n: nat, mean: real, sum: int)
    requires n > 0 && mean * n as real == sum as real && SumWithin(low, high, n, sum)
    ensures low as real <= mean <= high as real
  {
    var k := n as real;
    assert low as real * k == (low * n) as real && high as real * k == (high * n) as real;
    assert mean < low as real ==> mean * k < low as real * k;
    assert mean > high as real ==> mean * k > high as real * k;
  }

  lemma {:induction false} MeanIsBounded(samples: seq<int>, low: int, high: int, mean: real)
    requires samples != [] && IsMean(mean, samples) && forall x <- samples :: low <= x <= high
    ensures low as real <= mean <= high as real
  {
    hide Sum, SumWithin;
    SumIsBounded(samples, low, high);
    DivideBounds(low, high, |samples|, mean, Sum(samples));
  }

  /** P50 <= P95 <= Max, and the mean lies between the least and the greatest sample. */
  lemma {:induction false} SummaryIsOrdered(perQuery: seq<int>, mean: real)
    requires perQuery != [] && IsMean(mean, perQuery)
    ensures var s := Sorted(perQuery); var n := |s|;
      n > 0 && Percentile(s, 50.0) <= Percentile(s, 95.0) <= s[n - 1] && s[0] as real <= mean <= s[n - 1] as real
  {
    var s := Sorted(perQuery);
    SortedSamples(perQuery);
    PercentileIsMonotone(perQuery, 50.0, 95.0);
    PercentileIgnoresOrder(perQuery, perQuery, 95.0);
    LastIsLargest(s);
    hide *;
    assert forall x <- perQuery :: x in s;
    MeanIsBounded(perQuery, s[0], s[|s| - 1], mean);
  }
}
