/** The ranking metrics of bench/metrics.go. Scores are exact reals, and
    1/log2(i+2) is any positive, strictly decreasing discount of the position i. */
module RetrievalMetrics {
  import opened Strings
  import Sorting

  datatype Label = Label(toolId: string, relevance: int)

  type Discount = nat -> real

  ghost predicate IsDiscount(d: Discount) {
    forall i: nat, j: nat | i < j :: 0.0 < d(j) < d(i)
  }

  // ----- specification -----

  /** The relevance of the first label for id, or 0. */
  function RelevanceOf(id: string, labels: seq<Label>): int {
    if labels == [] then 0
    else if labels[0].toolId == id then labels[0].relevance
    else RelevanceOf(id, labels[1..])
  }

  function Gains(ranked: seq<string>, labels: seq<Label>): (g: seq<int>)
    ensures |g| == |ranked|
  {
    if ranked == [] then []
    else Gains(ranked[..|ranked| - 1], labels) + [RelevanceOf(ranked[|ranked| - 1], labels)]
  }

  function Relevances(labels: seq<Label>): seq<int> {
    if labels == [] then []
    else (if labels[0].relevance >= 1 then [labels[0].relevance] else []) + Relevances(labels[1..])
  }

  /** The first k entries, all of them when there are fewer; k may be negative. */
  function Top<T>(s: seq<T>, k: int): seq<T> {
    if k <= 0 then [] else if k < |s| then s[..k] else s
  }

  function Sum(s: seq<int>): int {
    if s == [] then 0 else Sum(s[..|s| - 1]) + s[|s| - 1]
  }

  function Positives(s: seq<int>): seq<int> {
    if s == [] then []
    else Positives(s[..|s| - 1]) + if s[|s| - 1] >= 1 then [s[|s| - 1]] else []
  }

  function Dcg(gains: seq<int>, d: Discount): real {
    if gains == [] then 0.0
    else Dcg(gains[..|gains| - 1], d) + Times(gains[|gains| - 1] as real, d(|gains| - 1))
  }

  function Times(x: real, weight: real): real {
    x * weight
  }

  ghost predicate Descending(s: seq<int>) {
    forall i, j :: 0 <= i < j < |s| ==> s[i] >= s[j]
  }

  function AtLeast(): Sorting.Order<int> {
    (a: int, b: int) => a >= b
  }

  function SortDescending(s: seq<int>): seq<int> {
    Sorting.Sort(s, AtLeast())
  }

  function Ideal(labels: seq<Label>, k: int): seq<int> {
    Top(SortDescending(Relevances(labels)), k)
  }

  function Ndcg(ranked: seq<string>, labels: seq<Label>, k: int, d: Discount): real {
    var idcg := Dcg(Ideal(labels, k), d);
    if idcg == 0.0 then 0.0 else Dcg(Top(Gains(ranked, labels), k), d) / idcg
  }

  function Recall(ranked: seq<string>, labels: seq<Label>, k: int): real {
    var total := |Relevances(labels)|;
    if total == 0 then 0.0 else |Positives(Top(Gains(ranked, labels), k))| as real / total as real
  }

  /** The sum, over the positive gains, of the precision at their rank. */
  function PrecisionSum(gains: seq<int>): real {
    if gains == [] then 0.0
    else PrecisionSum(gains[..|gains| - 1]) +
         if gains[|gains| - 1] >= 1 then |Positives(gains)| as real / |gains| as real else 0.0
  }

  function AveragePrecision(ranked: seq<string>, labels: seq<Label>): real {
    var total := |Relevances(labels)|;
    if total == 0 then 0.0 else PrecisionSum(Gains(ranked, labels)) / total as real
  }

  /** The position of the first relevant result, or the length. */
  function FirstHit(ranked: seq<string>, labels: seq<Label>): (i: nat)
    ensures i <= |ranked| && forall j | 0 <= j < i :: RelevanceOf(ranked[j], labels) < 1
    ensures i < |ranked| ==> RelevanceOf(ranked[i], labels) >= 1
  {
    if ranked == [] || RelevanceOf(ranked[0], labels) >= 1 then 0 else 1 + FirstHit(ranked[1..], labels)
  }

  function ReciprocalRank(ranked: seq<string>, labels: seq<Label>): real {
    var i := FirstHit(ranked, labels);
    if i == |ranked| then 0.0 else 1.0 / (i + 1) as real
  }

  // ----- the gains of a ranking are some of the labels' relevances -----

  lemma {:induction false} RelevanceIsOneLabel(id: string, labels: seq<Label>) returns (rest: seq<Label>)
    ensures RelevanceOf(id, labels) >= 1 ==>
      multiset(Relevances(labels)) == multiset{RelevanceOf(id, labels)} + multiset(Relevances(rest))
    ensures RelevanceOf(id, labels) < 1 ==> rest == labels
    ensures forall other :: other != id ==> RelevanceOf(other, rest) == RelevanceOf(other, labels)
  {
    if labels == [] {
      rest := labels;
    } else if labels[0].toolId == id {
      rest := if labels[0].relevance >= 1 then labels[1..] else labels;
    } else {
      var tail := RelevanceIsOneLabel(id, labels[1..]);
      if RelevanceOf(id, labels) < 1 {
        rest := labels;
      } else {
        rest := [labels[0]] + tail;
        assert rest[1..] == tail;
      }
    }
  }

  lemma {:induction false} GainsComeFromLabels(ranked: seq<string>, labels: seq<Label>)
    requires NoRepeats(ranked)
    ensures multiset(Positives(Gains(ranked, labels))) <= multiset(Relevances(labels))
  {
    if ranked != [] {
      var n := |ranked| - 1;
      var id, before := ranked[n], ranked[..n];
      var rest := RelevanceIsOneLabel(id, labels);
      GainsComeFromLabels(before, rest);
      SameGains(before, labels, rest);
      assert Gains(ranked, labels)[..n] == Gains(before, labels);
    }
  }

  lemma {:induction false} SameGains(ranked: seq<string>, labels: seq<Label>, others: seq<Label>)
    requires forall id <- ranked :: RelevanceOf(id, labels) == RelevanceOf(id, others)
    ensures Gains(ranked, labels) == Gains(ranked, others)
  {
    if ranked != [] {
      SameGains(ranked[..|ranked| - 1], labels, others);
      assert ranked[|ranked| - 1] in ranked;
    }
  }

  // ----- rearrangement -----

  lemma {:induction false} SumAppend(a: seq<int>, b: seq<int>)
    ensures Sum(a + b) == Sum(a) + Sum(b)
  {
    if b == [] {
      assert a + b == a;
    } else {
      SumAppend(a, b[..|b| - 1]);
      assert (a + b)[..|a + b| - 1] == a + b[..|b| - 1];
    }
  }

  lemma {:induction false} PositivesAppend(a: seq<int>, b: seq<int>)
    ensures Positives(a + b) == Positives(a) + Positives(b)
  {
    if b == [] {
      assert a + b == a;
    } else {
      PositivesAppend(a, b[..|b| - 1]);
      assert (a + b)[..|a + b| - 1] == a + b[..|b| - 1];
    }
  }

  lemma {:induction false} SumIsMonotone(a: seq<int>, b: seq<int>)
    requires |a| == |b| && forall i :: 0 <= i < |a| ==> a[i] <= b[i]
    ensures Sum(a) <= Sum(b)
  {
    if a != [] {
      SumIsMonotone(a[..|a| - 1], b[..|b| - 1]);
    }
  }

  lemma {:induction false} SumOfPositives(s: seq<int>)
    ensures Sum(s) <= Sum(Positives(s)) && |Positives(s)| <= |s|
    ensures forall x <- Positives(s) :: x >= 1
  {
    if s != [] {
      SumOfPositives(s[..|s| - 1]);
      SumAppend(Positives(s[..|s| - 1]), if s[|s| - 1] >= 1 then [s[|s| - 1]] else []);
    }
  }

  lemma {:induction false} RemoveAt(p: seq<int>, i: nat)
    requires i < |p|
    ensures multiset(p) == multiset(p[..i] + p[i + 1..]) + multiset{p[i]}
  {
    assert p == p[..i] + [p[i]] + p[i + 1..];
  }

  lemma {:induction false} CancelOne(p: multiset<int>, q: multiset<int>, a: int)
    requires p + multiset{a} <= multiset{a} + q
    ensures p <= q
  {
    forall e ensures p[e] <= q[e] {
      assert (p + multiset{a})[e] <= (multiset{a} + q)[e];
    }
  }

  lemma {:induction false} SumWithout(p: seq<int>, i: nat)
    requires i < |p|
    ensures Sum(p) == Sum(p[..i] + p[i + 1..]) + p[i]
  {
    SumAppend(p[..i + 1], p[i + 1..]);
    assert p == p[..i + 1] + p[i + 1..];
    assert p[..i + 1][..i] == p[..i];
    SumAppend(p[..i], p[i + 1..]);
  }

  lemma {:induction false} SumFirst(s: seq<int>, n: nat)
    requires 0 < n <= |s|
    ensures Sum(s[..n]) == s[0] + Sum(s[1..][..n - 1])
  {
    assert s[..n] == [s[0]] + s[1..][..n - 1];
    SumAppend([s[0]], s[1..][..n - 1]);
  }

  /** No selection from a descending sequence has a larger sum than its first elements. */
  lemma {:induction false} FirstAreLargest(p: seq<int>, s: seq<int>)
    requires Descending(s) && multiset(p) <= multiset(s)
    ensures |p| <= |s| && Sum(p) <= Sum(s[..|p|])
    decreases s
  {
    if p != [] {
      assert p[0] in multiset(s);
      if s[0] in p {
        var rest := TakeOut(p, s);
        FirstAreLargest(rest, s[1..]);
        SumFirst(s, |p|);
      } else {
        SkipFirst(p, s);
        FirstAreLargest(p, s[1..]);
        SumIsMonotone(s[1..][..|p|], s[..|p|]);
      }
    }
  }

  lemma {:induction false} SkipFirst(p: seq<int>, s: seq<int>)
    requires s != [] && s[0] !in p && multiset(p) <= multiset(s)
    ensures multiset(p) <= multiset(s[1..])
  {
    assert s == [s[0]] + s[1..];
    assert multiset(p)[s[0]] == 0;
  }

  lemma {:induction false} TakeOut(p: seq<int>, s: seq<int>) returns (rest: seq<int>)
    requires s != [] && s[0] in p && multiset(p) <= multiset(s)
    ensures |rest| == |p| - 1 && Sum(p) == Sum(rest) + s[0] && multiset(rest) <= multiset(s[1..])
  {
    var i :| 0 <= i < |p| && p[i] == s[0];
    rest := p[..i] + p[i + 1..];
    RemoveAt(p, i);
    SumWithout(p, i);
    assert s == [s[0]] + s[1..];
    CancelOne(multiset(rest), multiset(s[1..]), s[0]);
  }

  function Zeros(n: nat): seq<int> {
    seq(n, _ => 0)
  }

  /** The first k entries, with zeros after the last one. */
  function Padded(s: seq<int>, k: nat): (r: seq<int>)
    ensures |r| == k
  {
    Top(s, k) + Zeros(k - |Top(s, k)|)
  }

  lemma {:induction false} SumOfPrefix(s: seq<int>, n: nat)
    requires n <= |s| && forall i :: 0 <= i < |s| ==> s[i] >= 0
    ensures Sum(s[..n]) <= Sum(s)
  {
    if n == |s| {
      assert s[..n] == s;
    } else {
      SumOfPrefix(s[..|s| - 1], n);
      assert s[..|s| - 1][..n] == s[..n];
    }
  }

  lemma {:induction false} PaddedExtends(sorted: seq<int>, k: nat, n: nat, m: nat)
    requires n <= m <= k && n <= |sorted| && forall i :: 0 <= i < |sorted| ==> sorted[i] >= 1
    ensures Sum(sorted[..n]) <= Sum(Padded(sorted, k)[..m])
  {
    var ideal := Padded(sorted, k)[..m];
    assert sorted[..n] == ideal[..n];
    SumOfPrefix(ideal, n);
  }

  lemma {:induction false} SelectionBelowIdeal(x: seq<int>, sorted: seq<int>, k: nat)
    requires Descending(sorted) && (forall i :: 0 <= i < |sorted| ==> sorted[i] >= 1)
    requires multiset(Positives(x)) <= multiset(sorted) && |x| <= k
    ensures Sum(x) <= Sum(Padded(sorted, k)[..|x|])
  {
    SumOfPositives(x);
    FirstAreLargest(Positives(x), sorted);
    PaddedExtends(sorted, k, |Positives(x)|, |x|);
  }

  /** Prefix for prefix, a ranking gains at most what the ideal order gains. */
  lemma {:induction false} IdealDominates(ranked: seq<string>, labels: seq<Label>, k: nat, m: nat)
    requires NoRepeats(ranked) && m <= k
    ensures Sum(Padded(Gains(ranked, labels), k)[..m])
         <= Sum(Padded(SortDescending(Relevances(labels)), k)[..m])
  {
    var sorted := SortDescending(Relevances(labels));
    SortIsSorted(Relevances(labels));
    RelevancesArePositive(labels);
    assert forall i :: 0 <= i < |sorted| ==> sorted[i] in multiset(sorted);
    GainsComeFromLabels(ranked, labels);
    PositivesArePrefix(Gains(ranked, labels), k, m);
    SelectionBelowIdeal(Padded(Gains(ranked, labels), k)[..m], sorted, k);
  }

  lemma {:induction false} RelevancesArePositive(labels: seq<Label>)
    ensures forall x <- multiset(Relevances(labels)) :: x >= 1
  {
    if labels != [] {
      RelevancesArePositive(labels[1..]);
    }
  }

  lemma {:induction false} SumOfZeros(n: nat)
    ensures Sum(Zeros(n)) == 0 && Positives(Zeros(n)) == []
  {
    if n > 0 {
      assert Zeros(n)[..n - 1] == Zeros(n - 1);
      SumOfZeros(n - 1);
    }
  }

  lemma {:induction false} PositivesArePrefix(gains: seq<int>, k: nat, m: nat)
    requires m <= k
    ensures multiset(Positives(Padded(gains, k)[..m])) <= multiset(Positives(gains))
  {
    var g, top := Padded(gains, k), Top(gains, k);
    PrefixOfPositives(g, m);
    PositivesAppend(top, Zeros(k - |top|));
    SumOfZeros(k - |top|);
    assert Positives(g) == Positives(top);
    assert top == gains[..|top|];
    PrefixOfPositives(gains, |top|);
  }

  lemma {:induction false} PrefixOfPositives(s: seq<int>, m: nat)
    requires m <= |s|
    ensures multiset(Positives(s[..m])) <= multiset(Positives(s))
  {
    assert s == s[..m] + s[m..];
    PositivesAppend(s[..m], s[m..]);
  }

  /** The step of summation by parts: x and y are the gaps between the prefix
      sums before and after the elements g and h, u > v > 0 their discounts,
      dg and dh the discounted sums before them. */
  lemma {:induction false} PartsStep(dg: real, dh: real, g: real, h: real, x: real, y: real, u: real, v: real)
    requires u > v > 0.0 && x >= 0.0 && y >= 0.0 && y - x == h - g && dh - dg >= Times(x, u)
    ensures (dh + Times(h, v)) - (dg + Times(g, v)) >= Times(y, v) >= 0.0
    ensures dh + Times(h, v) == dg + Times(g, v) ==> h == g && dh == dg
  {
    var total := (dh + h * v) - (dg + g * v);
    assert total == (dh - dg) + (y - x) * v by { assert h * v - g * v == (h - g) * v; }
    assert total >= x * (u - v) + y * v by { assert (y - x) * v == y * v - x * v; }
    assert x * (u - v) >= 0.0 && y * v >= 0.0;
    if total == 0.0 {
      assert x * (u - v) == 0.0 && y * v == 0.0;
      assert x == 0.0 && y == 0.0;
    }
  }

  function Lead(a: seq<int>, b: seq<int>): real {
    (Sum(b) - Sum(a)) as real
  }

  /** Every prefix of a sums to at most the same prefix of b. */
  ghost predicate Dominated(a: seq<int>, b: seq<int>)
    requires |a| == |b|
  {
    forall m :: 0 <= m <= |a| ==> Sum(a[..m]) <= Sum(b[..m])
  }

  lemma {:induction false} DominatedParts(a: seq<int>, b: seq<int>)
    requires |a| == |b| > 0 && Dominated(a, b)
    ensures Dominated(a[..|a| - 1], b[..|a| - 1])
    ensures Lead(a, b) >= 0.0 && Lead(a[..|a| - 1], b[..|a| - 1]) >= 0.0
  {
    var n := |a| - 1;
    forall m | 0 <= m <= n ensures Sum(a[..n][..m]) <= Sum(b[..n][..m]) {
      assert a[..n][..m] == a[..m] && b[..n][..m] == b[..m];
    }
    assert a[..|a|] == a && b[..|b|] == b;
    assert a[..n][..n] == a[..n] && b[..n][..n] == b[..n];
  }

  /** Summation by parts: dominated prefix sums give a dominated discounted sum,
      and the discounted sums agree only for equal sequences. */
  lemma {:induction false} DominatedDcg(a: seq<int>, b: seq<int>, d: Discount)
    requires |a| == |b| && IsDiscount(d) && Dominated(a, b)
    ensures a != [] ==> Dcg(b, d) - Dcg(a, d) >= Times(Lead(a, b), d(|a| - 1))
    ensures Dcg(a, d) <= Dcg(b, d)
    ensures Dcg(a, d) == Dcg(b, d) ==> a == b
  {
    if a != [] {
      var n := |a| - 1;
      DominatedParts(a, b);
      DominatedDcg(a[..n], b[..n], d);
      assert d(n + 1) < d(n) && (n > 0 ==> d(n) < d(n - 1));
      DominatedStep(a, b, d, Lead(a[..n], b[..n]), if n == 0 then d(n) + 1.0 else d(n - 1));
      assert a == a[..n] + [a[n]] && b == b[..n] + [b[n]];
    }
  }

  lemma {:induction false} LastTerm(a: seq<int>, d: Discount)
    requires a != []
    ensures Dcg(a, d) == Dcg(a[..|a| - 1], d) + Times(a[|a| - 1] as real, d(|a| - 1))
    ensures Sum(a) == Sum(a[..|a| - 1]) + a[|a| - 1]
  {
  }

  /** One step of DominatedDcg; x is the lead of the prefixes and u a discount above the last. */
  lemma {:induction false} DominatedStep(a: seq<int>, b: seq<int>, d: Discount, x: real, u: real)
    requires |a| == |b| > 0 && Lead(a, b) >= 0.0
    requires x == Lead(a[..|a| - 1], b[..|b| - 1]) >= 0.0 && u > d(|a| - 1) > 0.0
    requires Dcg(b[..|b| - 1], d) - Dcg(a[..|a| - 1], d) >= Times(x, u)
    ensures Dcg(b, d) - Dcg(a, d) >= Times(Lead(a, b), d(|a| - 1)) >= 0.0
    ensures Dcg(a, d) == Dcg(b, d) ==>
      Dcg(b[..|b| - 1], d) == Dcg(a[..|a| - 1], d) && a[|a| - 1] == b[|a| - 1]
  {
    LastTerm(a, d);
    LastTerm(b, d);
    PartsStep(Dcg(a[..|a| - 1], d), Dcg(b[..|b| - 1], d), a[|a| - 1] as real, b[|b| - 1] as real,
              x, Lead(a, b), u, d(|a| - 1));
  }

  // ----- sorting -----

  lemma {:induction false} SortIsSorted(s: seq<int>)
    ensures Descending(SortDescending(s)) && multiset(SortDescending(s)) == multiset(s)
  {
    Sorting.SortSorts(s, AtLeast());
  }

  lemma {:induction false} SortedIsUnique(a: seq<int>, b: seq<int>)
    requires Descending(a) && Descending(b) && multiset(a) == multiset(b)
    ensures a == b
  {
    Sorting.OrderedIsUnique(a, b, AtLeast());
  }

  // ----- main results about one query -----

  lemma {:induction false} TimesZero(weight: real)
    ensures Times(0.0, weight) == 0.0
  {
  }

  lemma {:induction false} TimesSign(x: real, weight: real)
    requires x >= 0.0 && weight > 0.0
    ensures Times(x, weight) >= 0.0 && (x > 0.0 ==> Times(x, weight) > 0.0)
  {
  }

  lemma {:induction false} ZerosGainNothing(s: seq<int>, n: nat, d: Discount)
    ensures Dcg(s + Zeros(n), d) == Dcg(s, d)
  {
    if n == 0 {
      assert s + Zeros(0) == s;
    } else {
      ZerosGainNothing(s, n - 1, d);
      var padded := s + Zeros(n);
      assert padded[..|padded| - 1] == s + Zeros(n - 1) && padded[|padded| - 1] == 0;
      LastTerm(padded, d);
      TimesZero(d(|padded| - 1));
    }
  }

  lemma {:induction false} DcgSign(s: seq<int>, d: Discount)
    requires IsDiscount(d) && forall i :: 0 <= i < |s| ==> s[i] >= 0
    ensures Dcg(s, d) >= 0.0
    ensures s != [] && s[0] > 0 ==> Dcg(s, d) > 0.0
  {
    if s != [] {
      var n := |s| - 1;
      DcgSign(s[..n], d);
      assert 0.0 < d(n + 1) < d(n);
      TimesSign(s[n] as real, d(n));
      LastTerm(s, d);
      hide Times;
    }
  }

  lemma {:induction false} RatioIsOne(x: real, y: real)
    requires y > 0.0 && x <= y
    ensures x / y <= 1.0 && (x / y == 1.0 <==> x == y) && (x >= 0.0 ==> x / y >= 0.0)
  {
    var q := x / y;
    assert q * y == x;
    assert q > 1.0 ==> (q - 1.0) * y > 0.0;
    assert q < 0.0 ==> q * y < 0.0;
  }

  lemma {:induction false} RatioAboveOne(x: real, y: real)
    requires x > y > 0.0
    ensures x / y > 1.0
  {
    assert (x / y) * y == x;
  }

  lemma {:induction false} NoGains(d: Discount)
    ensures Dcg([], d) == 0.0
  {}

  lemma {:induction false} IdealIsPositive(labels: seq<Label>, k: int, d: Discount)
    requires IsDiscount(d)
    ensures Dcg(Ideal(labels, k), d) >= 0.0
    ensures Dcg(Ideal(labels, k), d) == 0.0 <==> (k < 1 || Relevances(labels) == [])
  {
    hide SortDescending, Relevances, Dcg, IsDiscount;
    SortedArePositive(labels);
    NoGains(d);
    DcgSign(Ideal(labels, k), d);
  }

  lemma {:induction false} SortedArePositive(labels: seq<Label>)
    ensures |SortDescending(Relevances(labels))| == |Relevances(labels)|
    ensures forall i :: 0 <= i < |Relevances(labels)| ==> SortDescending(Relevances(labels))[i] > 0
  {
    var rels, sorted := Relevances(labels), SortDescending(Relevances(labels));
    Sorting.SortSorts(rels, AtLeast());
    RelevancesArePositive(labels);
    hide Relevances, Sorting.Sort;
    forall i | 0 <= i < |sorted| ensures sorted[i] > 0 {
      assert sorted[i] in sorted && sorted[i] in rels && sorted[i] in multiset(rels);
    }
  }

  lemma {:induction false} DcgBelowIdeal(ranked: seq<string>, labels: seq<Label>, k: nat, d: Discount)
    requires NoRepeats(ranked) && IsDiscount(d)
    ensures var g, ideal := Padded(Gains(ranked, labels), k), Padded(SortDescending(Relevances(labels)), k);
            Dcg(Top(Gains(ranked, labels), k), d) <= Dcg(Ideal(labels, k), d)
            && (Dcg(Top(Gains(ranked, labels), k), d) == Dcg(Ideal(labels, k), d) <==> g == ideal)
  {
    hide SortDescending, Relevances, Gains, Sum, Dcg, IsDiscount;
    var gains, sorted := Gains(ranked, labels), SortDescending(Relevances(labels));
    forall m | 0 <= m <= k ensures Sum(Padded(gains, k)[..m]) <= Sum(Padded(sorted, k)[..m]) {
      IdealDominates(ranked, labels, k, m);
    }
    DominatedDcg(Padded(gains, k), Padded(sorted, k), d);
    ZerosGainNothing(Top(gains, k), k - |Top(gains, k)|, d);
    ZerosGainNothing(Top(sorted, k), k - |Top(sorted, k)|, d);
  }

  lemma {:induction false} GainsAreNonNegative(ranked: seq<string>, labels: seq<Label>)
    requires forall l <- labels :: l.relevance >= 0
    ensures forall i :: 0 <= i < |ranked| ==> Gains(ranked, labels)[i] >= 0
  {
    if ranked != [] {
      GainsAreNonNegative(ranked[..|ranked| - 1], labels);
      RelevanceIsNonNegative(ranked[|ranked| - 1], labels);
    }
  }

  lemma {:induction false} RelevanceIsNonNegative(id: string, labels: seq<Label>)
    requires forall l <- labels :: l.relevance >= 0
    ensures RelevanceOf(id, labels) >= 0
  {
    if labels != [] {
      RelevanceIsNonNegative(id, labels[1..]);
    }
  }

  lemma {:induction false} TopDecides(ranked: seq<string>, labels: seq<Label>, k: int)
    ensures Top(Gains(ranked, labels), k) == Gains(Top(ranked, k), labels)
    ensures Top(Gains(Top(ranked, k), labels), k) == Gains(Top(ranked, k), labels)
  {
    GainsPrefix(ranked, labels, |Top(ranked, k)|);
  }

  /** nDCG is at most 1 when no id stands twice among the first k; without
      negative relevances it is also at least 0. */
  lemma {:induction false} NdcgIsBounded(ranked: seq<string>, labels: seq<Label>, k: int, d: Discount)
    requires NoRepeats(Top(ranked, k)) && IsDiscount(d)
    ensures Ndcg(ranked, labels, k, d) <= 1.0
    ensures (forall l <- labels :: l.relevance >= 0) ==> Ndcg(ranked, labels, k, d) >= 0.0
  {
    IdealIsPositive(labels, k, d);
    if k >= 1 && Relevances(labels) != [] {
      var top := Top(ranked, k);
      TopDecides(ranked, labels, k);
      DcgBelowIdeal(top, labels, k, d);
      if forall l <- labels :: l.relevance >= 0 {
        GainsAreNonNegative(top, labels);
        DcgSign(Gains(top, labels), d);
      }
      RatioIsOne(Dcg(Gains(top, labels), d), Dcg(Ideal(labels, k), d));
    }
  }

  /** nDCG is 1 exactly when the first k gains are the k largest relevances in
      descending order, padded with zeros. */
  lemma {:induction false} NdcgIsOneExactlyWhenIdeal(ranked: seq<string>, labels: seq<Label>, k: int, d: Discount)
    requires NoRepeats(Top(ranked, k)) && IsDiscount(d) && k >= 1 && Relevances(labels) != []
    ensures Ndcg(ranked, labels, k, d) == 1.0 <==>
            Padded(Gains(ranked, labels), k) == Padded(SortDescending(Relevances(labels)), k)
  {
    TopDecides(ranked, labels, k);
    IdealIsPositive(labels, k, d);
    DcgBelowIdeal(Top(ranked, k), labels, k, d);
    RatioIsOne(Dcg(Top(Gains(ranked, labels), k), d), Dcg(Ideal(labels, k), d));
  }

  // ----- repeated ids -----

  /** One label of relevance 1 for each id of a ranking. */
  function LabelsFor(ids: seq<string>): seq<Label> {
    if ids == [] then []
    else (if ids[0] in ids[1..] then [] else [Label(ids[0], 1)]) + LabelsFor(ids[1..])
  }

  function Ones(n: nat): (s: seq<int>)
    ensures |s| == n
  {
    seq(n, _ => 1)
  }

  lemma {:induction false} EachIdIsLabelled(ids: seq<string>, id: string)
    ensures RelevanceOf(id, LabelsFor(ids)) == if id in ids then 1 else 0
  {
    if ids != [] {
      EachIdIsLabelled(ids[1..], id);
      assert id in ids <==> id == ids[0] || id in ids[1..];
      if ids[0] in ids[1..] {
        assert LabelsFor(ids) == LabelsFor(ids[1..]);
      } else {
        var labels := [Label(ids[0], 1)] + LabelsFor(ids[1..]);
        assert labels[1..] == LabelsFor(ids[1..]);
      }
    }
  }

  /** There are fewer labels than ids exactly when some id is repeated. */
  lemma {:induction false} OneLabelForEachId(ids: seq<string>)
    ensures Relevances(LabelsFor(ids)) == Ones(|LabelsFor(ids)|)
    ensures |LabelsFor(ids)| <= |ids| && (|LabelsFor(ids)| == |ids| <==> NoRepeats(ids))
    ensures ids != [] ==> LabelsFor(ids) != []
  {
    if ids != [] {
      OneLabelForEachId(ids[1..]);
      assert ids == [ids[0]] + ids[1..];
      if ids[0] in ids[1..] {
        var i :| 0 <= i < |ids[1..]| && ids[1..][i] == ids[0];
        assert ids[0] == ids[i + 1] && !NoRepeats(ids);
        assert LabelsFor(ids) == LabelsFor(ids[1..]);
      } else {
        var labels := [Label(ids[0], 1)] + LabelsFor(ids[1..]);
        assert labels[1..] == LabelsFor(ids[1..]);
        if NoRepeats(ids) {
          PartsHaveNoRepeats([ids[0]], ids[1..]);
        }
        if NoRepeats(ids[1..]) {
          DisjointHaveNoRepeats([ids[0]], ids[1..]);
        }
      }
    }
  }

  lemma {:induction false} EveryIdGainsOne(ranked: seq<string>, ids: seq<string>)
    requires forall id <- ranked :: id in ids
    ensures Gains(ranked, LabelsFor(ids)) == Ones(|ranked|)
  {
    if ranked != [] {
      var n := |ranked| - 1;
      assert ranked[n] in ranked;
      EveryIdGainsOne(ranked[..n], ids);
      EachIdIsLabelled(ids, ranked[n]);
    }
  }

  lemma {:induction false} OnesAreSorted(n: nat)
    ensures SortDescending(Ones(n)) == Ones(n)
  {
    SortIsSorted(Ones(n));
    SortedIsUnique(SortDescending(Ones(n)), Ones(n));
  }

  lemma {:induction false} MoreOnesGainMore(m: nat, n: nat, d: Discount)
    requires IsDiscount(d) && m <= n
    ensures Dcg(Ones(m), d) <= Dcg(Ones(n), d) && (m < n ==> Dcg(Ones(m), d) < Dcg(Ones(n), d))
  {
    if m < n {
      MoreOnesGainMore(m, n - 1, d);
      assert Ones(n)[..n - 1] == Ones(n - 1);
      LastTerm(Ones(n), d);
      assert d(n) < d(n - 1) && Times(1.0, d(n - 1)) == d(n - 1);
    }
  }

  /** When some id stands twice among the first k, its second appearance counts
      again although the ideal order has no second label for it. */
  lemma {:induction false} RepeatedIdExceedsOne(ranked: seq<string>, k: int, d: Discount)
    requires IsDiscount(d) && !NoRepeats(Top(ranked, k))
    ensures Ndcg(ranked, LabelsFor(Top(ranked, k)), k, d) > 1.0
  {
    var ids := Top(ranked, k);
    var labels := LabelsFor(ids);
    var m := |labels|;
    OneLabelForEachId(ids);
    EveryIdGainsOne(ids, ids);
    TopDecides(ranked, labels, k);
    OnesAreSorted(m);
    assert Ideal(labels, k) == Ones(m);
    assert Ones(m)[0] == 1;
    DcgSign(Ones(m), d);
    MoreOnesGainMore(m, |ids|, d);
    RatioAboveOne(Dcg(Ones(|ids|), d), Dcg(Ones(m), d));
  }

  /** nDCG stays at most 1 for all labels exactly when no id stands twice among
      the first k of the ranking. */
  lemma {:induction false} NdcgIsBoundedExactlyWithoutRepeats(ranked: seq<string>, k: int, d: Discount)
    requires IsDiscount(d)
    ensures NoRepeats(Top(ranked, k)) <==> forall labels :: Ndcg(ranked, labels, k, d) <= 1.0
  {
    if NoRepeats(Top(ranked, k)) {
      forall labels ensures Ndcg(ranked, labels, k, d) <= 1.0 {
        NdcgIsBounded(ranked, labels, k, d);
      }
    } else {
      RepeatedIdExceedsOne(ranked, k, d);
    }
  }

  lemma {:induction false} HitsAreLabels(ranked: seq<string>, labels: seq<Label>)
    requires NoRepeats(ranked)
    ensures |Positives(Gains(ranked, labels))| <= |Relevances(labels)|
  {
    var p, r := Positives(Gains(ranked, labels)), Relevances(labels);
    GainsComeFromLabels(ranked, labels);
    assert multiset(r) == multiset(p) + (multiset(r) - multiset(p));
    assert |p| == |multiset(p)| && |r| == |multiset(r)|;
  }

  lemma {:induction false} HitsOfPrefix(s: seq<int>, n: nat)
    requires n <= |s|
    ensures |Positives(s[..n])| <= |Positives(s)|
  {
    PositivesAppend(s[..n], s[n..]);
    assert s == s[..n] + s[n..];
  }

  lemma {:induction false} HitsGrow(gains: seq<int>, k: int, k': int)
    requires k <= k'
    ensures |Positives(Top(gains, k))| <= |Positives(Top(gains, k'))| <= |Positives(gains)|
  {
    var a, b := Top(gains, k), Top(gains, k');
    assert a == b[..|a|] && b == gains[..|b|];
    HitsOfPrefix(b, |a|);
    HitsOfPrefix(gains, |b|);
  }

  lemma {:induction false} QuotientsAreOrdered(x: real, y: real, total: real)
    requires total > 0.0 && x <= y
    ensures x / total <= y / total
  {
  }

  /** Recall never falls when the cutoff grows. */
  lemma {:induction false} RecallIsMonotone(ranked: seq<string>, labels: seq<Label>, k: int, k': int)
    requires k <= k'
    ensures 0.0 <= Recall(ranked, labels, k) <= Recall(ranked, labels, k')
  {
    var gains, total := Gains(ranked, labels), |Relevances(labels)|;
    HitsGrow(gains, k, k');
    if total > 0 {
      var x, y := |Positives(Top(gains, k))|, |Positives(Top(gains, k'))|;
      QuotientsAreOrdered(0.0, x as real, total as real);
      QuotientsAreOrdered(x as real, y as real, total as real);
    }
  }

  lemma {:induction false} RecallIsBounded(ranked: seq<string>, labels: seq<Label>, k: int)
    requires NoRepeats(Top(ranked, k))
    ensures Recall(ranked, labels, k) <= 1.0
  {
    TopDecides(ranked, labels, k);
    HitsAreLabels(Top(ranked, k), labels);
    if Relevances(labels) != [] {
      RatioIsOne(|Positives(Top(Gains(ranked, labels), k))| as real, |Relevances(labels)| as real);
    }
  }

  /** Recall stays at most 1 for all labels exactly when no id stands twice among
      the first k of the ranking. */
  lemma {:induction false} RecallIsBoundedExactlyWithoutRepeats(ranked: seq<string>, k: int)
    ensures NoRepeats(Top(ranked, k)) <==> forall labels :: Recall(ranked, labels, k) <= 1.0
  {
    var ids := Top(ranked, k);
    if NoRepeats(ids) {
      forall labels ensures Recall(ranked, labels, k) <= 1.0 {
        RecallIsBounded(ranked, labels, k);
      }
    } else {
      var labels := LabelsFor(ids);
      OneLabelForEachId(ids);
      EveryIdGainsOne(ids, ids);
      TopDecides(ranked, labels, k);
      AllAreHits(Ones(|ids|));
      RatioAboveOne(|ids| as real, |labels| as real);
      assert Recall(ranked, labels, k) > 1.0;
    }
  }

  ghost predicate AllRelevant(gains: seq<int>) {
    forall i :: 0 <= i < |gains| ==> gains[i] >= 1
  }

  /** The precisions add up to at most the number of hits, and to exactly that
      number only when no irrelevant result precedes a relevant one. */
  lemma {:induction false} PrecisionSumBound(gains: seq<int>)
    ensures 0.0 <= PrecisionSum(gains) <= |Positives(gains)| as real && |Positives(gains)| <= |gains|
    ensures PrecisionSum(gains) == |Positives(gains)| as real <==> AllRelevant(gains[..|Positives(gains)|])
    ensures |Positives(gains)| == |gains| <==> AllRelevant(gains)
  {
    if gains != [] {
      var n := |gains| - 1;
      var before := gains[..n];
      PrecisionSumBound(before);
      var hits := |Positives(gains)|;
      if gains[n] >= 1 {
        RatioIsOne(hits as real, |gains| as real);
        assert hits == |Positives(before)| + 1;
        if hits == |gains| {
          assert gains[..hits] == gains && before[..n] == before;
        } else {
          assert gains[..hits][..hits - 1] == before[..hits - 1];
          assert !AllRelevant(before);
          NotAllRelevant(gains, hits);
        }
      } else {
        assert gains[..hits] == before[..hits];
      }
    }
  }

  /** With h hits among more than h results ending in a hit, some earlier result is irrelevant. */
  lemma {:induction false} NotAllRelevant(gains: seq<int>, h: nat)
    requires |Positives(gains)| == h < |gains| && gains[|gains| - 1] >= 1
    ensures !AllRelevant(gains[..h])
  {
    assert gains == gains[..h] + gains[h..];
    PositivesAppend(gains[..h], gains[h..]);
    assert gains[h..][|gains[h..]| - 1] == gains[|gains| - 1];
    if AllRelevant(gains[..h]) {
      AllAreHits(gains[..h]);
    }
  }

  lemma {:induction false} OpeningHits(gains: seq<int>, n: nat)
    requires n <= |gains| && AllRelevant(gains[..n])
    ensures |Positives(gains)| >= n
  {
    AllAreHits(gains[..n]);
    HitsGrow(gains, n, |gains|);
    assert Top(gains, n) == gains[..n];
  }

  lemma {:induction false} AllAreHits(gains: seq<int>)
    requires AllRelevant(gains)
    ensures Positives(gains) == gains
  {
    if gains != [] {
      AllAreHits(gains[..|gains| - 1]);
    }
  }

  lemma {:induction false} AveragePrecisionIsBounded(ranked: seq<string>, labels: seq<Label>)
    requires NoRepeats(ranked)
    ensures 0.0 <= AveragePrecision(ranked, labels) <= 1.0
  {
    if Relevances(labels) != [] {
      HitsAreLabels(ranked, labels);
      PrecisionSumBound(Gains(ranked, labels));
      RatioIsOne(PrecisionSum(Gains(ranked, labels)), |Relevances(labels)| as real);
    }
  }

  /** Average precision stays at most 1 for all labels exactly when no id stands
      twice in the ranking. */
  lemma {:induction false} AveragePrecisionIsBoundedExactlyWithoutRepeats(ranked: seq<string>)
    ensures NoRepeats(ranked) <==> forall labels :: AveragePrecision(ranked, labels) <= 1.0
  {
    if NoRepeats(ranked) {
      forall labels ensures AveragePrecision(ranked, labels) <= 1.0 {
        AveragePrecisionIsBounded(ranked, labels);
      }
    } else {
      var labels, n := LabelsFor(ranked), |ranked|;
      OneLabelForEachId(ranked);
      EveryIdGainsOne(ranked, ranked);
      AllAreHits(Ones(n));
      PrecisionSumBound(Ones(n));
      assert Ones(n)[..n] == Ones(n);
      RatioAboveOne(n as real, |labels| as real);
      assert AveragePrecision(ranked, labels) > 1.0;
    }
  }

  /** Average precision is 1 exactly when the ranking opens with all relevant tools. */
  lemma {:induction false} AveragePrecisionIsOneExactlyWhen(ranked: seq<string>, labels: seq<Label>)
    requires NoRepeats(ranked) && Relevances(labels) != []
    ensures AveragePrecision(ranked, labels) == 1.0 <==>
      |Relevances(labels)| <= |ranked| && AllRelevant(Gains(ranked, labels)[..|Relevances(labels)|])
  {
    var gains, total := Gains(ranked, labels), |Relevances(labels)|;
    HitsAreLabels(ranked, labels);
    PrecisionSumBound(gains);
    RatioIsOne(PrecisionSum(gains), total as real);
    if total <= |ranked| && AllRelevant(gains[..total]) {
      OpeningHits(gains, total);
    }
  }

  // ----- the source's own form -----

  method FindRelevance(id: string, labels: seq<Label>) returns (r: int)
    ensures r == RelevanceOf(id, labels)
  {
    for i := 0 to |labels|
      invariant RelevanceOf(id, labels) == RelevanceOf(id, labels[i..])
    {
      if labels[i].toolId == id {
        return labels[i].relevance;
      }
      assert labels[i..][1..] == labels[i + 1..];
    }
    return 0;
  }

  method RelevantCount(labels: seq<Label>) returns (n: nat)
    ensures n == |Relevances(labels)|
  {
    n := 0;
    for i := 0 to |labels|
      invariant n + |Relevances(labels[i..])| == |Relevances(labels)|
    {
      if labels[i].relevance >= 1 {
        n := n + 1;
      }
      assert labels[i..][1..] == labels[i + 1..];
    }
  }

  lemma {:induction false} GainsPrefix(ranked: seq<string>, labels: seq<Label>, i: nat)
    requires i <= |ranked|
    ensures Gains(ranked, labels)[..i] == Gains(ranked[..i], labels)
  {
    if i < |ranked| {
      GainsPrefix(ranked[..|ranked| - 1], labels, i);
      assert ranked[..|ranked| - 1][..i] == ranked[..i];
    } else {
      assert ranked[..i] == ranked;
    }
  }

  lemma {:induction false} GainAt(ranked: seq<string>, labels: seq<Label>, i: nat)
    requires i < |ranked|
    ensures Gains(ranked, labels)[i] == RelevanceOf(ranked[i], labels)
  {
    GainsPrefix(ranked, labels, i + 1);
    assert ranked[..i + 1][..i] == ranked[..i];
  }

  method RecallAtK(ranked: seq<string>, labels: seq<Label>, k: int) returns (r: real)
    ensures r == Recall(ranked, labels, k)
  {
    var total := RelevantCount(labels);
    if total == 0 {
      return 0.0;
    }
    ghost var gains := Gains(ranked, labels);
    var hits := 0;
    var i := 0;
    while i < |ranked| && i < k
      invariant i <= |ranked| && (i == 0 || i <= k)
      invariant hits == |Positives(gains[..i])|
    {
      var rel := FindRelevance(ranked[i], labels);
      GainAt(ranked, labels, i);
      assert gains[..i + 1][..i] == gains[..i];
      if rel >= 1 {
        hits := hits + 1;
      }
      i := i + 1;
    }
    assert gains[..i] == Top(gains, k);
    r := hits as real / total as real;
  }

  /** 1/rank of the first relevant result. */
  method ComputeReciprocalRank(ranked: seq<string>, labels: seq<Label>) returns (r: real)
    ensures r == ReciprocalRank(ranked, labels) && IsReciprocalRank(r, ranked, labels)
  {
    ReciprocalRankIsMet(ranked, labels);
    hide RelevanceOf, IsReciprocalRank;
    for i := 0 to |ranked|
      invariant FirstHit(ranked, labels) == i + FirstHit(ranked[i..], labels)
    {
      var rel := FindRelevance(ranked[i], labels);
      if rel >= 1 {
        return 1.0 / (i + 1) as real;
      }
      assert ranked[i..][1..] == ranked[i + 1..];
    }
    return 0.0;
  }

  method SwapDown(rels: array<int>, j: nat)
    requires 0 < j < rels.Length
    modifies rels
    ensures rels[..] == old(rels[..])[j - 1 := old(rels[j])][j := old(rels[j - 1])]
    ensures multiset(rels[..]) == old(multiset(rels[..]))
  {
    rels[j], rels[j - 1] := rels[j - 1], rels[j];
  }

  /** The insertion sort inside `idealDCG`, in place. */
  method SortInPlace(rels: array<int>)
    modifies rels
    ensures rels[..] == SortDescending(old(rels[..]))
  {
    hide SortDescending;
    var i := 1;
    while i < rels.Length
      invariant 1 <= i
      invariant forall p, q :: 0 <= p < q < i && q < rels.Length ==> rels[p] >= rels[q]
      invariant multiset(rels[..]) == old(multiset(rels[..]))
    {
      var j := i;
      while j > 0 && rels[j] > rels[j - 1]
        invariant 0 <= j <= i < rels.Length
        invariant forall p, q :: 0 <= p < q <= i && q != j ==> rels[p] >= rels[q]
        invariant multiset(rels[..]) == old(multiset(rels[..]))
      {
        SwapDown(rels, j);
        j := j - 1;
      }
      i := i + 1;
    }
    ghost var before := old(rels[..]);
    assert Descending(rels[..]);
    SortIsSorted(before);
    SortedIsUnique(rels[..], SortDescending(before));
  }

  method CollectRelevances(labels: seq<Label>) returns (rels: array<int>)
    ensures fresh(rels) && rels[..] == Relevances(labels)
  {
    var found: seq<int> := [];
    for i := 0 to |labels|
      invariant found + Relevances(labels[i..]) == Relevances(labels)
    {
      if labels[i].relevance >= 1 {
        found := found + [labels[i].relevance];
      }
      assert labels[i..][1..] == labels[i + 1..];
    }
    rels := new int[|found|](i requires 0 <= i < |found| => found[i]);
    assert rels[..] == found;
  }

  method IdealDcg(labels: seq<Label>, k: int, d: Discount) returns (idcg: real)
    ensures idcg == Dcg(Ideal(labels, k), d)
  {
    var rels := CollectRelevances(labels);
    SortInPlace(rels);
    hide SortDescending, Relevances, Dcg, Times;
    ghost var sorted := rels[..];
    idcg := 0.0;
    NoGains(d);
    var i := 0;
    while i < rels.Length && i < k
      invariant i <= rels.Length && (i == 0 || i <= k) && rels[..] == sorted
      invariant idcg == Dcg(sorted[..i], d)
    {
      assert sorted[..i + 1][..i] == sorted[..i];
      LastTerm(sorted[..i + 1], d);
      idcg := idcg + Times(rels[i] as real, d(i));
      i := i + 1;
    }
    assert sorted[..i] == Top(sorted, k);
  }

  method NdcgAtK(ranked: seq<string>, labels: seq<Label>, k: int, d: Discount) returns (r: real)
    ensures r == Ndcg(ranked, labels, k, d)
  {
    ghost var gains := Gains(ranked, labels);
    var dcg := 0.0;
    var i := 0;
    while i < |ranked| && i < k
      invariant i <= |ranked| && (i == 0 || i <= k)
      invariant dcg == Dcg(gains[..i], d)
    {
      var rel := FindRelevance(ranked[i], labels);
      GainAt(ranked, labels, i);
      assert gains[..i + 1][..i] == gains[..i];
      LastTerm(gains[..i + 1], d);
      TimesZero(d(i));
      if rel != 0 {
        dcg := dcg + Times(rel as real, d(i));
      }
      i := i + 1;
    }
    assert gains[..i] == Top(gains, k);
    var idcg := IdealDcg(labels, k, d);
    r := if idcg == 0.0 then 0.0 else dcg / idcg;
  }

  method ComputeAveragePrecision(ranked: seq<string>, labels: seq<Label>) returns (r: real)
    ensures r == AveragePrecision(ranked, labels)
  {
    var total := RelevantCount(labels);
    if total == 0 {
      return 0.0;
    }
    ghost var gains := Gains(ranked, labels);
    var hits, sumPrec := 0, 0.0;
    for i := 0 to |ranked|
      invariant hits == |Positives(gains[..i])|
      invariant sumPrec == PrecisionSum(gains[..i])
    {
      var rel := FindRelevance(ranked[i], labels);
      GainAt(ranked, labels, i);
      assert gains[..i + 1][..i] == gains[..i];
      if rel >= 1 {
        hits := hits + 1;
        sumPrec := sumPrec + hits as real / (i + 1) as real;
      }
    }
    assert gains[..|ranked|] == gains;
    r := sumPrec / total as real;
  }

  // ----- the scores without recursion over the ranking -----

  /** r times the rank of the first relevant id is 1, and r is 0 if none is relevant. */
  ghost predicate IsReciprocalRank(r: real, ranked: seq<string>, labels: seq<Label>) {
    && (r == 0.0 <==> forall id <- ranked :: RelevanceOf(id, labels) < 1)
    && forall i | 0 <= i < |ranked| && RelevanceOf(ranked[i], labels) >= 1 &&
         (forall j | 0 <= j < i :: RelevanceOf(ranked[j], labels) < 1) :: r * (i + 1) as real == 1.0
  }

  lemma {:induction false} Inverse(n: int)
    requires n > 0
    ensures 1.0 / n as real != 0.0 && 1.0 / n as real * n as real == 1.0
  {
  }

  lemma {:induction false} ReciprocalRankIsMet(ranked: seq<string>, labels: seq<Label>)
    ensures IsReciprocalRank(ReciprocalRank(ranked, labels), ranked, labels)
  {
    var i := FirstHit(ranked, labels);
    hide RelevanceOf, FirstHit;
    Inverse(i + 1);
    if i < |ranked| {
      assert ranked[i] in ranked;
    }
  }

  /** The first label with the id decides; an id without label has relevance 0. */
  lemma {:induction false} FirstLabelDecides(id: string, labels: seq<Label>)
    ensures (forall l <- labels :: l.toolId != id) ==> RelevanceOf(id, labels) == 0
    ensures forall i |
      0 <= i < |labels| && labels[i].toolId == id && (forall j | 0 <= j < i :: labels[j].toolId != id) ::
      RelevanceOf(id, labels) == labels[i].relevance
  {
    if labels != [] && labels[0].toolId != id {
      FirstLabelDecides(id, labels[1..]);
      forall i | 0 <= i < |labels| && labels[i].toolId == id && (forall j | 0 <= j < i :: labels[j].toolId != id)
        ensures RelevanceOf(id, labels) == labels[i].relevance
      {
        assert labels[1..][i - 1] == labels[i] && forall j | 0 <= j < i - 1 :: labels[1..][j] == labels[j + 1];
      }
    }
  }

  function RealSum(s: seq<real>): real {
    if s == [] then 0.0 else s[0] + RealSum(s[1..])
  }

  lemma {:induction false} RealSumAppend(s: seq<real>, x: real)
    ensures RealSum(s + [x]) == RealSum(s) + x
  {
    if s == [] {
      assert s + [x] == [x] && RealSum([x]) == x + RealSum([]);
    } else {
      RealSumAppend(s[1..], x);
      assert (s + [x])[1..] == s[1..] + [x];
    }
  }

  /** The positions above k at which something relevant stands. */
  ghost function Hits(ranked: seq<string>, labels: seq<Label>, k: int): set<nat> {
    set i: nat | i < |ranked| && i < k && RelevanceOf(ranked[i], labels) >= 1
  }

  ghost function RelevantLabels(labels: seq<Label>): set<nat> {
    set i: nat | i < |labels| && labels[i].relevance >= 1
  }

  ghost function PositiveAt(s: seq<int>): set<nat> {
    set i: nat | i < |s| && s[i] >= 1
  }

  lemma {:induction false} PositivesCount(s: seq<int>)
    ensures |Positives(s)| == |PositiveAt(s)|
  {
    if s != [] {
      var n := |s| - 1;
      PositivesCount(s[..n]);
      assert PositiveAt(s) == PositiveAt(s[..n]) + if s[n] >= 1 then {n} else {};
    }
  }

  lemma {:induction false} RelevancesAppend(a: seq<Label>, l: Label)
    ensures Relevances(a + [l]) == Relevances(a) + if l.relevance >= 1 then [l.relevance] else []
  {
    if a == [] {
      assert a + [l] == [l] && [l][1..] == [];
    } else {
      RelevancesAppend(a[1..], l);
      assert (a + [l])[1..] == a[1..] + [l];
    }
  }

  lemma {:induction false} RelevancesCount(labels: seq<Label>)
    ensures |Relevances(labels)| == |RelevantLabels(labels)|
  {
    if labels == [] {
      assert RelevantLabels(labels) == {};
    } else {
      hide Relevances, RelevantLabels;
      var init, last := labels[..|labels| - 1], labels[|labels| - 1];
      RelevancesCount(init);
      assert labels == init + [last];
      RelevancesAppend(init, last);
      RelevantAppend(init, last);
    }
  }

  lemma {:induction false} RelevantAppend(labels: seq<Label>, l: Label)
    ensures |RelevantLabels(labels + [l])| == |RelevantLabels(labels)| + if l.relevance >= 1 then 1 else 0
  {
    assert RelevantLabels(labels + [l]) == RelevantLabels(labels) + if l.relevance >= 1 then {|labels|} else {};
  }

  lemma {:induction false} HitsArePositive(ranked: seq<string>, labels: seq<Label>, k: int)
    ensures PositiveAt(Top(Gains(ranked, labels), k)) == Hits(ranked, labels, k)
  {
    var top := Top(Gains(ranked, labels), k);
    forall i: nat | i < |top| ensures top[i] == RelevanceOf(ranked[i], labels) {
      GainAt(ranked, labels, i);
    }
    hide Gains, RelevanceOf;
  }

  lemma {:induction false} QuotientBack(x: real, y: real)
    requires y != 0.0
    ensures x / y * y == x
  {
  }

  /** Recall is the share of the relevant labels that stand above k. */
  lemma {:induction false} RecallIsTheShare(ranked: seq<string>, labels: seq<Label>, k: int)
    ensures RelevantLabels(labels) == {} ==> Recall(ranked, labels, k) == 0.0
    ensures RelevantLabels(labels) != {} ==>
      Recall(ranked, labels, k) * |RelevantLabels(labels)| as real == |Hits(ranked, labels, k)| as real
  {
    RelevancesCount(labels);
    PositivesCount(Top(Gains(ranked, labels), k));
    HitsArePositive(ranked, labels, k);
    hide RelevantLabels, Hits, Relevances, Positives, Gains;
    var total := |Relevances(labels)|;
    if total > 0 {
      QuotientBack(|Hits(ranked, labels, k)| as real, total as real);
    }
  }

  ghost function DiscountedGains(gains: seq<int>, d: Discount): seq<real> {
    seq(|gains|, i requires 0 <= i < |gains| => gains[i] as real * d(i))
  }

  /** Each gain counts with the discount of its own position. */
  lemma {:induction false} DcgIsTheSum(gains: seq<int>, d: Discount)
    ensures Dcg(gains, d) == RealSum(DiscountedGains(gains, d))
  {
    if gains != [] {
      var n, init := |gains| - 1, gains[..|gains| - 1];
      DcgIsTheSum(init, d);
      var all, before, term := DiscountedGains(gains, d), DiscountedGains(init, d), Times(gains[n] as real, d(n));
      forall i | 0 <= i < n ensures before[i] == all[i] {
        assert init[i] == gains[i];
      }
      assert all[n] == term && all == before + [all[n]];
      hide RealSum;
      RealSumAppend(before, term);
    }
  }

  ghost function GainPrecisions(gains: seq<int>): seq<real> {
    seq(|gains|, i requires 0 <= i < |gains| =>
      if gains[i] >= 1 then |Positives(gains[..i + 1])| as real / (i + 1) as real else 0.0)
  }

  lemma {:induction false} PrecisionSumIsTheSum(gains: seq<int>)
    ensures PrecisionSum(gains) == RealSum(GainPrecisions(gains))
  {
    if gains != [] {
      var n, init := |gains| - 1, gains[..|gains| - 1];
      PrecisionSumIsTheSum(init);
      hide Positives, RealSum;
      var before, terms := GainPrecisions(init), GainPrecisions(gains);
      forall i | 0 <= i < n ensures before[i] == terms[i] {
        assert init[..i + 1] == gains[..i + 1];
      }
      assert terms == before + [terms[n]] && gains[..n + 1] == gains;
      RealSumAppend(before, terms[n]);
    }
  }

  ghost function PrecisionTerms(ranked: seq<string>, labels: seq<Label>): seq<real> {
    seq(|ranked|, i requires 0 <= i < |ranked| =>
      if RelevanceOf(ranked[i], labels) >= 1 then |Hits(ranked, labels, i + 1)| as real / (i + 1) as real else 0.0)
  }

  lemma {:induction false} TermsAreGainPrecisions(ranked: seq<string>, labels: seq<Label>)
    ensures GainPrecisions(Gains(ranked, labels)) == PrecisionTerms(ranked, labels)
  {
    var gains := Gains(ranked, labels);
    hide Positives, Gains, Hits, RelevanceOf;
    forall i | 0 <= i < |ranked| ensures GainPrecisions(gains)[i] == PrecisionTerms(ranked, labels)[i] {
      GainAt(ranked, labels, i);
      PositivesCount(gains[..i + 1]);
      HitsArePositive(ranked, labels, i + 1);
      assert Top(gains, i + 1) == gains[..i + 1];
    }
  }

  /** Average precision is the sum of the precisions at the relevant positions,
      divided by the number of relevant labels. */
  lemma {:induction false} AveragePrecisionIsTheMean(ranked: seq<string>, labels: seq<Label>)
    ensures RelevantLabels(labels) == {} ==> AveragePrecision(ranked, labels) == 0.0
    ensures RelevantLabels(labels) != {} ==>
      AveragePrecision(ranked, labels) * |RelevantLabels(labels)| as real == RealSum(PrecisionTerms(ranked, labels))
  {
    RelevancesCount(labels);
    PrecisionSumIsTheSum(Gains(ranked, labels));
    TermsAreGainPrecisions(ranked, labels);
    hide PrecisionTerms, PrecisionSum, RealSum, Gains, Relevances, RelevantLabels;
    if |Relevances(labels)| > 0 {
      QuotientBack(RealSum(PrecisionTerms(ranked, labels)), |Relevances(labels)| as real);
    }
  }

  lemma {:induction false} OneGain(gains: seq<int>, i: nat, d: Discount)
    requires i < |gains| && forall j | 0 <= j < |gains| && j != i :: gains[j] == 0
    ensures Dcg(gains, d) == Times(gains[i] as real, d(i))
  {
    var n := |gains| - 1;
    if i < n {
      OneGain(gains[..n], i, d);
      TimesZero(d(n));
    } else {
      NoGain(gains[..n], d);
    }
    hide Times;
  }

  lemma {:induction false} NoGain(gains: seq<int>, d: Discount)
    requires forall j | 0 <= j < |gains| :: gains[j] == 0
    ensures Dcg(gains, d) == 0.0
  {
    if gains != [] {
      NoGain(gains[..|gains| - 1], d);
      TimesZero(d(|gains| - 1));
    }
    hide Times;
  }

  lemma {:induction false} QuotientOfTimes(x: real, y: real, z: real)
    requires x > 0.0 && z > 0.0
    ensures Times(x, z) != 0.0 && Times(x, y) / Times(x, z) * z == y
  {
    var q := Times(x, y) / Times(x, z);
    assert q * (x * z) == x * y;
    assert x * (q * z - y) == 0.0;
  }

  /** With one relevant tool, found at position i, nDCG is the discount of that
      position over the first one, and average precision and reciprocal rank are one
      over its rank. */
  lemma {:induction false} OneRelevantTool(ranked: seq<string>, l: Label, i: nat, k: int, d: Discount)
    requires IsDiscount(d) && NoRepeats(ranked) && l.relevance >= 1
    requires i < |ranked| && i < k && ranked[i] == l.toolId
    ensures Ndcg(ranked, [l], k, d) * d(0) == d(i)
    ensures AveragePrecision(ranked, [l]) * (i + 1) as real == 1.0
    ensures ReciprocalRank(ranked, [l]) * (i + 1) as real == 1.0
  {
    hide *;
    GainsOfOneTool(ranked, l, i);
    IdealOfOneTool(l, k);
    NdcgOfOneTool(ranked, l, i, k, d);
    PrecisionOfOneTool(ranked, l, i);
    RankOfOneTool(ranked, l, i);
  }

  lemma {:induction false} NdcgOfOneTool(ranked: seq<string>, l: Label, i: nat, k: int, d: Discount)
    requires IsDiscount(d) && l.relevance >= 1 && i < |ranked| && i < k && Ideal([l], k) == [l.relevance]
    requires forall j | 0 <= j < |ranked| :: Gains(ranked, [l])[j] == if j == i then l.relevance else 0
    ensures Ndcg(ranked, [l], k, d) * d(0) == d(i)
  {
    hide Gains, Ideal, Dcg, Top, IsDiscount;
    OneRelevantNdcg(Gains(ranked, [l]), l.relevance, i, k, d);
  }

  lemma {:induction false} PrecisionOfOneTool(ranked: seq<string>, l: Label, i: nat)
    requires l.relevance >= 1 && i < |ranked| && Relevances([l]) == [l.relevance]
    requires forall j | 0 <= j < |ranked| :: Gains(ranked, [l])[j] == if j == i then l.relevance else 0
    ensures AveragePrecision(ranked, [l]) * (i + 1) as real == 1.0
  {
    hide Gains, Relevances, PrecisionSum;
    OneRelevantPrecision(Gains(ranked, [l]), i);
    Inverse(i + 1);
  }

  lemma {:induction false} RankOfOneTool(ranked: seq<string>, l: Label, i: nat)
    requires l.relevance >= 1 && i < |ranked|
    requires forall j | 0 <= j < |ranked| :: RelevanceOf(ranked[j], [l]) == if j == i then l.relevance else 0
    ensures ReciprocalRank(ranked, [l]) * (i + 1) as real == 1.0
  {
    ReciprocalRankIsMet(ranked, [l]);
    hide ReciprocalRank, RelevanceOf;
    assert RelevanceOf(ranked[i], [l]) >= 1 && forall j | 0 <= j < i :: RelevanceOf(ranked[j], [l]) < 1;
  }

  lemma {:induction false} GainsOfOneTool(ranked: seq<string>, l: Label, i: nat)
    requires NoRepeats(ranked) && i < |ranked| && ranked[i] == l.toolId
    ensures forall j | 0 <= j < |ranked| ::
      Gains(ranked, [l])[j] == RelevanceOf(ranked[j], [l]) == if j == i then l.relevance else 0
  {
    hide Gains;
    assert [l][1..] == [];
    forall j | 0 <= j < |ranked|
      ensures Gains(ranked, [l])[j] == RelevanceOf(ranked[j], [l]) == if j == i then l.relevance else 0
    {
      GainAt(ranked, [l], j);
    }
  }

  lemma {:induction false} IdealOfOneTool(l: Label, k: int)
    requires l.relevance >= 1 && k > 0
    ensures Relevances([l]) == [l.relevance] && Ideal([l], k) == [l.relevance]
  {
    assert [l][1..] == [] && Relevances([l]) == [l.relevance];
    SortIsSorted([l.relevance]);
    hide SortDescending;
    SortedIsUnique(SortDescending([l.relevance]), [l.relevance]);
  }

  lemma {:induction false} OneRelevantNdcg(gains: seq<int>, rel: int, i: nat, k: int, d: Discount)
    requires IsDiscount(d) && rel >= 1 && i < |gains| && i < k
    requires forall j | 0 <= j < |gains| :: gains[j] == if j == i then rel else 0
    ensures Dcg([rel], d) != 0.0 && Dcg(Top(gains, k), d) / Dcg([rel], d) * d(0) == d(i)
  {
    assert 0.0 < d(1) < d(0);
    OneGain(Top(gains, k), i, d);
    OneGain([rel], 0, d);
    QuotientOfTimes(rel as real, d(i), d(0));
  }

  lemma {:induction false} OneRelevantPrecision(gains: seq<int>, i: nat)
    requires i < |gains| && forall j | 0 <= j < |gains| :: gains[j] >= 1 <==> j == i
    ensures PrecisionSum(gains) == 1.0 / (i + 1) as real
  {
    var n := |gains| - 1;
    if i < n {
      OneRelevantPrecision(gains[..n], i);
    } else {
      NoRelevantPrecision(gains[..n]);
    }
  }

  lemma {:induction false} NoRelevantPrecision(gains: seq<int>)
    requires forall j | 0 <= j < |gains| :: gains[j] < 1
    ensures PrecisionSum(gains) == 0.0 && Positives(gains) == []
  {
    if gains != [] {
      NoRelevantPrecision(gains[..|gains| - 1]);
    }
  }

  // ----- a whole golden set -----

  datatype GoldenQuery = GoldenQuery(id: string, query: string, labels: seq<Label>)

  datatype Answer = Ranked(ids: seq<string>) | SearchFailed {
    function Ids(): seq<string> {
      if Ranked? then ids else []
    }
  }

  type SearchFunc = (string, int) -> Answer

  datatype Metrics = Metrics(recallAt: map<int, real>, mrr: real, ndcgAt10: real, meanAp: real)

  datatype Report = Scored(metrics: Metrics) | EmptyGoldenSet | QueryFailed(id: string)

  type Score = GoldenQuery -> real

  function RecallScore(search: SearchFunc, maxK: int, k: int): Score {
    (q: GoldenQuery) => Recall(search(q.query, maxK).Ids(), q.labels, k)
  }

  function RankScore(search: SearchFunc, maxK: int): Score {
    (q: GoldenQuery) => ReciprocalRank(search(q.query, maxK).Ids(), q.labels)
  }

  function NdcgScore(search: SearchFunc, maxK: int, d: Discount): Score {
    (q: GoldenQuery) => Ndcg(search(q.query, maxK).Ids(), q.labels, 10, d)
  }

  function PrecisionScore(search: SearchFunc, maxK: int): Score {
    (q: GoldenQuery) => AveragePrecision(search(q.query, maxK).Ids(), q.labels)
  }

  /** The sum of the scores of the first n queries. */
  function Total(queries: seq<GoldenQuery>, n: nat, score: Score): real
    requires n <= |queries|
  {
    if n == 0 then 0.0 else Total(queries, n - 1, score) + score(queries[n - 1])
  }

  function Mean(queries: seq<GoldenQuery>, score: Score): real
    requires queries != []
  {
    Total(queries, |queries|, score) / |queries| as real
  }

  /** How often k occurs in ks. */
  function Occurrences(ks: seq<int>, k: int): nat {
    if ks == [] then 0 else Occurrences(ks[..|ks| - 1], k) + if ks[|ks| - 1] == k then 1 else 0
  }

  lemma {:induction false} TotalsAreOrdered(queries: seq<GoldenQuery>, n: nat, low: Score, high: Score)
    requires n <= |queries| && forall q <- queries :: 0.0 <= low(q) <= high(q) <= 1.0
    ensures 0.0 <= Total(queries, n, low) <= Total(queries, n, high) <= n as real
  {
    if n > 0 {
      TotalsAreOrdered(queries, n - 1, low, high);
      assert queries[n - 1] in queries;
    }
  }

  /** Means inherit the bounds of the scores and the order between two scores. */
  lemma {:induction false} MeansAreOrdered(queries: seq<GoldenQuery>, low: Score, high: Score)
    requires queries != [] && forall q <- queries :: 0.0 <= low(q) <= high(q) <= 1.0
    ensures 0.0 <= Mean(queries, low) <= Mean(queries, high) <= 1.0
  {
    var n := |queries|;
    TotalsAreOrdered(queries, n, low, high);
    RatioIsOne(Total(queries, n, low), n as real);
    RatioIsOne(Total(queries, n, high), n as real);
    QuotientsAreOrdered(Total(queries, n, low), Total(queries, n, high), n as real);
  }

  /** The mean recall lies in [0,1] and never falls when the cutoff grows. */
  lemma {:induction false} MeanRecallIsMonotone(queries: seq<GoldenQuery>, search: SearchFunc, maxK: int,
                                                k: int, k': int)
    requires queries != [] && k <= k' && forall q <- queries :: NoRepeats(Top(search(q.query, maxK).Ids(), k'))
    ensures 0.0 <= Mean(queries, RecallScore(search, maxK, k)) <= Mean(queries, RecallScore(search, maxK, k')) <= 1.0
  {
    forall q <- queries
      ensures 0.0 <= RecallScore(search, maxK, k)(q) <= RecallScore(search, maxK, k')(q) <= 1.0
    {
      RecallIsBounded(search(q.query, maxK).Ids(), q.labels, k');
      RecallIsMonotone(search(q.query, maxK).Ids(), q.labels, k, k');
    }
    MeansAreOrdered(queries, RecallScore(search, maxK, k), RecallScore(search, maxK, k'));
  }

  lemma {:induction false} ReciprocalRankIsBounded(ranked: seq<string>, labels: seq<Label>)
    ensures 0.0 <= ReciprocalRank(ranked, labels) <= 1.0
  {
    RatioIsOne(1.0, (FirstHit(ranked, labels) + 1) as real);
  }

  lemma {:induction false} OtherMeansAreBounded(queries: seq<GoldenQuery>, search: SearchFunc, maxK: int, d: Discount)
    requires queries != [] && IsDiscount(d)
    requires forall q <- queries :: NoRepeats(search(q.query, maxK).Ids()) && forall l <- q.labels :: l.relevance >= 0
    ensures 0.0 <= Mean(queries, RankScore(search, maxK)) <= 1.0
    ensures 0.0 <= Mean(queries, NdcgScore(search, maxK, d)) <= 1.0
    ensures 0.0 <= Mean(queries, PrecisionScore(search, maxK)) <= 1.0
  {
    hide Mean, Relevances;
    forall q <- queries
      ensures 0.0 <= RankScore(search, maxK)(q) <= 1.0
      ensures 0.0 <= NdcgScore(search, maxK, d)(q) <= 1.0
      ensures 0.0 <= PrecisionScore(search, maxK)(q) <= 1.0
    {
      var ids := search(q.query, maxK).Ids();
      ReciprocalRankIsBounded(ids, q.labels);
      hide ReciprocalRank, Ndcg, AveragePrecision;
      NdcgIsBounded(ids, q.labels, 10, d);
      AveragePrecisionIsBounded(ids, q.labels);
    }
    MeansAreOrdered(queries, RankScore(search, maxK), RankScore(search, maxK));
    MeansAreOrdered(queries, NdcgScore(search, maxK, d), NdcgScore(search, maxK, d));
    MeansAreOrdered(queries, PrecisionScore(search, maxK), PrecisionScore(search, maxK));
  }

  lemma {:induction false} OccurrencesInList(ks: seq<int>, k: int)
    ensures Occurrences(ks, k) > 0 <==> k in ks
    ensures NoRepeats(ks) ==> Occurrences(ks, k) <= 1
  {
    if ks != [] {
      var n := |ks| - 1;
      OccurrencesInList(ks[..n], k);
      assert ks == ks[..n] + [ks[n]];
      assert NoRepeats(ks) ==> NoRepeats(ks[..n]) && ks[n] !in ks[..n];
    }
  }

  lemma {:induction false} RepeatedCutoff(ks: seq<int>, i: nat, j: nat)
    requires i < j < |ks| && ks[i] == ks[j]
    ensures Occurrences(ks, ks[i]) >= 2
  {
    var n := |ks| - 1;
    if j < n {
      RepeatedCutoff(ks[..n], i, j);
    } else {
      OccurrencesInList(ks[..n], ks[i]);
      assert ks[..n][i] == ks[i];
    }
  }

  function Listed(ks: seq<int>, k: int, x: real): real {
    Times(Occurrences(ks, k) as real, x)
  }

  lemma {:induction false} TimesMore(n: nat, x: real)
    ensures Times(n as real, x) + x == Times((n + 1) as real, x)
  {
    assert (n + 1) as real == n as real + 1.0;
    assert (n as real + 1.0) * x == n as real * x + x;
  }

  lemma {:induction false} TimesSum(n: real, x: real, y: real)
    ensures Times(n, x + y) == Times(n, x) + Times(n, y)
  {
  }

  lemma {:induction false} TimesQuotient(n: real, x: real, total: real)
    requires total > 0.0
    ensures Times(n, x) / total == Times(n, x / total)
  {
    var q := x / total;
    assert q * total == x;
    assert (n * q) * total == n * x;
  }

  function Lookup(sums: map<int, real>, k: int): real {
    if k in sums then sums[k] else 0.0
  }

  /** The map after `recallSum[k] += recall(k)` for the first n cutoffs. */
  function PlusRecalls(sums: map<int, real>, ks: seq<int>, n: nat, ranked: seq<string>, labels: seq<Label>)
      : map<int, real>
    requires n <= |ks|
  {
    if n == 0 then sums
    else
      var m := PlusRecalls(sums, ks, n - 1, ranked, labels);
      m[ks[n - 1] := Lookup(m, ks[n - 1]) + Recall(ranked, labels, ks[n - 1])]
  }

  lemma {:induction false} PlusRecallsAdds(sums: map<int, real>, ks: seq<int>, n: nat, ranked: seq<string>,
                                           labels: seq<Label>, k: int)
    requires n <= |ks|
    ensures Lookup(PlusRecalls(sums, ks, n, ranked, labels), k)
         == Lookup(sums, k) + Listed(ks[..n], k, Recall(ranked, labels, k))
  {
    if n == 0 {
      TimesZero(Recall(ranked, labels, k));
    } else {
      PlusRecallsAdds(sums, ks, n - 1, ranked, labels, k);
      assert ks[..n][..n - 1] == ks[..n - 1];
      TimesMore(Occurrences(ks[..n - 1], k), Recall(ranked, labels, k));
    }
  }

  method AddRecalls(sums: map<int, real>, ks: seq<int>, ranked: seq<string>, labels: seq<Label>)
      returns (r: map<int, real>)
    ensures r == PlusRecalls(sums, ks, |ks|, ranked, labels)
  {
    hide Recall;
    r := sums;
    for j := 0 to |ks|
      invariant r == PlusRecalls(sums, ks, j, ranked, labels)
    {
      var recall := RecallAtK(ranked, labels, ks[j]);
      r := r[ks[j] := Lookup(r, ks[j]) + recall];
    }
  }

  method MaxCutoff(ks: seq<int>) returns (maxK: int)
    ensures maxK >= 10 && (forall k <- ks :: k <= maxK) && (maxK == 10 || maxK in ks)
  {
    maxK := 10;
    for i := 0 to |ks|
      invariant maxK >= 10 && (forall j | 0 <= j < i :: ks[j] <= maxK) && (maxK == 10 || maxK in ks)
    {
      if ks[i] > maxK {
        maxK := ks[i];
      }
    }
  }

  method MeansOf(sums: map<int, real>, ks: seq<int>, n: real) returns (r: map<int, real>)
    requires n > 0.0
    ensures forall k :: k in r <==> k in ks
    ensures forall k <- r :: r[k] == Lookup(sums, k) / n
  {
    r := map[];
    for j := 0 to |ks|
      invariant forall k :: k in r <==> k in ks[..j]
      invariant forall k <- r :: r[k] == Lookup(sums, k) / n
    {
      r := r[ks[j] := Lookup(sums, ks[j]) / n];
    }
    assert ks[..|ks|] == ks;
  }

  /** Everything a run reports: per cutoff, the mean recall times the number of
      listings of that cutoff, and the means of the other scores. */
  ghost predicate Reports(m: Metrics, queries: seq<GoldenQuery>, search: SearchFunc, ks: seq<int>,
                          maxK: int, d: Discount)
    requires queries != []
  {
    && (forall k :: k in m.recallAt <==> k in ks)
    && (forall k <- ks :: m.recallAt[k] == Listed(ks, k, Mean(queries, RecallScore(search, maxK, k))))
    && m.mrr == Mean(queries, RankScore(search, maxK))
    && m.ndcgAt10 == Mean(queries, NdcgScore(search, maxK, d))
    && m.meanAp == Mean(queries, PrecisionScore(search, maxK))
  }

  /** What the report is meant to hold for each cutoff. */
  ghost predicate ReportsMeanRecall(m: Metrics, queries: seq<GoldenQuery>, search: SearchFunc, ks: seq<int>, maxK: int)
    requires queries != []
  {
    forall k <- ks :: k in m.recallAt && m.recallAt[k] == Mean(queries, RecallScore(search, maxK, k))
  }

  /** `recallSum[k] +=` runs once per listing of k. So for one golden set the
      means are reported exactly when each cutoff that is listed twice has mean 0. */
  lemma {:induction false} RecallIsReportedExactlyWhen(m: Metrics, queries: seq<GoldenQuery>, search: SearchFunc,
                                                       ks: seq<int>, maxK: int, d: Discount)
    requires queries != [] && Reports(m, queries, search, ks, maxK, d)
    ensures ReportsMeanRecall(m, queries, search, ks, maxK) <==>
      forall k <- ks :: Occurrences(ks, k) == 1 || Mean(queries, RecallScore(search, maxK, k)) == 0.0
  {
    forall k <- ks
      ensures m.recallAt[k] == Mean(queries, RecallScore(search, maxK, k)) <==>
        (Occurrences(ks, k) == 1 || Mean(queries, RecallScore(search, maxK, k)) == 0.0)
    {
      OccurrencesInList(ks, k);
      ManyTimesIsOnce(Occurrences(ks, k), Mean(queries, RecallScore(search, maxK, k)));
    }
  }

  lemma {:induction false} ManyTimesIsOnce(n: nat, x: real)
    requires n > 0
    ensures Times(n as real, x) == x <==> n == 1 || x == 0.0
  {
    assert Times(n as real, x) == Times((n - 1) as real, x) + x by { TimesMore(n - 1, x); }
  }

  ghost predicate NoPositiveCutoffTwice(ks: seq<int>) {
    forall k <- ks :: k > 0 ==> Occurrences(ks, k) == 1
  }

  /** The searches that `ScoreRetrieval` runs for these queries all succeed. */
  ghost predicate Succeeds(queries: seq<GoldenQuery>, search: SearchFunc, maxK: int) {
    queries != [] && forall q <- queries :: search(q.query, maxK).Ranked?
  }

  lemma {:induction false} NoRecallAtZero(queries: seq<GoldenQuery>, n: nat, search: SearchFunc, maxK: int, k: int)
    requires n <= |queries| && k <= 0
    ensures Total(queries, n, RecallScore(search, maxK, k)) == 0.0
  {
    if n > 0 {
      NoRecallAtZero(queries, n - 1, search, maxK, k);
      var q := queries[n - 1];
      assert Positives(Top(Gains(search(q.query, maxK).Ids(), q.labels), k)) == [];
      assert Recall(search(q.query, maxK).Ids(), q.labels, k) == 0.0;
    }
  }

  lemma {:induction false} OtherCutoffsAreReported(m: Metrics, queries: seq<GoldenQuery>, search: SearchFunc,
                                                   ks: seq<int>, maxK: int, d: Discount)
    requires NoPositiveCutoffTwice(ks) && queries != [] && Reports(m, queries, search, ks, maxK, d)
    ensures ReportsMeanRecall(m, queries, search, ks, maxK)
  {
    RecallIsReportedExactlyWhen(m, queries, search, ks, maxK, d);
    forall k <- ks ensures Occurrences(ks, k) == 1 || Mean(queries, RecallScore(search, maxK, k)) == 0.0 {
      if k <= 0 {
        NoRecallAtZero(queries, |queries|, search, maxK, k);
      }
    }
  }

  lemma {:induction false} PositiveCutoffIsMisreported(ks: seq<int>, k: int, maxK: int, d: Discount)
    requires k in ks && k > 0 && Occurrences(ks, k) != 1
    ensures var m := ReportOf(PERFECT, FindsTheTool(), ks, maxK, d);
      Succeeds(PERFECT, FindsTheTool(), maxK) && Reports(m, PERFECT, FindsTheTool(), ks, maxK, d) &&
      !ReportsMeanRecall(m, PERFECT, FindsTheTool(), ks, maxK)
  {
    PerfectRecall(maxK, k);
    RecallIsReportedExactlyWhen(ReportOf(PERFECT, FindsTheTool(), ks, maxK, d), PERFECT, FindsTheTool(), ks, maxK, d);
  }

  /** The recall reported for each cutoff is its mean, for every golden set and
      every search, exactly when no positive cutoff is listed twice. */
  lemma {:induction false} ReportedRecallIsTheMean(ks: seq<int>, maxK: int, d: Discount)
    ensures NoPositiveCutoffTwice(ks) <==>
      forall queries, search, m | Succeeds(queries, search, maxK) && Reports(m, queries, search, ks, maxK, d) ::
        ReportsMeanRecall(m, queries, search, ks, maxK)
  {
    hide Reports, ReportsMeanRecall, ReportOf, FindsTheTool, PERFECT;
    if NoPositiveCutoffTwice(ks) {
      forall queries, search, m | Succeeds(queries, search, maxK) && Reports(m, queries, search, ks, maxK, d)
        ensures ReportsMeanRecall(m, queries, search, ks, maxK)
      {
        OtherCutoffsAreReported(m, queries, search, ks, maxK, d);
      }
    } else {
      var k :| k in ks && k > 0 && Occurrences(ks, k) != 1;
      PositiveCutoffIsMisreported(ks, k, maxK, d);
    }
  }

  /** One query with one relevant tool, and a search that ranks this tool first. */
  const PERFECT: seq<GoldenQuery> := [GoldenQuery("q", "find t", [Label("t", 1)])]

  function FindsTheTool(): SearchFunc {
    (query: string, limit: int) => Ranked(["t"])
  }

  function ReportOf(queries: seq<GoldenQuery>, search: SearchFunc, ks: seq<int>, maxK: int, d: Discount): (m: Metrics)
    requires queries != []
    ensures Reports(m, queries, search, ks, maxK, d)
  {
    Metrics(map k | k in ks :: Listed(ks, k, Mean(queries, RecallScore(search, maxK, k))),
            Mean(queries, RankScore(search, maxK)),
            Mean(queries, NdcgScore(search, maxK, d)),
            Mean(queries, PrecisionScore(search, maxK)))
  }

  lemma {:induction false} PerfectRecall(maxK: int, k: int)
    requires k > 0
    ensures Mean(PERFECT, RecallScore(FindsTheTool(), maxK, k)) == 1.0
  {
    var labels := [Label("t", 1)];
    assert ["t"][..0] == [] && Gains(["t"], labels) == [1] && [1][..0] == [];
    assert Top([1], k) == [1] && Positives([1]) == [1] && Relevances(labels) == [1];
    assert Recall(["t"], labels, k) == 1.0;
    var score := RecallScore(FindsTheTool(), maxK, k);
    assert FindsTheTool()("find t", maxK).Ids() == ["t"];
    assert score(PERFECT[0]) == 1.0;
    hide Recall, RecallScore;
    assert Total(PERFECT, 0, score) == 0.0;
    assert Total(PERFECT, 1, score) == 1.0;
  }

  datatype Sums = Sums(recall: map<int, real>, rank: real, ndcg: real, precision: real)

  /** The accumulators of `ScoreRetrieval` after the first n queries. */
  function SumsAfter(queries: seq<GoldenQuery>, n: nat, search: SearchFunc, ks: seq<int>, maxK: int, d: Discount): Sums
    requires n <= |queries|
  {
    if n == 0 then Sums(map[], 0.0, 0.0, 0.0)
    else
      var s, q := SumsAfter(queries, n - 1, search, ks, maxK, d), queries[n - 1];
      var ids := search(q.query, maxK).Ids();
      Sums(PlusRecalls(s.recall, ks, |ks|, ids, q.labels), s.rank + ReciprocalRank(ids, q.labels),
           s.ndcg + Ndcg(ids, q.labels, 10, d), s.precision + AveragePrecision(ids, q.labels))
  }

  lemma {:induction false} SumsAreTotals(queries: seq<GoldenQuery>, n: nat, search: SearchFunc, ks: seq<int>,
                                         maxK: int, d: Discount)
    requires n <= |queries|
    ensures var s := SumsAfter(queries, n, search, ks, maxK, d);
            s.rank == Total(queries, n, RankScore(search, maxK))
            && s.ndcg == Total(queries, n, NdcgScore(search, maxK, d))
            && s.precision == Total(queries, n, PrecisionScore(search, maxK))
  {
    hide Recall, ReciprocalRank, Ndcg, AveragePrecision;
    if n > 0 {
      SumsAreTotals(queries, n - 1, search, ks, maxK, d);
    }
  }

  lemma {:induction false} RecallSumsAreTotals(queries: seq<GoldenQuery>, n: nat, search: SearchFunc, ks: seq<int>,
                                               maxK: int, d: Discount, k: int)
    requires n <= |queries|
    ensures Lookup(SumsAfter(queries, n, search, ks, maxK, d).recall, k)
         == Listed(ks, k, Total(queries, n, RecallScore(search, maxK, k)))
  {
    hide Recall, ReciprocalRank, Ndcg, AveragePrecision;
    if n == 0 {
      assert Listed(ks, k, 0.0) == 0.0;
    } else {
      RecallSumsAreTotals(queries, n - 1, search, ks, maxK, d, k);
      var q, s := queries[n - 1], SumsAfter(queries, n - 1, search, ks, maxK, d);
      var ids := search(q.query, maxK).Ids();
      PlusRecallsAdds(s.recall, ks, |ks|, ids, q.labels, k);
      assert ks[..|ks|] == ks;
      TimesSum(Occurrences(ks, k) as real, Total(queries, n - 1, RecallScore(search, maxK, k)),
               Recall(ids, q.labels, k));
    }
  }

  /** The loop body for the i-th query. */
  method AddQuery(s: Sums, queries: seq<GoldenQuery>, i: nat, search: SearchFunc, ks: seq<int>,
                  maxK: int, d: Discount) returns (r: Sums)
    requires i < |queries| && search(queries[i].query, maxK).Ranked?
    requires s == SumsAfter(queries, i, search, ks, maxK, d)
    ensures r == SumsAfter(queries, i + 1, search, ks, maxK, d)
  {
    hide Recall, ReciprocalRank, Ndcg, AveragePrecision;
    var q := queries[i];
    var ids := search(q.query, maxK).ids;
    var recall := AddRecalls(s.recall, ks, ids, q.labels);
    var rank := ComputeReciprocalRank(ids, q.labels);
    var ndcg := NdcgAtK(ids, q.labels, 10, d);
    var precision := ComputeAveragePrecision(ids, q.labels);
    r := Sums(recall, s.rank + rank, s.ndcg + ndcg, s.precision + precision);
  }

  /** Dividing the sums by the number of queries. */
  /** m is the arithmetic mean of the values. */
  ghost predicate IsMean(m: real, values: seq<real>) {
    values != [] && m * |values| as real == RealSum(values)
  }

  ghost function Ndcgs(queries: seq<GoldenQuery>, search: SearchFunc, maxK: int, d: Discount): seq<real> {
    seq(|queries|, i requires 0 <= i < |queries| =>
      Ndcg(search(queries[i].query, maxK).Ids(), queries[i].labels, 10, d))
  }

  ghost function Precisions(queries: seq<GoldenQuery>, search: SearchFunc, maxK: int): seq<real> {
    seq(|queries|, i requires 0 <= i < |queries| =>
      AveragePrecision(search(queries[i].query, maxK).Ids(), queries[i].labels))
  }

  ghost function Recalls(queries: seq<GoldenQuery>, search: SearchFunc, maxK: int, k: int): seq<real> {
    seq(|queries|, i requires 0 <= i < |queries| =>
      Recall(search(queries[i].query, maxK).Ids(), queries[i].labels, k))
  }

  ghost predicate AreReciprocalRanks(values: seq<real>, queries: seq<GoldenQuery>, search: SearchFunc, maxK: int) {
    && |values| == |queries|
    && forall i | 0 <= i < |queries| ::
         IsReciprocalRank(values[i], search(queries[i].query, maxK).Ids(), queries[i].labels)
  }

  /** MRR, nDCG at 10 and MAP are the means over all queries, and the recall at k
      is the mean times the number of listings of k. */
  ghost predicate ReportsMeans(m: Metrics, queries: seq<GoldenQuery>, search: SearchFunc, ks: seq<int>, maxK: int,
                               d: Discount) {
    && (exists ranks: seq<real> :: AreReciprocalRanks(ranks, queries, search, maxK) && IsMean(m.mrr, ranks))
    && IsMean(m.ndcgAt10, Ndcgs(queries, search, maxK, d))
    && IsMean(m.meanAp, Precisions(queries, search, maxK))
    && forall k <- ks :: k in m.recallAt &&
         m.recallAt[k] * |queries| as real == multiset(ks)[k] as real * RealSum(Recalls(queries, search, maxK, k))
  }

  lemma {:induction false} TotalIsTheSum(queries: seq<GoldenQuery>, n: nat, score: Score, values: seq<real>)
    requires n <= |queries| == |values| && forall i | 0 <= i < |queries| :: values[i] == score(queries[i])
    ensures Total(queries, n, score) == RealSum(values[..n])
  {
    if n > 0 {
      TotalIsTheSum(queries, n - 1, score, values);
      hide RealSum;
      assert values[..n] == values[..n - 1] + [values[n - 1]];
      RealSumAppend(values[..n - 1], values[n - 1]);
    } else {
      assert values[..n] == [];
    }
  }

  lemma {:induction false} MeanIsTheMean(queries: seq<GoldenQuery>, score: Score, values: seq<real>)
    requires queries != [] && |queries| == |values|
    requires forall i | 0 <= i < |queries| :: values[i] == score(queries[i])
    ensures IsMean(Mean(queries, score), values)
  {
    TotalIsTheSum(queries, |queries|, score, values);
    assert values[..|queries|] == values;
    hide Total, RealSum;
    QuotientBack(RealSum(values), |queries| as real);
  }

  lemma {:induction false} OccurrencesAreMultiplicity(ks: seq<int>, k: int)
    ensures Occurrences(ks, k) == multiset(ks)[k]
  {
    if ks != [] {
      OccurrencesAreMultiplicity(ks[..|ks| - 1], k);
      assert ks == ks[..|ks| - 1] + [ks[|ks| - 1]];
    }
  }

  lemma {:induction false} ListedMean(ks: seq<int>, k: int, mean: real, values: seq<real>)
    requires IsMean(mean, values)
    ensures Listed(ks, k, mean) * |values| as real == Occurrences(ks, k) as real * RealSum(values)
  {
    hide RealSum, Occurrences;
    assert Listed(ks, k, mean) * |values| as real == Occurrences(ks, k) as real * (mean * |values| as real);
  }

  lemma {:induction false} ReportedMeansAreMeans(m: Metrics, queries: seq<GoldenQuery>, search: SearchFunc,
                                                 ks: seq<int>, maxK: int, d: Discount)
    requires queries != [] && Reports(m, queries, search, ks, maxK, d)
    ensures ReportsMeans(m, queries, search, ks, maxK, d)
  {
    hide Mean, IsMean, Recall, Recalls, AreReciprocalRanks, RealSum, Ndcg, AveragePrecision;
    MeanIsTheMean(queries, NdcgScore(search, maxK, d), Ndcgs(queries, search, maxK, d));
    MeanIsTheMean(queries, PrecisionScore(search, maxK), Precisions(queries, search, maxK));
    MeanOfRanks(queries, search, maxK);
    forall k | k in ks
      ensures m.recallAt[k] * |queries| as real == multiset(ks)[k] as real * RealSum(Recalls(queries, search, maxK, k))
    {
      MeanOfRecalls(queries, search, ks, maxK, k);
    }
  }

  lemma {:induction false} MeanOfRanks(queries: seq<GoldenQuery>, search: SearchFunc, maxK: int)
    requires queries != []
    ensures exists ranks: seq<real> ::
      AreReciprocalRanks(ranks, queries, search, maxK) && IsMean(Mean(queries, RankScore(search, maxK)), ranks)
  {
    hide Mean, IsMean, ReciprocalRank, IsReciprocalRank;
    var ranks := seq(|queries|, i requires 0 <= i < |queries| =>
      ReciprocalRank(search(queries[i].query, maxK).Ids(), queries[i].labels));
    MeanIsTheMean(queries, RankScore(search, maxK), ranks);
    forall i | 0 <= i < |queries|
      ensures IsReciprocalRank(ranks[i], search(queries[i].query, maxK).Ids(), queries[i].labels)
    {
      ReciprocalRankIsMet(search(queries[i].query, maxK).Ids(), queries[i].labels);
    }
  }

  lemma {:induction false} MeanOfRecalls(queries: seq<GoldenQuery>, search: SearchFunc, ks: seq<int>, maxK: int, k: int)
    requires queries != []
    ensures Listed(ks, k, Mean(queries, RecallScore(search, maxK, k))) * |queries| as real
         == multiset(ks)[k] as real * RealSum(Recalls(queries, search, maxK, k))
  {
    hide Mean, IsMean, Recall, Listed, RealSum;
    OccurrencesAreMultiplicity(ks, k);
    MeanIsTheMean(queries, RecallScore(search, maxK, k), Recalls(queries, search, maxK, k));
    ListedMean(ks, k, Mean(queries, RecallScore(search, maxK, k)), Recalls(queries, search, maxK, k));
  }

  method MeanMetrics(sums: Sums, queries: seq<GoldenQuery>, search: SearchFunc, ks: seq<int>,
                     maxK: int, d: Discount) returns (m: Metrics)
    requires queries != [] && sums == SumsAfter(queries, |queries|, search, ks, maxK, d)
    ensures Reports(m, queries, search, ks, maxK, d)
  {
    var n := |queries| as real;
    var recallAt := MeansOf(sums.recall, ks, n);
    SumsAreTotals(queries, |queries|, search, ks, maxK, d);
    forall k <- ks ensures recallAt[k] == Listed(ks, k, Mean(queries, RecallScore(search, maxK, k))) {
      RecallSumsAreTotals(queries, |queries|, search, ks, maxK, d, k);
      TimesQuotient(Occurrences(ks, k) as real, Total(queries, |queries|, RecallScore(search, maxK, k)), n);
    }
    m := Metrics(recallAt, sums.rank / n, sums.ndcg / n, sums.precision / n);
  }

  /** The loop over the queries; `failed` is the position of the first failing search. */
  method AddQueries(queries: seq<GoldenQuery>, search: SearchFunc, ks: seq<int>, maxK: int, d: Discount)
      returns (sums: Sums, failed: nat)
    ensures failed <= |queries| && forall j | 0 <= j < failed :: search(queries[j].query, maxK).Ranked?
    ensures failed < |queries| ==> search(queries[failed].query, maxK).SearchFailed?
    ensures sums == SumsAfter(queries, failed, search, ks, maxK, d)
  {
    hide Recall, ReciprocalRank, Ndcg, AveragePrecision;
    sums := Sums(map[], 0.0, 0.0, 0.0);
    failed := 0;
    while failed < |queries|
      invariant failed <= |queries| && forall j | 0 <= j < failed :: search(queries[j].query, maxK).Ranked?
      invariant sums == SumsAfter(queries, failed, search, ks, maxK, d)
    {
      if search(queries[failed].query, maxK).SearchFailed? {
        return;
      }
      sums := AddQuery(sums, queries, failed, search, ks, maxK, d);
      failed := failed + 1;
    }
  }

  ghost predicate FailsFirst(queries: seq<GoldenQuery>, search: SearchFunc, maxK: int, i: nat) {
    i < |queries| && search(queries[i].query, maxK).SearchFailed? &&
    forall j | 0 <= j < i :: search(queries[j].query, maxK).Ranked?
  }

  method ScoreRetrieval(queries: seq<GoldenQuery>, search: SearchFunc, ks: seq<int>, d: Discount)
      returns (report: Report, maxK: int)
    ensures maxK >= 10 && (forall k <- ks :: k <= maxK) && (maxK == 10 || maxK in ks)
    ensures report.EmptyGoldenSet? <==> queries == []
    ensures report.QueryFailed? <==> exists q <- queries :: search(q.query, maxK).SearchFailed?
    ensures report.QueryFailed? ==> exists i: nat :: FailsFirst(queries, search, maxK, i) && queries[i].id == report.id
    ensures report.Scored? ==> Reports(report.metrics, queries, search, ks, maxK, d)
    ensures report.Scored? ==> ReportsMeans(report.metrics, queries, search, ks, maxK, d)
  {
    hide SumsAfter, Reports, ReportsMeans;
    maxK := MaxCutoff(ks);
    if queries == [] {
      return EmptyGoldenSet, maxK;
    }
    var sums, failed := AddQueries(queries, search, ks, maxK, d);
    if failed < |queries| {
      assert FailsFirst(queries, search, maxK, failed);
      return QueryFailed(queries[failed].id), maxK;
    }
    var metrics := MeanMetrics(sums, queries, search, ks, maxK, d);
    ReportedMeansAreMeans(metrics, queries, search, ks, maxK, d);
    report := Scored(metrics);
  }

  /** Two listings of a positive cutoff double what is reported, though no recall exceeds 1. */
  method DoubledRecall(k: int, d: Discount) returns (recall: real)
    requires k > 0
    ensures recall == 2.0
  {
    hide ReportsMeans;
    var report, maxK := ScoreRetrieval(PERFECT, FindsTheTool(), [k, k], d);
    PerfectRecall(maxK, k);
    assert [k, k][..1] == [k] && [k][..0] == [] && Occurrences([k], k) == 1;
    assert Occurrences([k, k], k) == 2 && k in [k, k];
    recall := report.metrics.recallAt[k];
  }
}
