/**
Interpolated percentiles and the SLA verdict of the load test (`scripts/perf/search_load.py`), over exact reals.
*/
module Percentiles {
  import opened Ordering


  // ---------------------------------------------------------------------- products of reals

  lemma Nonnegative(a: real, b: real)
    requires a >= 0.0 && b >= 0.0
    ensures a * b >= 0.0
  {
  }

  lemma Steeper(d: real, t: real, u: real)
    requires d >= 0.0 && t <= u
    ensures t * d <= u * d
  {
    Nonnegative(u - t, d);
    assert (u - t) * d == u * d - t * d;
  }

  lemma StrictlySteeper(d: real, t: real, u: real)
    requires d > 0.0 && t < u
    ensures t * d < u * d
  {
    assert (u - t) * d > 0.0;
    assert (u - t) * d == u * d - t * d;
  }

  lemma QuotientBelow(e: real, t: real, r: real)
    requires t > 0.0
    ensures e / t < r <==> e < r * t
    ensures e / t <= r <==> e <= r * t
  {
    var q := e / t;
    assert q * t == e;
    if q < r { StrictlySteeper(t, q, r); }
    if q > r { StrictlySteeper(t, r, q); }
  }

  // ---------------------------------------------------------------------- rounding to two decimals

  // Half to even, as `round` does.
  function RoundHalfEven(x: real): int {
    var f := x.Floor;
    var d := x - f as real;
    if d < 0.5 || (d == 0.5 && f % 2 == 0) then f else f + 1
  }

  function Round2(x: real): real {
    RoundHalfEven(x * 100.0) as real / 100.0
  }

  lemma RoundMonotone(x: real, y: real)
    requires x <= y
    ensures RoundHalfEven(x) <= RoundHalfEven(y)
  {
    if x.Floor < y.Floor {
    } else {
      assert x.Floor == y.Floor;
    }
  }

  lemma Round2Monotone(x: real, y: real)
    requires x <= y
    ensures Round2(x) <= Round2(y)
  {
    RoundMonotone(x * 100.0, y * 100.0);
  }

  /** Rounding shifts a value by at most 0.005. */
  lemma Round2Shift(x: real)
    ensures x - 0.005 <= Round2(x) <= x + 0.005
  {
    var y := x * 100.0;
    assert y - 0.5 <= RoundHalfEven(y) as real <= y + 0.5;
  }

  // ---------------------------------------------------------------------- sorting

  ghost predicate Ascending(s: seq<real>) {
    forall i, j :: 0 <= i < j < |s| ==> s[i] <= s[j]
  }

  function AtMost(): Order<real> { (x: real, y: real) => x <= y }

  function Sort(s: seq<real>): seq<real> { Sorted(s, AtMost()) }

  lemma SortSorts(s: seq<real>)
    ensures Ascending(Sort(s)) && |Sort(s)| == |s| && multiset(Sort(s)) == multiset(s)
  {
    SortedSorts(s, AtMost());
    var r := Sort(s);
    forall i, j | 0 <= i < j < |r| ensures r[i] <= r[j] { assert AtMost()(r[i], r[j]); }
  }

  lemma LastIsGreatest(s: seq<real>, x: real)
    requires Ascending(s) && x in s
    ensures x <= s[|s| - 1]
  {
  }

  lemma DropLast(s: seq<real>)
    requires s != []
    ensures multiset(s[..|s| - 1]) == multiset(s) - multiset{s[|s| - 1]}
  {
    assert s == s[..|s| - 1] + [s[|s| - 1]];
  }

  lemma InMultiset(s: seq<real>, t: seq<real>, x: real)
    requires multiset(s) == multiset(t) && x in s
    ensures x in t
  {
    assert x in multiset(s);
  }

  lemma SameSize(s: seq<real>, t: seq<real>)
    requires multiset(s) == multiset(t)
    ensures |s| == |t|
  {
    assert |multiset(s)| == |s| && |multiset(t)| == |t|;
  }

  lemma SameLast(a: seq<real>, b: seq<real>)
    requires Ascending(a) && Ascending(b) && multiset(a) == multiset(b) && a != []
    ensures b != [] && a[|a| - 1] == b[|b| - 1]
    ensures multiset(a[..|a| - 1]) == multiset(b[..|b| - 1])
  {
    InMultiset(a, b, a[|a| - 1]);
    InMultiset(b, a, b[|b| - 1]);
    LastIsGreatest(a, b[|b| - 1]);
    LastIsGreatest(b, a[|a| - 1]);
    DropLast(a);
    DropLast(b);
  }

  lemma {:induction false} AscendingIsUnique(a: seq<real>, b: seq<real>)
    requires Ascending(a) && Ascending(b) && multiset(a) == multiset(b)
    ensures a == b
    decreases |a|
  {
    if a != [] {
      SameLast(a, b);
      AscendingIsUnique(a[..|a| - 1], b[..|b| - 1]);
      assert a == a[..|a| - 1] + [a[|a| - 1]] && b == b[..|b| - 1] + [b[|b| - 1]];
    } else {
      SameSize(a, b);
    }
  }

  // ---------------------------------------------------------------------- percentiles

  // `(n - 1) * p`, and its integer part.
  function Rank(n: nat, p: real): real { Times(n as real - 1.0, p) }

  function Times(a: real, b: real): real { a * b }

  function Floor(x: real): int { x.Floor }

  function Index(n: nat, p: real): int { Floor(Rank(n, p)) }

  lemma IndexInside(n: nat, p: real)
    requires n > 0 && 0.0 <= p <= 1.0
    ensures 0 <= Index(n, p) < n && 0.0 <= Rank(n, p) <= n as real - 1.0
  {
    RankInside(n, p);
    FloorInside(Rank(n, p), n);
  }

  lemma RankInside(n: nat, p: real)
    requires n > 0 && 0.0 <= p <= 1.0
    ensures 0.0 <= Rank(n, p) <= n as real - 1.0
  {
    Inside(n as real - 1.0, p);
  }

  lemma FloorInside(x: real, n: nat)
    requires 0.0 <= x <= n as real - 1.0
    ensures 0 <= Floor(x) < n
  {
  }

  lemma Inside(m: real, p: real)
    requires m >= 0.0 && 0.0 <= p <= 1.0
    ensures 0.0 <= Times(m, p) <= m
  {
    Nonnegative(m, p);
    Nonnegative(m, 1.0 - p);
    assert m * (1.0 - p) == m - m * p;
  }

  function Interpolate(a: real, b: real, t: real): real { a + t * (b - a) }

  // The interpolated percentile of a sorted list. The index never leaves it.
  function Pct(s: seq<real>, p: real): real
    requires s != [] && 0.0 <= p <= 1.0
  {
    IndexInside(|s|, p);
    var k := Rank(|s|, p);
    var f := Index(|s|, p);
    if f + 1 < |s| then Interpolate(s[f], s[f + 1], k - f as real) else s[f]
  }

  lemma Between(a: real, b: real, t: real)
    requires a <= b && 0.0 <= t <= 1.0
    ensures a <= Interpolate(a, b, t) <= b
  {
    Nonnegative(t, b - a);
    Steeper(b - a, t, 1.0);
  }

  lemma InterpolateMonotone(a: real, b: real, t: real, u: real)
    requires a <= b && t <= u
    ensures Interpolate(a, b, t) <= Interpolate(a, b, u)
  {
    Steeper(b - a, t, u);
  }

  // A percentile lies between the two samples around it.
  lemma PctAround(s: seq<real>, p: real)
    requires s != [] && 0.0 <= p <= 1.0 && Ascending(s)
    ensures var f := Index(|s|, p);
            0 <= f < |s| && s[f] <= Pct(s, p) <= (if f + 1 < |s| then s[f + 1] else s[f])
  {
    IndexInside(|s|, p);
    var f := Index(|s|, p);
    if f + 1 < |s| {
      Between(s[f], s[f + 1], Rank(|s|, p) - f as real);
    }
  }

  lemma FloorMonotone(x: real, y: real)
    requires x <= y
    ensures Floor(x) <= Floor(y)
  {
  }

  lemma RankMonotone(n: nat, p: real, q: real)
    requires n > 0 && 0.0 <= p <= q <= 1.0
    ensures Rank(n, p) <= Rank(n, q)
  {
    Steeper(n as real - 1.0, p, q);
  }

  /** Percentiles grow with p, within a segment and across segments. */
  lemma PctMonotone(s: seq<real>, p: real, q: real)
    requires s != [] && 0.0 <= p <= q <= 1.0 && Ascending(s)
    ensures Pct(s, p) <= Pct(s, q)
  {
    RankMonotone(|s|, p, q);
    PctAround(s, p);
    PctAround(s, q);
    var f, g := Index(|s|, p), Index(|s|, q);
    if f == g {
      if f + 1 < |s| {
        InterpolateMonotone(s[f], s[f + 1], Rank(|s|, p) - f as real, Rank(|s|, q) - f as real);
      } else {
        assert Pct(s, p) == s[f] == Pct(s, q);
      }
    } else {
      FloorMonotone(Rank(|s|, p), Rank(|s|, q));
      assert f < g;
      assert s[f + 1] <= s[g];
    }
  }

  // The mixture of two neighbours.
  function Mix(s: seq<real>, i: nat, t: real): real
    requires i + 1 < |s|
  {
    (1.0 - t) * s[i] + t * s[i + 1]
  }

  lemma InterpolateIsAMixture(s: seq<real>, i: nat, t: real)
    requires i + 1 < |s|
    ensures Interpolate(s[i], s[i + 1], t) == Mix(s, i, t)
    ensures Mix(s, i, 0.0) == s[i] && Mix(s, i, 1.0) == s[i + 1]
  {
    assert t * (s[i + 1] - s[i]) == t * s[i + 1] - t * s[i];
  }

  lemma IndexOf(n: nat, p: real, i: nat, t: real)
    requires p * (n as real - 1.0) == i as real + t && 0.0 <= t < 1.0
    ensures Index(n, p) == i && Rank(n, p) - i as real == t
  {
  }

  /** The percentile at position `i + t` of a list mixes its neighbours there in the proportion `t`. Both ends of a
      segment are included, so percentiles do not jump from one to the next. */
  lemma PctInterpolates(s: seq<real>, p: real, i: nat, t: real)
    requires i + 1 < |s| && 0.0 <= p <= 1.0 && 0.0 <= t <= 1.0
    requires p * (|s| as real - 1.0) == i as real + t
    ensures Pct(s, p) == Mix(s, i, t)
  {
    InterpolateIsAMixture(s, i, t);
    if t < 1.0 {
      IndexOf(|s|, p, i, t);
    } else {
      IndexOf(|s|, p, i + 1, 0.0);
      if i + 2 < |s| { InterpolateIsAMixture(s, i + 1, 0.0); }
    }
  }

  // The percentile of a single sample is that sample.
  lemma PctOfOne(s: seq<real>, p: real)
    requires |s| == 1 && 0.0 <= p <= 1.0
    ensures Pct(s, p) == s[0]
  {
    IndexInside(1, p);
  }

  // At the position of a sample the percentile is the sample.
  lemma PctAtASample(s: seq<real>, p: real, i: nat)
    requires i < |s| && 0.0 <= p <= 1.0 && p * (|s| as real - 1.0) == i as real
    ensures Pct(s, p) == s[i]
  {
    if |s| == 1 {
      PctOfOne(s, p);
    } else if i + 1 < |s| {
      PctInterpolates(s, p, i, 0.0);
      InterpolateIsAMixture(s, i, 0.0);
    } else {
      PctInterpolates(s, p, i - 1, 1.0);
      InterpolateIsAMixture(s, i - 1, 1.0);
    }
  }

  function Sum(s: seq<real>): real {
    if s == [] then 0.0 else Sum(s[..|s| - 1]) + s[|s| - 1]
  }

  function Average(s: seq<real>): real
    requires s != []
  {
    Sum(s) / |s| as real
  }

  datatype Stats = Stats(min: real, max: real, avg: real, p50: real, p90: real, p95: real, p99: real)

  function CalculatePercentiles(values: seq<real>): Stats {
    if values == [] then Stats(0.0, 0.0, 0.0, 0.0, 0.0, 0.0, 0.0)
    else
      SortSorts(values);
      var s := Sort(values);
      Stats(Round2(s[0]), Round2(s[|s| - 1]), Round2(Average(s)),
            Round2(Pct(s, 0.50)), Round2(Pct(s, 0.90)), Round2(Pct(s, 0.95)), Round2(Pct(s, 0.99)))
  }

  lemma {:induction false} SumBounds(s: seq<real>, low: real, high: real)
    requires forall i :: 0 <= i < |s| ==> low <= s[i] <= high
    ensures |s| as real * low <= Sum(s) <= |s| as real * high
  {
    if s != [] {
      SumBounds(s[..|s| - 1], low, high);
      OneMore(|s| - 1, low);
      OneMore(|s| - 1, high);
    }
  }

  lemma OneMore(n: nat, x: real)
    ensures (n + 1) as real * x == n as real * x + x
  {
    assert (n + 1) as real == n as real + 1.0;
  }

  lemma AverageBounds(s: seq<real>)
    requires s != [] && Ascending(s)
    ensures s[0] <= Average(s) <= s[|s| - 1]
  {
    AverageWithin(s, s[0], s[|s| - 1]);
  }

  lemma AverageWithin(s: seq<real>, low: real, high: real)
    requires s != [] && forall i :: 0 <= i < |s| ==> low <= s[i] <= high
    ensures low <= Average(s) <= high
  {
    SumBounds(s, low, high);
    AverageBetween(Sum(s), |s| as real, low, high);
  }

  lemma AverageBetween(sum: real, n: real, low: real, high: real)
    requires n > 0.0 && n * low <= sum <= n * high
    ensures low <= sum / n <= high
  {
    QuotientBelow(sum, n, high);
    QuotientBelow(sum, n, low);
  }

  lemma SortedStatsAreOrdered(s: seq<real>)
    requires s != [] && Ascending(s)
    ensures s[0] <= Pct(s, 0.50) <= Pct(s, 0.90) <= Pct(s, 0.95) <= Pct(s, 0.99) <= s[|s| - 1]
  {
    PctAround(s, 0.50);
    PctAround(s, 0.99);
    PctMonotone(s, 0.50, 0.90);
    PctMonotone(s, 0.90, 0.95);
    PctMonotone(s, 0.95, 0.99);
  }

  lemma RoundedStatsAreOrdered(a: real, b: real, c: real, d: real, e: real, f: real, avg: real)
    requires a <= b <= c <= d <= e <= f && a <= avg <= f
    ensures Round2(a) <= Round2(b) <= Round2(c) <= Round2(d) <= Round2(e) <= Round2(f)
    ensures Round2(a) <= Round2(avg) <= Round2(f)
  {
    Round2Monotone(a, b);
    Round2Monotone(b, c);
    Round2Monotone(c, d);
    Round2Monotone(d, e);
    Round2Monotone(e, f);
    Round2Monotone(a, avg);
    Round2Monotone(avg, f);
  }

  /** For any samples: the percentiles are in order between the minimum and the maximum, the average is between
      them too, and all of it survives the rounding. */
  lemma StatsAreOrdered(values: seq<real>)
    ensures var r := CalculatePercentiles(values);
            r.min <= r.p50 <= r.p90 <= r.p95 <= r.p99 <= r.max && r.min <= r.avg <= r.max
  {
    if values != [] {
      SortSorts(values);
      var s := Sort(values);
      SortedStatsAreOrdered(s);
      AverageBounds(s);
      RoundedStatsAreOrdered(
        s[0], Pct(s, 0.50), Pct(s, 0.90), Pct(s, 0.95), Pct(s, 0.99), s[|s| - 1], Average(s));
    }
  }

  /** The order in which the samples were taken does not matter. */
  lemma StatsIgnoreOrder(a: seq<real>, b: seq<real>)
    requires multiset(a) == multiset(b)
    ensures CalculatePercentiles(a) == CalculatePercentiles(b)
  {
    SortSorts(a);
    SortSorts(b);
    AscendingIsUnique(Sort(a), Sort(b));
    SameSize(a, b);
  }

  // The sum is the one function that adds over concatenation and is the sample for one sample.
  lemma {:induction false} SumAdds(a: seq<real>, b: seq<real>)
    ensures Sum(a + b) == Sum(a) + Sum(b) && Sum([]) == 0.0
    ensures |b| == 1 ==> Sum(b) == b[0]
  {
    if b == [] {
      assert a + b == a;
    } else {
      assert (a + b)[..|a + b| - 1] == a + b[..|b| - 1];
      SumAdds(a, b[..|b| - 1]);
    }
  }

  /** What the statistics of n samples are: the least and the greatest of them, their sum over n, and, where a position
      `p (n - 1)` is `i + t`, the mixture of the two samples around it in the ordered list; each rounded. */
  lemma StatsMean(values: seq<real>, i: nat, t: real)
    requires i + 1 < |values| && 0.0 <= t <= 1.0
    ensures |Sort(values)| == |values|
    ensures var r, s, n := CalculatePercentiles(values), Sort(values), |values| as real;
            && (0.50 * (n - 1.0) == i as real + t ==> r.p50 == Round2(Mix(s, i, t)))
            && (0.90 * (n - 1.0) == i as real + t ==> r.p90 == Round2(Mix(s, i, t)))
            && (0.95 * (n - 1.0) == i as real + t ==> r.p95 == Round2(Mix(s, i, t)))
            && (0.99 * (n - 1.0) == i as real + t ==> r.p99 == Round2(Mix(s, i, t)))
  {
    SortSorts(values);
    var s, n := Sort(values), |values| as real;
    if 0.50 * (n - 1.0) == i as real + t { PctInterpolates(s, 0.50, i, t); }
    if 0.90 * (n - 1.0) == i as real + t { PctInterpolates(s, 0.90, i, t); }
    if 0.95 * (n - 1.0) == i as real + t { PctInterpolates(s, 0.95, i, t); }
    if 0.99 * (n - 1.0) == i as real + t { PctInterpolates(s, 0.99, i, t); }
  }

  lemma EndsOfSorted(values: seq<real>, low: real, high: real)
    requires low in values && high in values && forall x :: x in values ==> low <= x <= high
    ensures |Sort(values)| == |values| && Sort(values)[0] == low && Sort(values)[|values| - 1] == high
  {
    SortSorts(values);
    var s := Sort(values);
    SameSize(s, values);
    InMultiset(values, s, low);
    InMultiset(values, s, high);
    InMultiset(s, values, s[0]);
    InMultiset(s, values, s[|s| - 1]);
    LastIsGreatest(s, high);
  }

  lemma ExtremesAndAverage(values: seq<real>, low: real, high: real)
    requires low in values && high in values && forall x :: x in values ==> low <= x <= high
    ensures CalculatePercentiles(values).min == Round2(low) && CalculatePercentiles(values).max == Round2(high)
    ensures CalculatePercentiles(values).avg == Round2(Sum(values) / |values| as real)
  {
    EndsOfSorted(values, low, high);
    SortedSum(values);
  }

  lemma SortedSum(values: seq<real>)
    ensures Sum(Sort(values)) == Sum(values)
  {
    SortSorts(values);
    SameSum(values, Sort(values));
  }

  lemma NoSamplesGiveZeros()
    ensures var r := CalculatePercentiles([]);
            forall x :: x in [r.min, r.max, r.avg, r.p50, r.p90, r.p95, r.p99] ==> x == 0.0
  {
  }

  // The order of the samples does not change their sum.
  lemma {:induction false} SameSum(a: seq<real>, b: seq<real>)
    requires multiset(a) == multiset(b)
    ensures Sum(a) == Sum(b)
    decreases |a|
  {
    if a == [] {
      SameSize(a, b);
    } else {
      var last := a[|a| - 1];
      InMultiset(a, b, last);
      var i :| 0 <= i < |b| && b[i] == last;
      DropLast(a);
      var rest := TakenOut(b, i);
      SameSum(a[..|a| - 1], rest);
    }
  }

  // A list without one of its samples.
  lemma TakenOut(b: seq<real>, i: nat) returns (rest: seq<real>)
    requires i < |b|
    ensures multiset(rest) == multiset(b) - multiset{b[i]} && Sum(b) == Sum(rest) + b[i]
  {
    var front, back := b[..i], b[i + 1..];
    rest := front + back;
    assert b == front + ([b[i]] + back);
    SumAdds(front, [b[i]] + back);
    SumAdds([b[i]], back);
    SumAdds([], [b[i]]);
    SumAdds(front, back);
  }

  // ---------------------------------------------------------------------- what a percentile says of the samples

  // How many samples are at most `t`.
  function CountLeq(s: seq<real>, t: real): nat {
    if s == [] then 0 else CountLeq(s[..|s| - 1], t) + if s[|s| - 1] <= t then 1 else 0
  }

  lemma {:induction false} CountLeqAtMost(s: seq<real>, t: real)
    ensures CountLeq(s, t) <= |s|
  {
    if s != [] { CountLeqAtMost(s[..|s| - 1], t); }
  }

  lemma {:induction false} CountLeqInsert(s: seq<real>, x: real, t: real)
    ensures CountLeq(Insert(s, x, AtMost()), t) == CountLeq(s, t) + if x <= t then 1 else 0
  {
    if s == [] || s[|s| - 1] <= x {
      assert Insert(s, x, AtMost())[..|s|] == s;
    } else {
      var front := s[..|s| - 1];
      CountLeqInsert(front, x, t);
      var r := Insert(s, x, AtMost());
      assert r == Insert(front, x, AtMost()) + [s[|s| - 1]];
      assert r[..|r| - 1] == Insert(front, x, AtMost());
    }
  }

  lemma {:induction false} CountLeqSort(s: seq<real>, t: real)
    ensures CountLeq(Sort(s), t) == CountLeq(s, t)
  {
    if s != [] {
      assert Sort(s) == Insert(Sort(s[..|s| - 1]), s[|s| - 1], AtMost());
      CountLeqSort(s[..|s| - 1], t);
      CountLeqInsert(Sort(s[..|s| - 1]), s[|s| - 1], t);
    }
  }

  // In a sorted list a sample at most `t` has all before it at most `t`, and one above has all after it above.
  lemma {:induction false} CountLeqSorted(s: seq<real>, t: real, i: nat)
    requires Ascending(s) && i < |s|
    ensures s[i] <= t ==> CountLeq(s, t) >= i + 1
    ensures s[i] > t ==> CountLeq(s, t) <= i
  {
    var front := s[..|s| - 1];
    if i < |s| - 1 {
      CountLeqSorted(front, t, i);
      assert s[i] <= s[|s| - 1];
    } else if s[i] <= t {
      AllLeq(s, t);
    } else {
      CountLeqAtMost(front, t);
    }
  }

  lemma {:induction false} AllLeq(s: seq<real>, t: real)
    requires forall i :: 0 <= i < |s| ==> s[i] <= t
    ensures CountLeq(s, t) == |s|
  {
    if s != [] { AllLeq(s[..|s| - 1], t); }
  }

  /** Of n samples in any order: a percentile at most `t` puts `floor(p (n - 1)) + 1` of them, at least, at most
      `t`; a percentile above `t` puts `n - 1 - floor(p (n - 1))` of them above it, and one in any case. */
  lemma PercentileCounts(values: seq<real>, p: real, t: real)
    requires values != [] && 0.0 <= p <= 1.0
    ensures |Sort(values)| == |values|
    ensures var n, f := |values|, Index(|values|, p);
            if Pct(Sort(values), p) <= t then CountLeq(values, t) >= f + 1
            else n - CountLeq(values, t) >= n - 1 - f && n - CountLeq(values, t) >= 1
  {
    SortSorts(values);
    CountLeqSort(values, t);
    var s := Sort(values);
    PctAround(s, p);
    var f := Index(|s|, p);
    CountLeqSorted(s, t, f);
    if Pct(s, p) > t && f + 1 < |s| {
      CountLeqSorted(s, t, f + 1);
    }
  }

  // ---------------------------------------------------------------------- the verdict

  function ErrorRate(errors: nat, total: nat): real {
    if total > 0 then Round2(errors as real / total as real * 100.0) else 0.0
  }

  predicate SlaMet(latencies: seq<real>, errors: nat) {
    CalculatePercentiles(latencies).p95 <= 2000.0 && ErrorRate(errors, |latencies| + errors) < 1.0
  }

  lemma Round2AtMost(x: real)
    ensures Round2(x) <= 2000.0 <==> x <= 2000.005
  {
    assert RoundHalfEven(200000.5) == 200000;
    if x <= 2000.005 {
      RoundMonotone(x * 100.0, 200000.5);
    } else {
      var y := x * 100.0;
      assert y > 200000.5;
      assert y.Floor >= 200000;
      assert RoundHalfEven(y) >= 200001;
    }
  }

  lemma Round2Below(x: real)
    ensures Round2(x) < 1.0 <==> x < 0.995
  {
    var y := x * 100.0;
    if y >= 99.5 {
      RoundMonotone(99.5, y);
      assert RoundHalfEven(99.5) == 100;
    } else {
      assert y.Floor <= 99;
      assert RoundHalfEven(y) <= 99;
    }
  }

  lemma ErrorRateBelow(errors: nat, total: nat)
    requires total > 0
    ensures errors as real / total as real * 100.0 < 0.995 <==> 100000 * errors < 995 * total
  {
    var e, t := errors as real, total as real;
    QuotientBelow(e, t, 0.00995);
    assert (100000 * errors) as real == 100000.0 * e && (995 * total) as real == 995.0 * t;
  }

  lemma P95Means(latencies: seq<real>)
    ensures latencies != [] ==> Sort(latencies) != []
    ensures CalculatePercentiles(latencies).p95 <= 2000.0
            <==> (latencies != [] ==> Pct(Sort(latencies), 0.95) <= 2000.005)
  {
    SortSorts(latencies);
    if latencies != [] { Round2AtMost(Pct(Sort(latencies), 0.95)); }
  }

  lemma ErrorRateMeans(errors: nat, total: nat)
    ensures ErrorRate(errors, total) < 1.0 <==> (total > 0 ==> 100000 * errors < 995 * total)
  {
    if total > 0 {
      Round2Below(errors as real / total as real * 100.0);
      ErrorRateBelow(errors, total);
    }
  }

  /** The verdict, exactly: the run passes if and only if the p95 of the measured latencies, if there are any, is at
      most 2000.005 ms, and fewer than 0.995 % of the requests failed, if there were any. A run without requests
      passes. */
  lemma VerdictIsExact(latencies: seq<real>, errors: nat)
    ensures latencies != [] ==> Sort(latencies) != []
    ensures SlaMet(latencies, errors) <==>
            && (latencies != [] ==> Pct(Sort(latencies), 0.95) <= 2000.005)
            && (|latencies| + errors > 0 ==> 100000 * errors < 995 * (|latencies| + errors))
  {
    P95Means(latencies);
    ErrorRateMeans(errors, |latencies| + errors);
  }

  /** What the verdict says of the samples. A pass leaves `floor(0.95 (n - 1)) + 1` of n latencies, at least, within
      2000.005 ms; a failure with few errors leaves at least one above, and `n - 1 - floor(0.95 (n - 1))` of them. */
  lemma VerdictMeansWhatItSays(latencies: seq<real>, errors: nat)
    requires latencies != []
    ensures var n, f, within := |latencies|, Index(|latencies|, 0.95), CountLeq(latencies, 2000.005);
            && (SlaMet(latencies, errors) ==> within >= f + 1)
            && (!SlaMet(latencies, errors) && 100000 * errors < 995 * (n + errors) ==>
                  n - within >= 1 && n - within >= n - 1 - f)
  {
    VerdictIsExact(latencies, errors);
    PercentileCounts(latencies, 0.95, 2000.005);
  }

  /** A run whose only latency is 2000.004 ms passes, although its p95 is above 2000 ms. */
  lemma PassesAboveTheTarget()
    ensures Pct(Sort([2000.004]), 0.95) > 2000.0 && SlaMet([2000.004], 0)
  {
    SortOfOne(2000.004);
    IndexInside(1, 0.95);
    VerdictIsExact([2000.004], 0);
  }

  /** Two latencies, of one and of three seconds: their p95 is 2900 ms, and the run fails. */
  lemma TwoLatenciesFail()
    ensures Sort([1000.0, 3000.0]) == [1000.0, 3000.0] && Pct([1000.0, 3000.0], 0.95) == 2900.0
    ensures !SlaMet([1000.0, 3000.0], 0)
  {
    var s := [1000.0, 3000.0];
    SortSorts(s);
    AscendingIsUnique(Sort(s), s);
    PctInterpolates(s, 0.95, 0, 0.95);
    VerdictIsExact(s, 0);
  }

  lemma SortOfOne(x: real)
    ensures Sort([x]) == [x]
  {
    SortSorts([x]);
    assert Sort([x])[0] in multiset(Sort([x]));
    assert Sort([x])[0] in multiset([x]);
  }

  /** A run with 2 errors in 201 requests fails, although fewer than 1 % of them failed. */
  lemma FailsBelowTheErrorTarget(latencies: seq<real>)
    requires |latencies| == 199
    ensures 100 * 2 < |latencies| + 2 && !SlaMet(latencies, 2)
  {
    VerdictIsExact(latencies, 2);
  }
}
