/** Order statistics of one metric's samples. */
module Statistics {
  import opened Prelude
  import opened Sorting

  datatype MetricStats = MetricStats(median: real, min: real, max: real, n: nat)

  predicate AtMost(a: real, b: real) {
    a <= b
  }

  function Count(s: seq<real>, p: real -> bool): nat {
    |Filter(s, p)|
  }

  /** The least sample that at least half of the samples do not exceed. */
  ghost predicate IsLowerMedian(s: seq<real>, x: real) {
    && x in s
    && 2 * Count(s, y => y <= x) >= |s|
    && 2 * Count(s, y => y < x) < |s|
  }

  /** The greatest sample that at least half of the samples reach. */
  ghost predicate IsUpperMedian(s: seq<real>, x: real) {
    && x in s
    && 2 * Count(s, y => y >= x) >= |s|
    && 2 * Count(s, y => y > x) < |s|
  }

  ghost predicate IsMedian(s: seq<real>, m: real) {
    exists lower, upper :: IsLowerMedian(s, lower) && IsUpperMedian(s, upper) && m == (lower + upper) / 2.0
  }

  ghost predicate Summarises(stats: MetricStats, s: seq<real>) {
    && stats.n == |s|
    && stats.min in s && stats.max in s
    && (forall x :: x in s ==> stats.min <= x <= stats.max)
    && IsMedian(s, stats.median)
  }

  function SortedSamples(samples: seq<real>): (sorted: seq<real>)
    ensures |sorted| == |samples|
  {
    SortPermutes(AtMost, samples);
    Sort(AtMost, samples)
  }

  function StatsOf(samples: seq<real>): Option<MetricStats> {
    if samples == [] then None
    else
      var sorted := SortedSamples(samples);
      var n := |sorted|;
      var median :=
        if n % 2 == 1 then sorted[n / 2] else (sorted[n / 2 - 1] + sorted[n / 2]) / 2.0;
      Some(MetricStats(median, sorted[0], sorted[n - 1], n))
  }

  // ----- Counting -----------------------------------------------------------

  lemma CountPermutes(a: seq<real>, b: seq<real>, p: real -> bool)
    requires multiset(a) == multiset(b)
    ensures Count(a, p) == Count(b, p)
  {
    forall x ensures multiset(Filter(a, p))[x] == multiset(Filter(b, p))[x] {
      FilterCounts(a, p, x);
      FilterCounts(b, p, x);
    }
    assert multiset(Filter(a, p)) == multiset(Filter(b, p));
    assert |multiset(Filter(a, p))| == |Filter(a, p)|;
  }

  lemma {:induction false} CountAfter(s: seq<real>, k: nat, p: real -> bool)
    requires k <= |s|
    ensures Count(s, p) == Count(s[..k], p) + Count(s[k..], p)
  {
    if k > 0 {
      CountAfter(s[1..], k - 1, p);
      assert s[..k] == [s[0]] + s[1..][..k - 1];
      assert s[k..] == s[1..][k - 1..];
      assert s[..k][1..] == s[1..][..k - 1];
    } else {
      assert s[k..] == s && s[..k] == [];
    }
  }

  lemma {:induction false} CountAll(s: seq<real>, p: real -> bool)
    requires forall i :: 0 <= i < |s| ==> p(s[i])
    ensures Count(s, p) == |s|
  {
    if s != [] {
      assert forall i :: 0 <= i < |s[1..]| ==> s[1..][i] == s[i + 1];
      CountAll(s[1..], p);
    }
  }

  lemma {:induction false} CountNone(s: seq<real>, p: real -> bool)
    requires forall i :: 0 <= i < |s| ==> !p(s[i])
    ensures Count(s, p) == 0
  {
    if s != [] {
      assert forall i :: 0 <= i < |s[1..]| ==> s[1..][i] == s[i + 1];
      CountNone(s[1..], p);
    }
  }

  lemma AtMostSide(s: seq<real>, i: nat)
    requires Sorted(AtMost, s) && i < |s|
    ensures Count(s, y => y <= s[i]) > i && Count(s, y => y > s[i]) < |s| - i
  {
    var front := s[..i + 1];
    forall a | 0 <= a < |front| ensures front[a] <= s[i] {
      assert AtMost(s[a], s[i]);
    }
    CountAfter(s, i + 1, y => y <= s[i]);
    CountAll(front, y => y <= s[i]);
    CountAfter(s, i + 1, y => y > s[i]);
    CountNone(front, y => y > s[i]);
  }

  lemma AtLeastSide(s: seq<real>, i: nat)
    requires Sorted(AtMost, s) && i < |s|
    ensures Count(s, y => y >= s[i]) >= |s| - i && Count(s, y => y < s[i]) <= i
  {
    var back := s[i..];
    forall a | 0 <= a < |back| ensures back[a] >= s[i] {
      assert AtMost(s[i], s[i + a]);
    }
    CountAfter(s, i, y => y >= s[i]);
    CountAll(back, y => y >= s[i]);
    CountAfter(s, i, y => y < s[i]);
    CountNone(back, y => y < s[i]);
  }

  /** How many elements of an ascending sequence lie on each side of its `i`th. */
  lemma SidesOf(s: seq<real>, i: nat)
    requires Sorted(AtMost, s) && i < |s|
    ensures Count(s, y => y <= s[i]) > i && Count(s, y => y < s[i]) <= i
    ensures Count(s, y => y >= s[i]) >= |s| - i && Count(s, y => y > s[i]) < |s| - i
  {
    AtMostSide(s, i);
    AtLeastSide(s, i);
  }

  // ----- Main results -------------------------------------------------------

  /** The middle of the sorted samples is the median, for odd and even counts. */
  lemma MiddleIsMedian(s: seq<real>, sorted: seq<real>)
    requires s != [] && Sorted(AtMost, sorted) && multiset(sorted) == multiset(s) && |sorted| == |s|
    requires forall x :: x in sorted <==> x in s
    ensures IsLowerMedian(s, sorted[(|s| - 1) / 2]) && IsUpperMedian(s, sorted[|s| / 2])
  {
    var lower, upper := (|s| - 1) / 2, |s| / 2;
    var lo, up := sorted[lower], sorted[upper];
    SidesOf(sorted, lower);
    SidesOf(sorted, upper);
    CountPermutes(s, sorted, y => y <= lo);
    CountPermutes(s, sorted, y => y < lo);
    CountPermutes(s, sorted, y => y >= up);
    CountPermutes(s, sorted, y => y > up);
  }

  lemma StatsSummarise(s: seq<real>)
    ensures StatsOf(s).None? <==> s == []
    ensures s != [] ==> Summarises(StatsOf(s).value, s)
  {
    if s != [] {
      var sorted := Sort(AtMost, s);
      SortPermutes(AtMost, s);
      SortSorts(AtMost, s);
      MiddleIsMedian(s, sorted);
      forall x | x in s ensures sorted[0] <= x <= sorted[|s| - 1] {
        var i :| 0 <= i < |s| && sorted[i] == x;
        assert AtMost(sorted[0], sorted[i]) && AtMost(sorted[i], sorted[|s| - 1]);
      }
      assert sorted[0] in sorted && sorted[|s| - 1] in sorted;
      var stats := StatsOf(s).value;
      if |s| % 2 == 1 {
        assert stats.median == (sorted[|s| / 2] + sorted[|s| / 2]) / 2.0;
      }
    }
  }

  lemma {:induction false} CountMonotone(s: seq<real>, p: real -> bool, q: real -> bool)
    requires forall x :: p(x) ==> q(x)
    ensures Count(s, p) <= Count(s, q)
  {
    if s != [] {
      CountMonotone(s[1..], p, q);
    }
  }

  /** Being the lower or the upper median pins a value down. */
  lemma MediansAreUnique(s: seq<real>, x: real, y: real)
    ensures IsLowerMedian(s, x) && IsLowerMedian(s, y) ==> x == y
    ensures IsUpperMedian(s, x) && IsUpperMedian(s, y) ==> x == y
  {
    if x < y {
      CountMonotone(s, z => z <= x, z => z < y);
      CountMonotone(s, z => z >= y, z => z > x);
    } else if y < x {
      CountMonotone(s, z => z <= y, z => z < x);
      CountMonotone(s, z => z >= x, z => z > y);
    }
  }

  lemma {:induction false} CountComplement(s: seq<real>, p: real -> bool, q: real -> bool)
    requires forall x :: p(x) <==> !q(x)
    ensures Count(s, p) + Count(s, q) == |s|
  {
    if s != [] {
      CountComplement(s[1..], p, q);
    }
  }

  /** At least half the samples are at most the median, at least half are at
      least the median, and it lies between the extremes. */
  lemma MedianSplitsInHalf(s: seq<real>, stats: MetricStats)
    requires Summarises(stats, s)
    ensures 2 * Count(s, y => y <= stats.median) >= |s|
    ensures 2 * Count(s, y => y >= stats.median) >= |s|
    ensures stats.min <= stats.median <= stats.max
  {
    var m := stats.median;
    var lower, upper :| IsLowerMedian(s, lower) && IsUpperMedian(s, upper) && m == (lower + upper) / 2.0;
    if upper < lower {
      CountMonotone(s, y => y >= lower, y => y > upper);
      CountComplement(s, y => y >= lower, y => y < lower);
    }
    CountMonotone(s, y => y <= lower, y => y <= m);
    CountMonotone(s, y => y >= upper, y => y >= m);
  }

  /** The statistics depend on the samples, not on their order. */
  lemma StatsForgetOrder(a: seq<real>, b: seq<real>)
    requires multiset(a) == multiset(b)
    ensures StatsOf(a) == StatsOf(b)
  {
    SortForgetsOrder(AtMost, a, b);
    assert |multiset(a)| == |a| && |multiset(b)| == |b|;
  }

  /** Sorts the samples and reads the statistics off the middle and the ends. */
  method FromSamples(samples: seq<real>) returns (stats: Option<MetricStats>)
    ensures stats == StatsOf(samples)
    ensures stats.None? <==> samples == []
    ensures stats.Some? ==> Summarises(stats.value, samples)
  {
    StatsSummarise(samples);
    if samples == [] {
      return None;
    }
    var sorted := SortedSamples(samples);
    var n := |sorted|;
    var median := if n % 2 == 1 then sorted[n / 2] else (sorted[n / 2 - 1] + sorted[n / 2]) / 2.0;
    return Some(MetricStats(median, sorted[0], sorted[n - 1], n));
  }
}
