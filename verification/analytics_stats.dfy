/** The numeric helpers of `AnalyticsService`: traffic levels, the
    percentile pick, percent change and difference, and the per-group rates
    the reports share. Doubles are modelled as reals. */
module AnalyticsStats {
  import opened Wrappers
  import opened Seqs
  import opened BigtableRows
  import JavaInt
  import Sorting

  /** `getTrafficLevel`. */
  function TrafficLevel(requests: int): (level: string)
    ensures level in {"low", "medium", "high", "very_high"}
  {
    if requests < 100 then "low"
    else if requests < 500 then "medium"
    else if requests < 1000 then "high"
    else "very_high"
  }

  /** Position of a level in the order low < medium < high < very_high. */
  function LevelRank(level: string): nat
  {
    if level == "low" then 0
    else if level == "medium" then 1
    else if level == "high" then 2
    else 3
  }

  /** More requests never give a lower level, and each level covers exactly
      its band of request counts. */
  lemma TrafficLevelMonotone(a: int, b: int)
    requires a <= b
    ensures LevelRank(TrafficLevel(a)) <= LevelRank(TrafficLevel(b))
  {
  }

  lemma TrafficLevelBands(requests: int)
    ensures TrafficLevel(requests) == "low" <==> requests < 100
    ensures TrafficLevel(requests) == "medium" <==> 100 <= requests < 500
    ensures TrafficLevel(requests) == "high" <==> 500 <= requests < 1000
    ensures TrafficLevel(requests) == "very_high" <==> 1000 <= requests
  {
  }

  /** `Math.ceil` as an integer. */
  function Ceil(x: real): (c: int)
    ensures c as real - 1.0 < x <= c as real
  {
    -((-x).Floor)
  }

  /** The `(int)` cast of an integral double: saturates at the `int` range. */
  function Saturate(x: int): (r: int)
    ensures JavaInt.IsInt(r)
    ensures JavaInt.IsInt(x) ==> r == x
  {
    if x < JavaInt.INT_MIN then JavaInt.INT_MIN else if x > JavaInt.INT_MAX then JavaInt.INT_MAX else x
  }

  function Clamp(i: int, lo: int, hi: int): (r: int)
    requires lo <= hi
    ensures lo <= r <= hi
    ensures lo <= i <= hi ==> r == i
  {
    if i < lo then lo else if i > hi then hi else i
  }

  /** The rank of percentile p in a list of n values: p/100 * n. */
  function Rank(n: nat, p: real): real
  {
    p / 100.0 * n as real
  }

  /** The index `getPercentile` reads: ceil(p/100 * n) - 1 in 32-bit
      arithmetic, clamped to the list. */
  function PercentileIndex(n: nat, p: real): (k: int)
    requires n > 0
    ensures 0 <= k < n
  {
    Clamp(JavaInt.Wrap32(Saturate(Ceil(Rank(n, p))) - 1), 0, n - 1)
  }

  /** `getPercentile`: 0 for an empty list, otherwise the element at the
      percentile index. */
  function Percentile(sorted: seq<real>, p: real): (v: real)
    ensures |sorted| == 0 ==> v == 0.0
    ensures |sorted| > 0 ==> v in sorted
  {
    if |sorted| == 0 then 0.0 else sorted[PercentileIndex(|sorted|, p)]
  }

  predicate Ascending(xs: seq<real>)
  {
    forall i, j :: 0 <= i <= j < |xs| ==> xs[i] <= xs[j]
  }

  function Identity(x: real): real
  {
    x
  }

  /** The values in increasing order (`stream().sorted()`). */
  function SortReals(values: seq<real>): (xs: seq<real>)
    ensures multiset(xs) == multiset(values)
    ensures |xs| == |values|
    ensures Ascending(xs)
  {
    Sorting.KeyOrdersArePreorders(Identity);
    var xs := Sorting.SortBy(values, Sorting.Ascending(Identity));
    SortedIsAscending(xs);
    xs
  }

  lemma SortedIsAscending(xs: seq<real>)
    requires Sorting.SortedBy(xs, Sorting.Ascending(Identity))
    ensures Ascending(xs)
  {
    forall i, j | 0 <= i <= j < |xs|
      ensures xs[i] <= xs[j]
    {
      if i < j {
        assert Sorting.Ascending(Identity)(xs[i], xs[j]);
      }
    }
  }

  /** For 0 < p <= 100 the index is the least one whose prefix covers p% of
      the list. */
  lemma PercentileIndexIsRank(n: nat, p: real)
    requires n > 0 && 0.0 < p <= 100.0
    requires n <= JavaInt.INT_MAX
    ensures (PercentileIndex(n, p) + 1) as real >= Rank(n, p)
    ensures PercentileIndex(n, p) as real < Rank(n, p)
  {
    var x := Rank(n, p);
    ScaledWithin(p, p, n);
    MulPositive(p / 100.0, n as real);
    assert 0.0 < x;
    IndexOfRank(x, n);
    var c := Ceil(x);
    assert PercentileIndex(n, p) == c - 1;
    assert c as real - 1.0 < x <= c as real;
  }

  /** On a sorted list the percentile lies between the smallest and largest
      values and grows with p. */
  lemma PercentileBetween(sorted: seq<real>, p: real)
    requires |sorted| > 0 && Ascending(sorted)
    ensures sorted[0] <= Percentile(sorted, p) <= sorted[|sorted| - 1]
  {
  }

  lemma PercentileMonotone(sorted: seq<real>, p: real, q: real)
    requires |sorted| > 0 && Ascending(sorted)
    requires 0.0 <= p <= q <= 100.0
    requires |sorted| <= JavaInt.INT_MAX
    ensures Percentile(sorted, p) <= Percentile(sorted, q)
  {
    PercentileIndexMonotone(|sorted|, p, q);
  }

  lemma PercentileIndexMonotone(n: nat, p: real, q: real)
    requires 0 < n <= JavaInt.INT_MAX
    requires 0.0 <= p <= q <= 100.0
    ensures PercentileIndex(n, p) <= PercentileIndex(n, q)
  {
    ScaledWithin(p, q, n);
    var x, y := Rank(n, p), Rank(n, q);
    CeilMonotone(x, y);
    var i, j := Ceil(x) - 1, Ceil(y) - 1;
    assert i <= j;
    PercentileIndexPlain(n, p);
    PercentileIndexPlain(n, q);
    ClampMonotone(i, j, 0, n - 1);
  }

  lemma ClampMonotone(i: int, j: int, lo: int, hi: int)
    requires i <= j && lo <= hi
    ensures Clamp(i, lo, hi) <= Clamp(j, lo, hi)
  {
  }

  lemma ScaledWithin(p: real, q: real, n: nat)
    requires 0.0 <= p <= q <= 100.0
    ensures 0.0 <= Rank(n, p) <= Rank(n, q) <= n as real
  {
    var a, b, m := p / 100.0, q / 100.0, n as real;
    assert 0.0 <= a <= b <= 1.0;
    MulMonotone(0.0, a, m);
    MulMonotone(a, b, m);
    MulMonotone(b, 1.0, m);
  }

  lemma MulMonotone(a: real, b: real, c: real)
    requires a <= b && 0.0 <= c
    ensures a * c <= b * c
  {
  }

  lemma MulPositive(a: real, b: real)
    requires 0.0 < a && 0.0 < b
    ensures 0.0 < a * b
  {
  }

  lemma CeilMonotone(x: real, y: real)
    requires x <= y
    ensures Ceil(x) <= Ceil(y)
  {
  }

  /** Within 0..100 percent no cast saturates and no subtraction wraps. */
  lemma PercentileIndexPlain(n: nat, p: real)
    requires 0 < n <= JavaInt.INT_MAX && 0.0 <= p <= 100.0
    ensures PercentileIndex(n, p) == Clamp(Ceil(Rank(n, p)) - 1, 0, n - 1)
  {
    ScaledWithin(p, p, n);
    IndexOfRank(Rank(n, p), n);
  }

  /** For a rank within 0..n the cast does not saturate, the subtraction
      does not wrap, and a positive rank needs no clamping. */
  lemma IndexOfRank(x: real, n: nat)
    requires 0 < n <= JavaInt.INT_MAX && 0.0 <= x <= n as real
    ensures Clamp(JavaInt.Wrap32(Saturate(Ceil(x)) - 1), 0, n - 1) == Clamp(Ceil(x) - 1, 0, n - 1)
    ensures 0.0 < x ==> Clamp(Ceil(x) - 1, 0, n - 1) == Ceil(x) - 1
  {
    var c := Ceil(x);
    assert 0 <= c <= n;
    assert 0.0 < x ==> 1 <= c;
    assert Saturate(c) == c;
    JavaInt.Wrap32Unique(c - 1, c - 1);
  }

  /** `calculatePercentChange(old, new)`. */
  function PercentChange(oldValue: real, newValue: real): (r: real)
    ensures oldValue == 0.0 ==> r == (if newValue > 0.0 then 100.0 else 0.0)
  {
    if oldValue == 0.0 then (if newValue > 0.0 then 100.0 else 0.0)
    else (newValue - oldValue) / oldValue * 100.0
  }

  /** Applying a non-zero base's percent change to it recovers the new value. */
  lemma PercentChangeInverse(oldValue: real, newValue: real)
    requires oldValue != 0.0
    ensures oldValue + oldValue * PercentChange(oldValue, newValue) / 100.0 == newValue
  {
  }

  /** `calculatePercentDifference(a, b)`: the gap relative to the mean. */
  function PercentDifference(a: real, b: real): (r: real)
    ensures (a + b) / 2.0 == 0.0 ==> r == 0.0
  {
    var avg := (a + b) / 2.0;
    if avg == 0.0 then 0.0 else (a - b) / avg * 100.0
  }

  lemma PercentDifferenceAntisymmetric(a: real, b: real)
    ensures PercentDifference(a, b) == -PercentDifference(b, a)
  {
    var avg := (a + b) / 2.0;
    assert (b + a) / 2.0 == avg;
    if avg != 0.0 {
      assert (b - a) / avg == -((a - b) / avg);
    }
  }

  /** Off a zero mean, the difference is zero exactly for equal values and
      has the sign of a - b on a positive mean. */
  lemma PercentDifferenceSign(a: real, b: real)
    requires a + b > 0.0
    ensures PercentDifference(a, b) == 0.0 <==> a == b
    ensures PercentDifference(a, b) > 0.0 <==> a > b
  {
  }

  /** `!Boolean.TRUE.equals(success)`: failed or unknown. */
  function NotSucceeded(): LogEntry -> bool
  {
    (e: LogEntry) => e.success != Some(true)
  }

  function Succeeded(): LogEntry -> bool
  {
    (e: LogEntry) => e.success == Some(true)
  }

  /** The latency with `null` read as 0. */
  function LatencyOrZero(e: LogEntry): real
  {
    if e.responseTimeMs.Some? then e.responseTimeMs.value else 0.0
  }

  /** Mean latency of a group, `null` latencies counting as 0. */
  function MeanLatency(logs: seq<LogEntry>): real
  {
    Mean(Map(logs, LatencyOrZero))
  }

  /** Share of non-successful logs in percent, 0 for an empty group. */
  function ErrorRate(logs: seq<LogEntry>): (r: real)
    ensures 0.0 <= r <= 100.0
  {
    if |logs| == 0 then 0.0 else Percent(Count(logs, NotSucceeded()), |logs|)
  }

  /** Successes and non-successes partition a group. */
  lemma {:induction false} SuccessPartition(logs: seq<LogEntry>)
    ensures Count(logs, Succeeded()) + Count(logs, NotSucceeded()) == |logs|
  {
    if |logs| > 0 {
      SuccessPartition(logs[1..]);
    }
  }
}
