/** The log-based figures of a connector's details in `MetricsService`: the
    latency histogram, the status-code breakdown, the percentile pick and
    the slowest and most failing endpoints. The logs are those the store
    returns for the connector and window. */
module MetricsLogs {
  import opened Wrappers
  import opened Seqs
  import opened Grouping
  import opened BigtableRows
  import AnalyticsStats
  import Sorting
  import Decimal
  import JavaInt

  // ---------------------------------------------------------------------
  // Latency histogram
  // ---------------------------------------------------------------------

  /** The bucket labels, in the order of the `LinkedHashMap`. */
  const BUCKETS: seq<string> := ["0-10ms", "10-20ms", "20-50ms", "50-100ms", "100-200ms", ">200ms"]

  /** The upper bounds of the first five buckets; the last has none. */
  const BOUNDS: seq<real> := [10.0, 20.0, 50.0, 100.0, 200.0]

  /** Bucket `b` holds the latencies from the previous bound (included) to
      its own (excluded); the first has no lower bound. */
  predicate InRange(latency: real, b: int)
  {
    0 <= b < 6 && (b < 5 ==> latency < BOUNDS[b]) && (b > 0 ==> BOUNDS[b - 1] <= latency)
  }

  /** The bucket of a latency. */
  function BucketOf(latency: real): (b: nat)
    ensures InRange(latency, b)
  {
    if latency < 10.0 then 0
    else if latency < 20.0 then 1
    else if latency < 50.0 then 2
    else if latency < 100.0 then 3
    else if latency < 200.0 then 4
    else 5
  }

  /** The ranges do not overlap: each latency lies in exactly one bucket. */
  lemma OneBucket(latency: real, b: int)
    ensures InRange(latency, b) <==> b == BucketOf(latency)
  {
  }

  function HasLatency(e: LogEntry): bool
  {
    e.responseTimeMs.Some?
  }

  function InBucket(b: nat): LogEntry -> bool
  {
    (e: LogEntry) => e.responseTimeMs.Some? && BucketOf(e.responseTimeMs.value) == b
  }

  /** The bucket counts after one more log: its bucket gains one when it
      has a latency. */
  function Tally(counts: seq<nat>, e: LogEntry): (next: seq<nat>)
    requires |counts| == 6
    ensures |next| == 6
  {
    if e.responseTimeMs.Some? then
      var b := BucketOf(e.responseTimeMs.value);
      counts[b := counts[b] + 1]
    else counts
  }

  /** The counts of the logs seen so far, and their total. */
  predicate Tallied(counts: seq<nat>, done: seq<LogEntry>)
  {
    && |counts| == 6
    && (forall b :: 0 <= b < 6 ==> counts[b] == Count(done, InBucket(b)))
    && SumNat(counts) == Count(done, HasLatency)
  }

  lemma TallyStep(counts: seq<nat>, done: seq<LogEntry>, e: LogEntry)
    requires Tallied(counts, done)
    ensures Tallied(Tally(counts, e), done + [e])
  {
    var next := Tally(counts, e);
    forall b | 0 <= b < 6
      ensures next[b] == Count(done + [e], InBucket(b))
    {
      TallyBucket(counts, done, e, b);
    }
    TallyTotal(counts, done, e);
  }

  /** One bucket after one more log. */
  lemma TallyBucket(counts: seq<nat>, done: seq<LogEntry>, e: LogEntry, b: int)
    requires |counts| == 6 && 0 <= b < 6
    requires counts[b] == Count(done, InBucket(b))
    ensures Tally(counts, e)[b] == Count(done + [e], InBucket(b))
  {
    CountSnoc(done, e, InBucket(b));
    if e.responseTimeMs.Some? {
      assert InBucket(b)(e) <==> b == BucketOf(e.responseTimeMs.value);
    } else {
      assert !InBucket(b)(e);
    }
  }

  /** The total after one more log. */
  lemma TallyTotal(counts: seq<nat>, done: seq<LogEntry>, e: LogEntry)
    requires |counts| == 6
    requires SumNat(counts) == Count(done, HasLatency)
    ensures SumNat(Tally(counts, e)) == Count(done + [e], HasLatency)
  {
    CountSnoc(done, e, HasLatency);
    TallySum(counts, e);
  }

  lemma TallySum(counts: seq<nat>, e: LogEntry)
    requires |counts| == 6
    ensures SumNat(Tally(counts, e)) == SumNat(counts) + (if HasLatency(e) then 1 else 0)
  {
    if e.responseTimeMs.Some? {
      var b := BucketOf(e.responseTimeMs.value);
      assert Tally(counts, e) == counts[b := counts[b] + 1];
      SumNatIncrement(counts, b);
    }
  }

  lemma TallyPrefix(logs: seq<LogEntry>, i: int, counts: seq<nat>)
    requires 0 <= i < |logs| && Tallied(counts, logs[..i])
    ensures Tallied(Tally(counts, logs[i]), logs[..i + 1])
  {
    var done := logs[..i];
    assert logs[..i + 1] == done + [logs[i]];
    TallyStep(counts, done, logs[i]);
  }

  function Counted(d: (string, nat)): nat
  {
    d.1
  }

  /** `calculateLatencyDistribution`: the six buckets in order, each
      counting the logs whose latency falls in it; logs without a latency
      are skipped, so the counts add up to the logs that have one. */
  method LatencyDistribution(logs: seq<LogEntry>) returns (dist: seq<(string, nat)>)
    ensures |dist| == 6
    ensures forall b :: 0 <= b < 6 ==> dist[b].0 == BUCKETS[b] && dist[b].1 == Count(logs, InBucket(b))
    ensures SumNat(Map(dist, Counted)) == Count(logs, HasLatency)
  {
    var counts: seq<nat> := [0, 0, 0, 0, 0, 0];
    for i := 0 to |logs|
      invariant Tallied(counts, logs[..i])
    {
      TallyPrefix(logs, i, counts);
      counts := Tally(counts, logs[i]);
    }
    assert logs[..|logs|] == logs;
    dist := Labelled(counts);
  }

  /** The counts paired with the bucket labels. */
  function Labelled(counts: seq<nat>): (dist: seq<(string, nat)>)
    requires |counts| == 6
    ensures |dist| == 6
    ensures forall b :: 0 <= b < 6 ==> dist[b] == (BUCKETS[b], counts[b])
    ensures Map(dist, Counted) == counts
  {
    var dist := seq(6, b requires 0 <= b < 6 => (BUCKETS[b], counts[b]));
    assert Map(dist, Counted) == counts;
    dist
  }

  // ---------------------------------------------------------------------
  // Status breakdown
  // ---------------------------------------------------------------------

  function HasStatus(e: LogEntry): bool
  {
    e.statusCode.Some?
  }

  /** `String.valueOf` of a log's status code. */
  function CodeText(e: LogEntry): string
  {
    Decimal.IntToDecimal(e.statusCode.GetOr(0))
  }

  /** The logs with a status code, which is what the breakdown counts. */
  function Coded(logs: seq<LogEntry>): seq<LogEntry>
  {
    Filter(logs, HasStatus)
  }

  /** The logs whose status code is `code`. */
  function WithCode(code: int): LogEntry -> bool
  {
    (e: LogEntry) => e.statusCode == Some(code)
  }

  /** `calculateStatusBreakdown`: for each status code present, its decimal
      text mapped to the number of logs with that code. */
  function StatusBreakdown(logs: seq<LogEntry>): (r: map<string, nat>)
    ensures forall k :: k in r <==> k in Keys(Coded(logs), CodeText)
  {
    var ks := Keys(Coded(logs), CodeText);
    map k | k in ks :: |Members(Coded(logs), CodeText, k)|
  }

  /** The logs with a status code whose text is `k`. */
  function CodedAs(k: string): LogEntry -> bool
  {
    (e: LogEntry) => HasStatus(e) && CodeText(e) == k
  }

  /** A code's text is a key exactly when some log has that code. */
  lemma StatusBreakdownKeys(logs: seq<LogEntry>, code: int)
    ensures Decimal.IntToDecimal(code) in StatusBreakdown(logs)
        <==> exists i :: 0 <= i < |logs| && logs[i].statusCode == Some(code)
  {
    var k := Decimal.IntToDecimal(code);
    KeyPresent(Coded(logs), CodeText, k);
    if j :| 0 <= j < |Coded(logs)| && CodeText(Coded(logs)[j]) == k {
      CodedKeyHasLog(logs, code, j);
    }
    if i :| 0 <= i < |logs| && logs[i].statusCode == Some(code) {
      LogHasCodedKey(logs, code, i);
    }
  }

  lemma CodedKeyHasLog(logs: seq<LogEntry>, code: int, j: int)
    requires 0 <= j < |Coded(logs)| && CodeText(Coded(logs)[j]) == Decimal.IntToDecimal(code)
    ensures exists i :: 0 <= i < |logs| && logs[i].statusCode == Some(code)
  {
    var e := Coded(logs)[j];
    assert e in Coded(logs);
    Decimal.IntToDecimalInjective(e.statusCode.value, code);
    var i :| 0 <= i < |logs| && logs[i] == e;
  }

  lemma LogHasCodedKey(logs: seq<LogEntry>, code: int, i: int)
    requires 0 <= i < |logs| && logs[i].statusCode == Some(code)
    ensures exists j :: 0 <= j < |Coded(logs)| && CodeText(Coded(logs)[j]) == Decimal.IntToDecimal(code)
  {
    assert logs[i] in logs;
    assert logs[i] in Coded(logs);
    var j :| 0 <= j < |Coded(logs)| && Coded(logs)[j] == logs[i];
  }

  /** The entry of a code counts the logs with that code. */
  lemma StatusBreakdownCounts(logs: seq<LogEntry>, code: int)
    requires Decimal.IntToDecimal(code) in StatusBreakdown(logs)
    ensures StatusBreakdown(logs)[Decimal.IntToDecimal(code)] == Count(logs, WithCode(code))
  {
    var k := Decimal.IntToDecimal(code);
    forall i | 0 <= i < |logs|
      ensures WithCode(code)(logs[i]) == (HasStatus(logs[i]) && CodeText(logs[i]) == k)
    {
      if HasStatus(logs[i]) && CodeText(logs[i]) == k {
        Decimal.IntToDecimalInjective(logs[i].statusCode.value, code);
      }
    }
    FilteredGroupCount(logs, HasStatus, CodeText, k, WithCode(code));
  }

  /** The count of a key, 0 for a missing one. */
  function CountIn(r: map<string, nat>): string -> nat
  {
    (k: string) => if k in r then r[k] else 0
  }

  /** The counts, in key order, add up to the number of logs with a status
      code. */
  lemma StatusBreakdownTotal(logs: seq<LogEntry>)
    ensures SumNat(Map(Keys(Coded(logs), CodeText), CountIn(StatusBreakdown(logs)))) == Count(logs, HasStatus)
  {
    var ks := Keys(Coded(logs), CodeText);
    var r := StatusBreakdown(logs);
    var counts := Map(ks, CountIn(r));
    var sizes := Sizes(ks, Coded(logs), CodeText);
    forall i | 0 <= i < |ks|
      ensures counts[i] == sizes[i]
    {
      assert ks[i] in ks;
      assert r[ks[i]] == |Members(Coded(logs), CodeText, ks[i])|;
    }
    assert counts == sizes;
    GroupSizesSum(Coded(logs), CodeText);
  }

  // ---------------------------------------------------------------------
  // Percentile
  // ---------------------------------------------------------------------

  /** The index `calculatePercentile` reads: `(int) Math.ceil(p * n) - 1`
      in 32-bit arithmetic, raised to 0. */
  function PercentileSlot(n: nat, p: real): (i: int)
    ensures i >= 0
  {
    var index := JavaInt.Wrap32(AnalyticsStats.Saturate(AnalyticsStats.Ceil(p * n as real)) - 1);
    if index > 0 then index else 0
  }

  /** `calculatePercentile`: 0 for no values, otherwise the value at the
      slot of the sorted values; `None` is the exception `List.get` throws
      when the slot is past the end. */
  function CalculatePercentile(values: seq<real>, p: real): (r: Option<real>)
    ensures |values| == 0 ==> r == Some(0.0)
    ensures |values| > 0 && r.Some? ==> r.value in values
    ensures |values| > 0 ==> (r.Some? <==> PercentileSlot(|values|, p) < |values|)
    ensures |values| > 0 && r.Some? ==>
      r.value == AnalyticsStats.SortReals(values)[PercentileSlot(|values|, p)]
  {
    if |values| == 0 then Some(0.0)
    else
      var sorted := AnalyticsStats.SortReals(values);
      var i := PercentileSlot(|values|, p);
      if i < |sorted| then
        assert sorted[i] in multiset(values);
        Some(sorted[i])
      else None
  }

  /** For 0 < p <= 1 the slot is in range, and it is the least index whose
      prefix of the sorted values covers the fraction p of them. */
  lemma PercentileSlotInRange(n: nat, p: real)
    requires n > 0 && 0.0 < p <= 1.0
    ensures PercentileSlot(n, p) < n
    ensures n <= JavaInt.INT_MAX ==>
      PercentileSlot(n, p) as real < p * n as real <= (PercentileSlot(n, p) + 1) as real
  {
    var c := AnalyticsStats.Ceil(p * n as real);
    assert 0.0 < p * n as real <= n as real;
    assert 1 <= c <= n;
    var s := AnalyticsStats.Saturate(c);
    assert 1 <= s <= n;
    JavaInt.Wrap32Unique(s - 1, s - 1);
  }

  /** The fraction p of n items. */
  function Fraction(p: real, n: nat): real
  {
    p * n as real
  }

  function Below(v: real): real -> bool
  {
    (x: real) => x < v
  }

  function AtMost(v: real): real -> bool
  {
    (x: real) => x <= v
  }

  /** The percentile is an order statistic: for 0 < p <= 1 it is defined,
      fewer than p·n of the values lie below it and at least p·n lie at or
      below it. */
  lemma PercentileRank(values: seq<real>, p: real)
    requires 0 < |values| <= JavaInt.INT_MAX && 0.0 < p <= 1.0
    ensures CalculatePercentile(values, p).Some?
    ensures var v := CalculatePercentile(values, p).value;
      (Count(values, Below(v)) as real) < Fraction(p, |values|)
    ensures var v := CalculatePercentile(values, p).value;
      Fraction(p, |values|) <= Count(values, AtMost(v)) as real
  {
    var n := |values|;
    PercentileAtSlot(values, p);
    var i := PercentileSlot(n, p);
    OrderStatistic(values, AnalyticsStats.SortReals(values), i, Fraction(p, n));
  }

  /** For 0 < p <= 1 the slot lies in the list, the result is the sorted
      element there, and the slot is within one below p·n. */
  lemma PercentileAtSlot(values: seq<real>, p: real)
    requires 0 < |values| <= JavaInt.INT_MAX && 0.0 < p <= 1.0
    ensures var i := PercentileSlot(|values|, p);
      && i < |values|
      && CalculatePercentile(values, p) == Some(AnalyticsStats.SortReals(values)[i])
      && i as real < Fraction(p, |values|) <= (i + 1) as real
  {
    var n := |values|;
    var i := PercentileSlot(n, p);
    assert i < n && i as real < p * n as real <= (i + 1) as real by {
      PercentileSlotInRange(n, p);
    }
    assert Fraction(p, n) == p * n as real;
  }

  /** The element at `i` of the sorted values has at most `i` values below
      it and at least `i + 1` at or below it, so any x in (i, i + 1] bounds
      the two counts. */
  lemma OrderStatistic(values: seq<real>, sorted: seq<real>, i: nat, x: real)
    requires multiset(sorted) == multiset(values) && AnalyticsStats.Ascending(sorted)
    requires i < |sorted| && i as real < x <= (i + 1) as real
    ensures Count(values, Below(sorted[i])) as real < x <= Count(values, AtMost(sorted[i])) as real
  {
    var v := sorted[i];
    SortedRank(sorted, i);
    CountPermutation(values, sorted, Below(v));
    CountPermutation(values, sorted, AtMost(v));
    RankBounds(Count(values, Below(v)), Count(values, AtMost(v)), i, x);
  }

  /** In an ascending list, at most `i` elements lie below the one at `i`
      and at least `i + 1` lie at or below it. */
  lemma SortedRank(sorted: seq<real>, i: nat)
    requires AnalyticsStats.Ascending(sorted) && i < |sorted|
    ensures Count(sorted, Below(sorted[i])) <= i
    ensures Count(sorted, AtMost(sorted[i])) >= i + 1
  {
    var v := sorted[i];
    assert forall j :: i <= j < |sorted| ==> !Below(v)(sorted[j]);
    CountAtMostPrefix(sorted, Below(v), i);
    assert forall j :: 0 <= j < i + 1 ==> AtMost(v)(sorted[j]);
    CountAtLeastPrefix(sorted, AtMost(v), i + 1);
  }

  lemma RankBounds(below: nat, atMost: nat, i: nat, x: real)
    requires below <= i && atMost >= i + 1
    requires i as real < x <= (i + 1) as real
    ensures below as real < x <= atMost as real
  {
  }

  /** Past the end: for p > 1 the slot can exceed the list, and Java throws. */
  lemma PercentileAboveOneFails()
    ensures CalculatePercentile([1.0], 2.0).None?
  {
    assert AnalyticsStats.Ceil(2.0) == 2;
    JavaInt.Wrap32Unique(1, 1);
    assert PercentileSlot(1, 2.0) == 1;
  }

  // ---------------------------------------------------------------------
  // Slowest endpoints
  // ---------------------------------------------------------------------

  /** `EndpointMetrics`. */
  datatype EndpointMetrics = EndpointMetrics(path: string, avgLatencyMs: real, p95LatencyMs: real, count: nat)

  /** A log with a path and a latency. */
  function Timed(e: LogEntry): bool
  {
    e.path.Some? && e.responseTimeMs.Some?
  }

  function PathOf(e: LogEntry): string
  {
    e.path.GetOr("")
  }

  function LatencyOf(e: LogEntry): real
  {
    e.responseTimeMs.GetOr(0.0)
  }

  /** The logs with path `path` and a latency. */
  function TimedAt(path: string): LogEntry -> bool
  {
    (e: LogEntry) => e.path == Some(path) && e.responseTimeMs.Some?
  }

  /** The 95th percentile, always defined. */
  function P95(values: seq<real>): (v: real)
    ensures |values| > 0 ==> v in values
    ensures |values| > 0 ==> Some(v) == CalculatePercentile(values, 0.95)
    ensures 0 < |values| <= JavaInt.INT_MAX ==> (Count(values, Below(v)) as real) < Fraction(0.95, |values|)
    ensures 0 < |values| <= JavaInt.INT_MAX ==> Fraction(0.95, |values|) <= Count(values, AtMost(v)) as real
  {
    if |values| == 0 then 0.0
    else
      PercentileSlotInRange(|values|, 0.95);
      if |values| <= JavaInt.INT_MAX then
        PercentileRank(values, 0.95);
        CalculatePercentile(values, 0.95).value
      else
        CalculatePercentile(values, 0.95).value
  }

  /** The record of one path: mean and 95th percentile of its latencies and
      the number of its logs. */
  function SlowStats(path: string, group: seq<LogEntry>): (m: EndpointMetrics)
    ensures m.path == path && m.count == |group|
    ensures m.avgLatencyMs == Mean(Map(group, LatencyOf))
    ensures |group| > 0 ==> m.p95LatencyMs in Map(group, LatencyOf)
    ensures |group| > 0 ==> Some(m.p95LatencyMs) == CalculatePercentile(Map(group, LatencyOf), 0.95)
    ensures 0 < |group| <= JavaInt.INT_MAX ==>
      (Count(Map(group, LatencyOf), Below(m.p95LatencyMs)) as real) < Fraction(0.95, |group|)
    ensures 0 < |group| <= JavaInt.INT_MAX ==>
      Fraction(0.95, |group|) <= Count(Map(group, LatencyOf), AtMost(m.p95LatencyMs)) as real
  {
    var values := Map(group, LatencyOf);
    EndpointMetrics(path, Mean(values), P95(values), |group|)
  }

  /** One record per path of the timed logs, in order of first appearance. */
  function SlowGroups(logs: seq<LogEntry>): (ms: seq<EndpointMetrics>)
    ensures |ms| == |Keys(Filter(logs, Timed), PathOf)|
    ensures forall i :: 0 <= i < |ms| ==>
      ms[i] == SlowStats(Keys(Filter(logs, Timed), PathOf)[i],
                         Members(Filter(logs, Timed), PathOf, Keys(Filter(logs, Timed), PathOf)[i]))
  {
    var timed := Filter(logs, Timed);
    var ks := Keys(timed, PathOf);
    seq(|ks|, i requires 0 <= i < |ks| => SlowStats(ks[i], Members(timed, PathOf, ks[i])))
  }

  /** Each record counts the timed logs of its path, at least one, and
      every timed log is counted under its path. */
  lemma SlowGroupCounts(logs: seq<LogEntry>, m: EndpointMetrics)
    requires m in SlowGroups(logs)
    ensures m.count == Count(logs, TimedAt(m.path)) && m.count > 0
  {
    var timed := Filter(logs, Timed);
    var ks := Keys(timed, PathOf);
    var i :| 0 <= i < |ks| && SlowGroups(logs)[i] == m;
    var g := Members(timed, PathOf, ks[i]);
    assert m == SlowStats(ks[i], g);
    assert ks[i] in ks;
    forall j | 0 <= j < |logs|
      ensures TimedAt(m.path)(logs[j]) == (Timed(logs[j]) && PathOf(logs[j]) == m.path)
    {
    }
    FilteredGroupCount(logs, Timed, PathOf, ks[i], TimedAt(m.path));
  }

  /** The records partition the timed logs. */
  lemma SlowGroupsPartition(logs: seq<LogEntry>)
    ensures SumNat(Map(SlowGroups(logs), (m: EndpointMetrics) => m.count)) == Count(logs, Timed)
  {
    var timed := Filter(logs, Timed);
    var ks := Keys(timed, PathOf);
    assert Map(SlowGroups(logs), (m: EndpointMetrics) => m.count) == Sizes(ks, timed, PathOf);
    GroupSizesSum(timed, PathOf);
  }

  function AvgKey(m: EndpointMetrics): real
  {
    m.avgLatencyMs
  }

  /** The records by decreasing mean latency, ties in first-appearance order. */
  function SlowByLatency(logs: seq<LogEntry>): (sorted: seq<EndpointMetrics>)
    ensures multiset(sorted) == multiset(SlowGroups(logs))
    ensures Sorting.SortedBy(sorted, Sorting.Descending(AvgKey))
  {
    Sorting.KeyOrdersArePreorders(AvgKey);
    Sorting.SortBy(SlowGroups(logs), Sorting.Descending(AvgKey))
  }

  /** `calculateTopSlowEndpoints`: the records by decreasing mean latency,
      at most `limit` of them; `None` is the exception a negative limit
      raises. */
  function TopSlowEndpoints(logs: seq<LogEntry>, limit: int): (r: Option<seq<EndpointMetrics>>)
    ensures r.None? <==> limit < 0
    ensures r.Some? ==> |r.value| == if limit < |SlowGroups(logs)| then limit else |SlowGroups(logs)|
    ensures r.Some? ==> Sorting.SortedBy(r.value, Sorting.Descending(AvgKey))
    ensures r.Some? ==> forall m :: m in r.value ==> m in SlowGroups(logs)
    ensures r.Some? ==> multiset(r.value) <= multiset(SlowGroups(logs))
  {
    if limit < 0 then None
    else
      var sorted := SlowByLatency(logs);
      assert |sorted| == |SlowGroups(logs)| by {
        assert |multiset(sorted)| == |multiset(SlowGroups(logs))|;
      }
      var top := Take(sorted, limit);
      Sorting.TakeSorted(sorted, Sorting.Descending(AvgKey), limit);
      TakeSubMultiset(sorted, limit);
      forall m | m in top
        ensures m in SlowGroups(logs)
      {
        assert m in multiset(sorted);
      }
      Some(top)
  }

  /** No path left out is slower on average than a listed one. */
  lemma TopSlowAreSlowest(logs: seq<LogEntry>, limit: int, m: EndpointMetrics)
    requires limit >= 0
    requires m in SlowGroups(logs) && m !in TopSlowEndpoints(logs, limit).value
    ensures forall t :: t in TopSlowEndpoints(logs, limit).value ==> m.avgLatencyMs <= t.avgLatencyMs
  {
    var sorted := SlowByLatency(logs);
    assert m in multiset(sorted);
    Sorting.TakeDominates(sorted, Sorting.Descending(AvgKey), limit, m);
    forall t | t in TopSlowEndpoints(logs, limit).value
      ensures m.avgLatencyMs <= t.avgLatencyMs
    {
      assert AvgKey(t) >= AvgKey(m);
    }
  }

  // ---------------------------------------------------------------------
  // Most failing endpoints
  // ---------------------------------------------------------------------

  /** `EndpointError`. */
  datatype EndpointError = EndpointError(path: string, status: int, count: nat, lastSeen: int)

  /** A failed log (`Boolean.FALSE.equals(success)`, so not a `null` one)
      with a path. */
  function FailedWithPath(e: LogEntry): bool
  {
    e.success == Some(false) && e.path.Some?
  }

  function FailedAt(path: string): LogEntry -> bool
  {
    (e: LogEntry) => e.success == Some(false) && e.path == Some(path)
  }

  function CodeOf(e: LogEntry): int
  {
    e.statusCode.GetOr(0)
  }

  /** The number of logs of `coded` with code `k`. */
  function CodeCount(coded: seq<LogEntry>, k: int): nat
  {
    |Members(coded, CodeOf, k)|
  }

  /** The code counts of `coded`, as a function. */
  function CountsIn(coded: seq<LogEntry>): int -> nat
  {
    (k: int) => CodeCount(coded, k)
  }

  /** `Stream.max` by `count` over the codes `ks`: a later code replaces the
      current one only when strictly more frequent, so the first of the
      most frequent codes wins. */
  function MostFrequent(ks: seq<int>, count: int -> nat): (k: int)
    requires |ks| > 0
    ensures k in ks
    ensures forall i :: 0 <= i < |ks| ==> count(ks[i]) <= count(k)
  {
    if |ks| == 1 then ks[0]
    else
      var n := |ks| - 1;
      var best := MostFrequent(ks[..n], count);
      assert forall i :: 0 <= i < n ==> ks[..n][i] == ks[i];
      if count(best) >= count(ks[n]) then best else ks[n]
  }

  /** Every code before position `j` is strictly less frequent than it. */
  predicate FirstMax(ks: seq<int>, count: int -> nat, j: int)
  {
    0 <= j < |ks| && forall i :: 0 <= i < j ==> count(ks[i]) < count(ks[j])
  }

  /** Ties go to the first: every code before the chosen one is strictly
      less frequent. */
  lemma {:induction false} MostFrequentIsFirst(ks: seq<int>, count: int -> nat)
    requires |ks| > 0
    ensures exists j :: FirstMax(ks, count, j) && ks[j] == MostFrequent(ks, count)
  {
    if |ks| == 1 {
      assert FirstMax(ks, count, 0);
    } else {
      var n := |ks| - 1;
      var init := ks[..n];
      var best := MostFrequent(init, count);
      MostFrequentIsFirst(init, count);
      var j :| FirstMax(init, count, j) && init[j] == best;
      if count(best) >= count(ks[n]) {
        assert MostFrequent(ks, count) == best;
        assert forall i :: 0 <= i <= j ==> ks[i] == init[i];
        assert FirstMax(ks, count, j);
      } else {
        assert MostFrequent(ks, count) == ks[n];
        forall i | 0 <= i < n
          ensures count(ks[i]) < count(ks[n])
        {
          assert ks[i] == init[i];
        }
        assert FirstMax(ks, count, n);
      }
    }
  }

  /** The most frequent status code of a group's failures, 500 when none
      has a code. */
  function MostCommonStatus(errors: seq<LogEntry>): int
  {
    var coded := Filter(errors, HasStatus);
    var ks := Keys(coded, CodeOf);
    if |ks| == 0 then 500 else MostFrequent(ks, CountsIn(coded))
  }

  /** The status is 500 when no failure has a code, and otherwise a code of
      the group at least as frequent as any other. */
  lemma MostCommonStatusIsMode(errors: seq<LogEntry>)
    ensures (forall i :: 0 <= i < |errors| ==> errors[i].statusCode.None?) ==> MostCommonStatus(errors) == 500
    ensures (exists i :: 0 <= i < |errors| && errors[i].statusCode.Some?) ==>
      && (exists i :: 0 <= i < |errors| && errors[i].statusCode == Some(MostCommonStatus(errors)))
      && forall i :: 0 <= i < |errors| && errors[i].statusCode.Some? ==>
           CodeCount(Filter(errors, HasStatus), errors[i].statusCode.value)
             <= CodeCount(Filter(errors, HasStatus), MostCommonStatus(errors))
  {
    var coded := Filter(errors, HasStatus);
    var ks := Keys(coded, CodeOf);
    if i :| 0 <= i < |errors| && errors[i].statusCode.Some? {
      CodedHasKeys(errors);
      assert errors[i].statusCode.value in ks;
      var k := MostFrequent(ks, CountsIn(coded));
      assert MostCommonStatus(errors) == k;
      KeyPresent(coded, CodeOf, k);
      ModeOccurs(errors, k);
      forall i | 0 <= i < |errors| && errors[i].statusCode.Some?
        ensures CodeCount(coded, errors[i].statusCode.value) <= CodeCount(coded, k)
      {
        var m :| 0 <= m < |ks| && ks[m] == errors[i].statusCode.value;
        assert CountsIn(coded)(ks[m]) <= CountsIn(coded)(k);
      }
    } else {
      NoCodedFailures(errors);
    }
  }

  /** The code of a coded failure is the code of one of the failures. */
  lemma ModeOccurs(errors: seq<LogEntry>, k: int)
    requires exists j :: 0 <= j < |Filter(errors, HasStatus)| && CodeOf(Filter(errors, HasStatus)[j]) == k
    ensures exists i :: 0 <= i < |errors| && errors[i].statusCode == Some(k)
  {
    var coded := Filter(errors, HasStatus);
    var j :| 0 <= j < |coded| && CodeOf(coded[j]) == k;
    CodedOccurs(errors, coded[j]);
  }

  /** A coded failure is one of the failures, and has a code. */
  lemma CodedOccurs(errors: seq<LogEntry>, x: LogEntry)
    requires x in Filter(errors, HasStatus)
    ensures x.statusCode.Some?
    ensures exists i :: 0 <= i < |errors| && errors[i].statusCode == Some(CodeOf(x))
  {
    var m :| 0 <= m < |errors| && errors[m] == x;
  }

  /** With no code among the failures there is nothing to count. */
  lemma NoCodedFailures(errors: seq<LogEntry>)
    requires forall i :: 0 <= i < |errors| ==> errors[i].statusCode.None?
    ensures Keys(Filter(errors, HasStatus), CodeOf) == []
  {
  }

  /** Every code of the failures is a key of the coded ones. */
  lemma CodedHasKeys(errors: seq<LogEntry>)
    ensures forall i :: 0 <= i < |errors| && errors[i].statusCode.Some? ==>
      errors[i].statusCode.value in Keys(Filter(errors, HasStatus), CodeOf)
  {
    forall i | 0 <= i < |errors| && errors[i].statusCode.Some?
      ensures errors[i].statusCode.value in Keys(Filter(errors, HasStatus), CodeOf)
    {
      assert errors[i] in Filter(errors, HasStatus);
    }
  }

  /** The latest timestamp of some logs. */
  function LastSeen(errors: seq<LogEntry>): (t: int)
    requires |errors| > 0
    ensures exists i :: 0 <= i < |errors| && errors[i].timestamp == t
    ensures forall i :: 0 <= i < |errors| ==> errors[i].timestamp <= t
  {
    if |errors| == 1 then errors[0].timestamp
    else
      var rest := LastSeen(errors[1..]);
      assert forall i :: 1 <= i < |errors| ==> errors[i] == errors[1..][i - 1];
      if errors[0].timestamp >= rest then errors[0].timestamp else rest
  }

  /** The record of one path's failures; `now` stands for the clock the
      source reads when there is no failure, which a group never lacks. */
  function ErrorStats(path: string, errors: seq<LogEntry>, now: int): (r: EndpointError)
    ensures r.path == path && r.count == |errors|
    ensures r.status == MostCommonStatus(errors)
    ensures |errors| > 0 ==> r.lastSeen == LastSeen(errors)
  {
    EndpointError(path, MostCommonStatus(errors), |errors|, if |errors| > 0 then LastSeen(errors) else now)
  }

  /** One record per path of the failed logs, in order of first appearance. */
  function ErrorGroups(logs: seq<LogEntry>, now: int): (es: seq<EndpointError>)
    ensures |es| == |Keys(Filter(logs, FailedWithPath), PathOf)|
    ensures forall i :: 0 <= i < |es| ==>
      es[i] == ErrorStats(Keys(Filter(logs, FailedWithPath), PathOf)[i],
                          Members(Filter(logs, FailedWithPath), PathOf, Keys(Filter(logs, FailedWithPath), PathOf)[i]), now)
  {
    var failed := Filter(logs, FailedWithPath);
    var ks := Keys(failed, PathOf);
    seq(|ks|, i requires 0 <= i < |ks| => ErrorStats(ks[i], Members(failed, PathOf, ks[i]), now))
  }

  /** Each record counts the failures of its path, at least one. */
  lemma ErrorGroupCount(logs: seq<LogEntry>, now: int, r: EndpointError)
    requires r in ErrorGroups(logs, now)
    ensures r.count == Count(logs, FailedAt(r.path)) && r.count > 0
  {
    var failed := Filter(logs, FailedWithPath);
    var ks := Keys(failed, PathOf);
    var i :| 0 <= i < |ks| && ErrorGroups(logs, now)[i] == r;
    var g := Members(failed, PathOf, ks[i]);
    assert r == ErrorStats(ks[i], g, now);
    assert ks[i] in ks;
    forall j | 0 <= j < |logs|
      ensures FailedAt(r.path)(logs[j]) == (FailedWithPath(logs[j]) && PathOf(logs[j]) == r.path)
    {
    }
    FilteredGroupCount(logs, FailedWithPath, PathOf, ks[i], FailedAt(r.path));
  }

  /** A record's last-seen time is that of one of its path's failures, and
      none is later. */
  lemma ErrorGroupLastSeen(logs: seq<LogEntry>, now: int, r: EndpointError)
    requires r in ErrorGroups(logs, now)
    ensures exists e :: e in logs && FailedAt(r.path)(e) && e.timestamp == r.lastSeen
    ensures forall e :: e in logs && FailedAt(r.path)(e) ==> e.timestamp <= r.lastSeen
  {
    var failed := Filter(logs, FailedWithPath);
    var ks := Keys(failed, PathOf);
    var i :| 0 <= i < |ks| && ErrorGroups(logs, now)[i] == r;
    var group := Members(failed, PathOf, ks[i]);
    assert r == ErrorStats(ks[i], group, now);
    assert ks[i] in ks;
    assert |group| > 0;
    assert r.lastSeen == LastSeen(group);
    var j :| 0 <= j < |group| && group[j].timestamp == r.lastSeen;
    assert group[j] in group;
    forall e | e in logs && FailedAt(r.path)(e)
      ensures e.timestamp <= r.lastSeen
    {
      assert e in failed;
      assert e in group;
    }
  }

  function CountKey(r: EndpointError): real
  {
    r.count as real
  }

  /** The records by decreasing count, ties in first-appearance order. */
  function ErrorsByCount(logs: seq<LogEntry>, now: int): (sorted: seq<EndpointError>)
    ensures multiset(sorted) == multiset(ErrorGroups(logs, now))
    ensures Sorting.SortedBy(sorted, Sorting.Descending(CountKey))
  {
    Sorting.KeyOrdersArePreorders(CountKey);
    Sorting.SortBy(ErrorGroups(logs, now), Sorting.Descending(CountKey))
  }

  /** `calculateTopErrorEndpoints`: the records by decreasing count, at most
      `limit` of them; `None` is the exception a negative limit raises. */
  function TopErrorEndpoints(logs: seq<LogEntry>, limit: int, now: int): (r: Option<seq<EndpointError>>)
    ensures r.None? <==> limit < 0
    ensures r.Some? ==> |r.value| == if limit < |ErrorGroups(logs, now)| then limit else |ErrorGroups(logs, now)|
    ensures r.Some? ==> Sorting.SortedBy(r.value, Sorting.Descending(CountKey))
    ensures r.Some? ==> forall e :: e in r.value ==> e in ErrorGroups(logs, now)
    ensures r.Some? ==> multiset(r.value) <= multiset(ErrorGroups(logs, now))
  {
    if limit < 0 then None
    else
      var sorted := ErrorsByCount(logs, now);
      assert |sorted| == |ErrorGroups(logs, now)| by {
        assert |multiset(sorted)| == |multiset(ErrorGroups(logs, now))|;
      }
      var top := Take(sorted, limit);
      Sorting.TakeSorted(sorted, Sorting.Descending(CountKey), limit);
      TakeSubMultiset(sorted, limit);
      forall e | e in top
        ensures e in ErrorGroups(logs, now)
      {
        assert e in multiset(sorted);
      }
      Some(top)
  }

  /** No path left out failed more often than a listed one. */
  lemma TopErrorsAreMostFrequent(logs: seq<LogEntry>, limit: int, now: int, r: EndpointError)
    requires limit >= 0
    requires r in ErrorGroups(logs, now) && r !in TopErrorEndpoints(logs, limit, now).value
    ensures forall t :: t in TopErrorEndpoints(logs, limit, now).value ==> r.count <= t.count
  {
    var sorted := ErrorsByCount(logs, now);
    assert r in multiset(sorted);
    Sorting.TakeDominates(sorted, Sorting.Descending(CountKey), limit, r);
    forall t | t in TopErrorEndpoints(logs, limit, now).value
      ensures r.count <= t.count
    {
      assert CountKey(t) >= CountKey(r);
    }
  }
}
