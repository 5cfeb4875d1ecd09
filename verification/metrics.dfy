/** The connector-metrics side of `MetricsService`: its parse helpers, which
    read a missing or bad value as 0, the status of a service, the totals
    and the timeline of the overview, and the start of a reporting window. A
    metric is the map of column names to values one aggregation window of
    `getConnectorMetrics` holds; the streams are given in the order the
    store returns them. */
module Metrics {
  import opened Wrappers
  import opened Seqs
  import opened Grouping
  import BigtableRows
  import Decimal
  import JavaInt
  import Sorting
  import TimeUnits

  type Metric = map<string, string>

  const UPTIME: string := "uptime_percentage"
  const REQUESTS: string := "requests_per_minute"
  const LATENCY: string := "avg_response_time_ms"
  const SUCCESS_RATE: string := "success_rate_percentage"
  const ERROR_RATE: string := "error_rate_percentage"
  const TIMEOUT_RATE: string := "timeout_rate_percentage"
  const P50: string := "latency_p50"
  const P95: string := "latency_p95"
  const P99: string := "latency_p99"
  const WINDOW_TIMESTAMP: string := "window_timestamp"

  // ---------------------------------------------------------------------
  // Parse helpers
  // ---------------------------------------------------------------------

  /** `parseDouble`: 0 for a missing, empty or unparsable value. */
  function ParseDoubleOr0(v: Option<string>): (r: real)
    ensures v.None? || v == Some("") ==> r == 0.0
    ensures v.Some? && Decimal.ParseDecimal(v.value).None? ==> r == 0.0
    ensures v.Some? && Decimal.ParseDecimal(v.value).Some? ==> r == Decimal.ParseDecimal(v.value).value
  {
    BigtableRows.ParseDouble(v).GetOr(0.0)
  }

  /** `parseLong`: 0 for a missing, empty or unparsable value. */
  function ParseLongOr0(v: Option<string>): (r: int)
    ensures JavaInt.IsLong(r)
    ensures v.None? || v == Some("") ==> r == 0
    ensures v.Some? && Decimal.ParseLong(v.value).None? ==> r == 0
    ensures v.Some? && v.value != "" ==> r == Decimal.ParseLong(v.value).GetOr(0)
  {
    if v.None? || v.value == "" then 0
    else
      match Decimal.ParseLong(v.value)
      case Some(n) => n
      case None => 0
  }

  /** `parseInt`: 0 for a missing, empty or unparsable value. */
  function ParseIntOr0(v: Option<string>): (r: int)
    ensures JavaInt.IsInt(r)
    ensures v.None? || v == Some("") ==> r == 0
    ensures v.Some? && Decimal.ParseInt(v.value).None? ==> r == 0
    ensures v.Some? && v.value != "" ==> r == Decimal.ParseInt(v.value).GetOr(0)
  {
    BigtableRows.ParseInteger(v).GetOr(0)
  }

  /** The rendering of a `long` parses back to it, and of an `int` too. */
  lemma ParseOr0RoundTrip(n: int)
    ensures JavaInt.IsLong(n) ==> ParseLongOr0(Some(Decimal.IntToDecimal(n))) == n
    ensures JavaInt.IsInt(n) ==> ParseIntOr0(Some(Decimal.IntToDecimal(n))) == n
    ensures ParseDoubleOr0(Some(Decimal.IntToDecimal(n))) == n as real
  {
    if JavaInt.IsLong(n) {
      Decimal.ParseRoundTrip(n, JavaInt.LONG_MIN, JavaInt.LONG_MAX);
    }
    if JavaInt.IsInt(n) {
      Decimal.ParseRoundTrip(n, JavaInt.INT_MIN, JavaInt.INT_MAX);
    }
    Decimal.ParseDecimalOfInteger(n);
  }

  /** Any digit string with an optional sign, leading zeros allowed, reads
      as its signed value when that fits the type, and as 0 otherwise. */
  lemma ParseOr0Digits(sign: string, d: string)
    requires sign == "" || sign == "+" || sign == "-"
    requires |d| > 0 && Decimal.AllDigits(d)
    ensures var v := if sign == "-" then -(Decimal.Value(d) as int) else Decimal.Value(d) as int;
      && ParseLongOr0(Some(sign + d)) == (if JavaInt.IsLong(v) then v else 0)
      && ParseIntOr0(Some(sign + d)) == (if JavaInt.IsInt(v) then v else 0)
  {
    Decimal.ParseSignedDigits(sign, d, JavaInt.LONG_MIN, JavaInt.LONG_MAX);
    Decimal.ParseSignedDigits(sign, d, JavaInt.INT_MIN, JavaInt.INT_MAX);
    assert sign + d != "";
  }

  /** A column of a metric read as a double. */
  function Column(key: string): Metric -> real
  {
    (m: Metric) => ParseDoubleOr0(BigtableRows.Get(m, key))
  }

  // ---------------------------------------------------------------------
  // Service status
  // ---------------------------------------------------------------------

  /** `ServiceStatus`. */
  datatype ServiceStatus = ServiceStatus(
    name: string, status: string, uptimePercentage: real, requestsPerMinute: int,
    avgLatencyMs: real, successRate: real, errorRate: real)

  /** The rule of `calculateServiceStatus`: down below 99% uptime, degraded
      above 5% errors or 200 ms, healthy otherwise. */
  function Classify(uptime: real, errorRate: real, latency: real): string
  {
    if uptime < 99.0 then "down"
    else if errorRate > 5.0 then "degraded"
    else if latency > 200.0 then "degraded"
    else "healthy"
  }

  /** `calculateServiceStatus`: "unknown" and zeros without metrics,
      otherwise the figures of the latest window and their status. */
  function ServiceStatusOf(name: string, metrics: seq<Metric>): (s: ServiceStatus)
    ensures s.name == name
    ensures |metrics| == 0 ==> s == ServiceStatus(name, "unknown", 0.0, 0, 0.0, 0.0, 0.0)
    ensures |metrics| > 0 ==>
      var latest := metrics[|metrics| - 1];
      && s.uptimePercentage == Column(UPTIME)(latest)
      && s.requestsPerMinute == ParseIntOr0(BigtableRows.Get(latest, REQUESTS))
      && s.avgLatencyMs == Column(LATENCY)(latest)
      && s.successRate == Column(SUCCESS_RATE)(latest)
      && s.errorRate == Column(ERROR_RATE)(latest)
  {
    if |metrics| == 0 then ServiceStatus(name, "unknown", 0.0, 0, 0.0, 0.0, 0.0)
    else
      var latest := metrics[|metrics| - 1];
      var uptime := Column(UPTIME)(latest);
      var errorRate := Column(ERROR_RATE)(latest);
      var latency := Column(LATENCY)(latest);
      ServiceStatus(name, Classify(uptime, errorRate, latency), uptime,
                    ParseIntOr0(BigtableRows.Get(latest, REQUESTS)), latency,
                    Column(SUCCESS_RATE)(latest), errorRate)
  }

  /** The four statuses, each characterised by the figures it reports. */
  lemma ServiceStatusRules(name: string, metrics: seq<Metric>)
    ensures var s := ServiceStatusOf(name, metrics);
      && (s.status == "unknown" <==> |metrics| == 0)
      && (s.status == "down" <==> |metrics| > 0 && s.uptimePercentage < 99.0)
      && (s.status == "degraded" <==>
            |metrics| > 0 && s.uptimePercentage >= 99.0 && (s.errorRate > 5.0 || s.avgLatencyMs > 200.0))
      && (s.status == "healthy" <==>
            |metrics| > 0 && s.uptimePercentage >= 99.0 && s.errorRate <= 5.0 && s.avgLatencyMs <= 200.0)
  {
  }

  /** Only the latest window counts. */
  lemma ServiceStatusUsesLatest(name: string, metrics: seq<Metric>)
    requires |metrics| > 0
    ensures ServiceStatusOf(name, metrics) == ServiceStatusOf(name, [metrics[|metrics| - 1]])
  {
  }

  /** A latest window without an uptime reads it as 0, so the service is down. */
  lemma MissingUptimeIsDown(name: string, metrics: seq<Metric>)
    requires |metrics| > 0 && UPTIME !in metrics[|metrics| - 1]
    ensures ServiceStatusOf(name, metrics).status == "down"
  {
  }

  // ---------------------------------------------------------------------
  // Totals
  // ---------------------------------------------------------------------

  /** `TotalMetrics`. */
  datatype TotalMetrics = TotalMetrics(
    totalRequests: int, successRate: real, errorRate: real, avgLatencyMs: real,
    p50LatencyMs: real, p95LatencyMs: real, p99LatencyMs: real, timeoutRate: real)

  const ZERO_TOTALS: TotalMetrics := TotalMetrics(0, 0.0, 0.0, 0.0, 0.0, 0.0, 0.0, 0.0)

  function RequestsOf(m: Metric): int
  {
    ParseLongOr0(BigtableRows.Get(m, REQUESTS))
  }

  /** The exact sum of the request counts of some windows. */
  function RequestSum(ms: seq<Metric>): int
  {
    if |ms| == 0 then 0 else RequestsOf(ms[0]) + RequestSum(ms[1..])
  }

  lemma {:induction false} RequestSumAppend(a: seq<Metric>, b: seq<Metric>)
    ensures RequestSum(a + b) == RequestSum(a) + RequestSum(b)
  {
    if |a| == 0 {
      assert a + b == b;
    } else {
      assert (a + b)[1..] == a[1..] + b;
      RequestSumAppend(a[1..], b);
    }
  }

  /** The mean of a column over some windows, 0 without windows. */
  function ColumnMean(ms: seq<Metric>, key: string): real
  {
    Mean(Map(ms, Column(key)))
  }

  /** The last window of the gateway windows followed by the connector
      windows: the connector's last one when it has any. */
  function LatestWindow(gateway: seq<Metric>, connector: seq<Metric>): (m: Metric)
    requires |gateway| + |connector| > 0
    ensures |connector| > 0 ==> m == connector[|connector| - 1]
    ensures |connector| == 0 ==> m == gateway[|gateway| - 1]
  {
    var all := gateway + connector;
    all[|all| - 1]
  }

  /** `calculateTotals`: over the gateway windows followed by the connector
      windows, the request total (a `long` sum, which wraps), the mean rates
      and latency, and the percentiles of the last window; all zero without
      windows. */
  function Totals(gateway: seq<Metric>, connector: seq<Metric>): (t: TotalMetrics)
    ensures |gateway| + |connector| == 0 ==> t == ZERO_TOTALS
    ensures |gateway| + |connector| > 0 ==> Latest(t, LatestWindow(gateway, connector))
    ensures t.totalRequests == JavaInt.Wrap64(RequestSum(gateway + connector))
    ensures |gateway| + |connector| > 0 ==>
      && t.successRate == ColumnMean(gateway + connector, SUCCESS_RATE)
      && t.errorRate == ColumnMean(gateway + connector, ERROR_RATE)
      && t.avgLatencyMs == ColumnMean(gateway + connector, LATENCY)
  {
    var all := gateway + connector;
    if |all| == 0 then ZERO_TOTALS
    else
      var latest := LatestWindow(gateway, connector);
      TotalMetrics(JavaInt.Wrap64(RequestSum(all)), ColumnMean(all, SUCCESS_RATE),
                   ColumnMean(all, ERROR_RATE), ColumnMean(all, LATENCY),
                   Column(P50)(latest), Column(P95)(latest), Column(P99)(latest),
                   Column(TIMEOUT_RATE)(latest))
  }

  /** The request total is the sum over both streams, wrapped to a `long`. */
  lemma TotalRequestsWrap(gateway: seq<Metric>, connector: seq<Metric>)
    ensures var total := RequestSum(gateway) + RequestSum(connector);
      Totals(gateway, connector).totalRequests == JavaInt.Wrap64(total)
  {
    var sum := RequestSum(gateway + connector);
    RequestSumAppend(gateway, connector);
    assert sum == RequestSum(gateway) + RequestSum(connector);
    WrappedTotal(gateway, connector, sum);
  }

  /** A request total that fits in a `long` is exact. */
  lemma TotalRequestsExact(gateway: seq<Metric>, connector: seq<Metric>)
    requires JavaInt.IsLong(RequestSum(gateway) + RequestSum(connector))
    ensures Totals(gateway, connector).totalRequests == RequestSum(gateway) + RequestSum(connector)
  {
    RequestSumAppend(gateway, connector);
    WrappedTotal(gateway, connector, RequestSum(gateway) + RequestSum(connector));
  }

  lemma WrappedTotal(gateway: seq<Metric>, connector: seq<Metric>, total: int)
    requires total == RequestSum(gateway + connector)
    ensures Totals(gateway, connector).totalRequests == JavaInt.Wrap64(total)
    ensures JavaInt.IsLong(total) ==> Totals(gateway, connector).totalRequests == total
  {
  }

  /** The percentiles and timeout rate are those of window `m`. */
  predicate Latest(t: TotalMetrics, m: Metric)
  {
    && t.p50LatencyMs == Column(P50)(m)
    && t.p95LatencyMs == Column(P95)(m)
    && t.p99LatencyMs == Column(P99)(m)
    && t.timeoutRate == Column(TIMEOUT_RATE)(m)
  }

  /** Rates every window keeps within bounds stay within them on average. */
  lemma TotalsRatesBounded(gateway: seq<Metric>, connector: seq<Metric>, key: string, lo: real, hi: real)
    requires key == SUCCESS_RATE || key == ERROR_RATE || key == LATENCY
    requires lo <= 0.0 <= hi
    requires forall m :: m in gateway + connector ==> lo <= Column(key)(m) <= hi
    ensures var t := Totals(gateway, connector);
      lo <= (if key == SUCCESS_RATE then t.successRate else if key == ERROR_RATE then t.errorRate else t.avgLatencyMs) <= hi
  {
    var all := gateway + connector;
    if |all| > 0 {
      var xs := Map(all, Column(key));
      assert forall i :: 0 <= i < |xs| ==> xs[i] == Column(key)(all[i]) && all[i] in all;
      MeanBounds(xs, lo, hi);
    }
  }

  // ---------------------------------------------------------------------
  // Reporting window
  // ---------------------------------------------------------------------

  /** `calculateStartTime`: the window of a time range ends at `endTime`;
      any range other than the five known ones is one hour. */
  function StartTime(endTime: int, timeRange: string): (start: int)
    ensures start < endTime
    ensures timeRange == "6h" ==> endTime - start == 6 * TimeUnits.HOUR_MS
    ensures timeRange == "24h" ==> endTime - start == TimeUnits.DAY_MS
    ensures timeRange == "7d" ==> endTime - start == 7 * TimeUnits.DAY_MS
    ensures timeRange == "30d" ==> endTime - start == 30 * TimeUnits.DAY_MS
    ensures timeRange !in {"6h", "24h", "7d", "30d"} ==> endTime - start == TimeUnits.HOUR_MS
  {
    match timeRange
    case "1h" => endTime - TimeUnits.HOUR_MS
    case "6h" => endTime - 6 * TimeUnits.HOUR_MS
    case "24h" => endTime - 24 * TimeUnits.HOUR_MS
    case "7d" => endTime - 7 * TimeUnits.DAY_MS
    case "30d" => endTime - 30 * TimeUnits.DAY_MS
    case _ => endTime - TimeUnits.HOUR_MS
  }

  /** The five known ranges nest: each longer one starts earlier. */
  lemma StartTimesNest(endTime: int)
    ensures StartTime(endTime, "30d") < StartTime(endTime, "7d") < StartTime(endTime, "24h")
          < StartTime(endTime, "6h") < StartTime(endTime, "1h")
  {
  }

  // ---------------------------------------------------------------------
  // Timeline
  // ---------------------------------------------------------------------

  /** The window of a metric; a missing or bad timestamp reads as 0. */
  function TimestampOf(m: Metric): int
  {
    ParseLongOr0(BigtableRows.Get(m, WINDOW_TIMESTAMP))
  }

  function RateOf(m: Metric): int
  {
    ParseIntOr0(BigtableRows.Get(m, REQUESTS))
  }

  /** Some window of `ms` has timestamp `t`. */
  predicate HasWindow(ms: seq<Metric>, t: int)
  {
    exists i :: 0 <= i < |ms| && TimestampOf(ms[i]) == t
  }

  /** The request rate of the last window of `ms` with timestamp `t`, the
      value a builder keeps when several windows write to it; `None` (a
      `null` field) when there is none. */
  function LastRate(ms: seq<Metric>, t: int): Option<int>
  {
    if |ms| == 0 then None
    else if TimestampOf(ms[|ms| - 1]) == t then Some(RateOf(ms[|ms| - 1]))
    else LastRate(ms[..|ms| - 1], t)
  }

  /** The rate is present exactly when some window has the timestamp. */
  lemma {:induction false} LastRateFound(ms: seq<Metric>, t: int)
    ensures LastRate(ms, t).Some? <==> HasWindow(ms, t)
  {
    if |ms| > 0 {
      var n := |ms| - 1;
      var init := ms[..n];
      if TimestampOf(ms[n]) != t {
        LastRateFound(init, t);
        if HasWindow(ms, t) {
          var i :| 0 <= i < |ms| && TimestampOf(ms[i]) == t;
          assert init[i] == ms[i];
        }
        if HasWindow(init, t) {
          var i :| 0 <= i < n && TimestampOf(init[i]) == t;
          assert init[i] == ms[i];
        }
      }
    }
  }

  /** Window `i` is the last of `ms` with timestamp `t`. */
  predicate LastWindowAt(ms: seq<Metric>, t: int, i: int)
  {
    0 <= i < |ms| && TimestampOf(ms[i]) == t && forall j :: i < j < |ms| ==> TimestampOf(ms[j]) != t
  }

  /** A present rate is that of the last window with the timestamp. */
  lemma {:induction false} LastRateIsLast(ms: seq<Metric>, t: int)
    requires LastRate(ms, t).Some?
    ensures exists i :: LastWindowAt(ms, t, i) && LastRate(ms, t).value == RateOf(ms[i])
  {
    var n := |ms| - 1;
    var init := ms[..n];
    if TimestampOf(ms[n]) == t {
      assert LastWindowAt(ms, t, n);
    } else {
      LastRateIsLast(init, t);
      var i :| LastWindowAt(init, t, i) && LastRate(init, t).value == RateOf(init[i]);
      assert init[i] == ms[i];
      forall j | i < j < |ms|
        ensures TimestampOf(ms[j]) != t
      {
        if j < n {
          assert init[j] == ms[j];
        }
      }
      assert LastWindowAt(ms, t, i);
    }
  }

  /** `TimelinePoint`: the requests of either service are `null` when it has
      no window at that time. */
  datatype TimelinePoint = TimelinePoint(timestamp: int, piGatewayRequests: Option<int>, piConnectorRequests: Option<int>)

  function TimeKey(t: int): real
  {
    t as real
  }

  /** The distinct window timestamps of both streams, in ascending order. */
  function Timestamps(gateway: seq<Metric>, connector: seq<Metric>): (ts: seq<int>)
    ensures forall i, j :: 0 <= i < j < |ts| ==> ts[i] < ts[j]
    ensures forall t :: t in ts <==> HasWindow(gateway, t) || HasWindow(connector, t)
  {
    var all := gateway + connector;
    var keys := Keys(all, TimestampOf);
    Sorting.KeyOrdersArePreorders(TimeKey);
    var ts := Sorting.SortBy(keys, Sorting.Ascending(TimeKey));
    DistinctPermutation(keys, ts);
    StrictlyAscending(ts);
    forall t
      ensures t in ts <==> HasWindow(gateway, t) || HasWindow(connector, t)
    {
      assert t in ts <==> t in multiset(keys);
      WindowInEither(gateway, connector, t);
      KeyHasWindow(all, t);
    }
    ts
  }

  /** Distinct timestamps in ascending order are strictly ascending. */
  lemma StrictlyAscending(ts: seq<int>)
    requires Sorting.SortedBy(ts, Sorting.Ascending(TimeKey)) && Distinct(ts)
    ensures forall i, j :: 0 <= i < j < |ts| ==> ts[i] < ts[j]
  {
    forall i, j | 0 <= i < j < |ts|
      ensures ts[i] < ts[j]
    {
      assert Sorting.Ascending(TimeKey)(ts[i], ts[j]);
      assert TimeKey(ts[i]) <= TimeKey(ts[j]);
      assert ts[i] != ts[j];
    }
  }

  /** A timestamp is a group key exactly when some window has it. */
  lemma KeyHasWindow(all: seq<Metric>, t: int)
    ensures t in Keys(all, TimestampOf) <==> HasWindow(all, t)
  {
    if t in Keys(all, TimestampOf) {
      var m := Members(all, TimestampOf, t)[0];
      assert m in all;
      var i :| 0 <= i < |all| && all[i] == m;
    }
    if HasWindow(all, t) {
      var i :| 0 <= i < |all| && TimestampOf(all[i]) == t;
      assert all[i] in all;
    }
  }

  lemma WindowInEither(gateway: seq<Metric>, connector: seq<Metric>, t: int)
    ensures HasWindow(gateway + connector, t) <==> HasWindow(gateway, t) || HasWindow(connector, t)
  {
    var all := gateway + connector;
    if HasWindow(all, t) {
      var i :| 0 <= i < |all| && TimestampOf(all[i]) == t;
      if i >= |gateway| {
        assert connector[i - |gateway|] == all[i];
      }
    }
    if HasWindow(connector, t) {
      var i :| 0 <= i < |connector| && TimestampOf(connector[i]) == t;
      assert all[|gateway| + i] == connector[i];
    }
    if HasWindow(gateway, t) {
      var i :| 0 <= i < |gateway| && TimestampOf(gateway[i]) == t;
      assert all[i] == gateway[i];
    }
  }

  /** `buildTimeline`: one point per distinct window timestamp of either
      stream, oldest first, each with the last rate either stream reported
      for it. */
  function Timeline(gateway: seq<Metric>, connector: seq<Metric>): (points: seq<TimelinePoint>)
    ensures |points| == |Timestamps(gateway, connector)|
    ensures forall i :: 0 <= i < |points| ==> points[i].timestamp == Timestamps(gateway, connector)[i]
    ensures forall i, j :: 0 <= i < j < |points| ==> points[i].timestamp < points[j].timestamp
    ensures forall i :: 0 <= i < |points| ==>
      && points[i].piGatewayRequests == LastRate(gateway, points[i].timestamp)
      && points[i].piConnectorRequests == LastRate(connector, points[i].timestamp)
      && (points[i].piGatewayRequests.Some? || points[i].piConnectorRequests.Some?)
  {
    var ts := Timestamps(gateway, connector);
    TimestampsHaveRates(gateway, connector, ts);
    var points := seq(|ts|, i requires 0 <= i < |ts| =>
      TimelinePoint(ts[i], LastRate(gateway, ts[i]), LastRate(connector, ts[i])));
    assert forall i :: 0 <= i < |points| ==> points[i].timestamp == ts[i];
    points
  }

  lemma TimestampsHaveRates(gateway: seq<Metric>, connector: seq<Metric>, ts: seq<int>)
    requires ts == Timestamps(gateway, connector)
    ensures forall i :: 0 <= i < |ts| ==> LastRate(gateway, ts[i]).Some? || LastRate(connector, ts[i]).Some?
  {
    forall i | 0 <= i < |ts|
      ensures LastRate(gateway, ts[i]).Some? || LastRate(connector, ts[i]).Some?
    {
      assert ts[i] in ts;
      LastRateFound(gateway, ts[i]);
      LastRateFound(connector, ts[i]);
    }
  }

  /** Every window, from either stream, has its point. */
  lemma TimelineCoversWindows(gateway: seq<Metric>, connector: seq<Metric>, t: int)
    ensures (exists i :: 0 <= i < |Timeline(gateway, connector)| && Timeline(gateway, connector)[i].timestamp == t)
        <==> HasWindow(gateway, t) || HasWindow(connector, t)
  {
    var ts := Timestamps(gateway, connector);
    var points := Timeline(gateway, connector);
    if t in ts {
      var i :| 0 <= i < |ts| && ts[i] == t;
      assert points[i].timestamp == t;
    }
    if i :| 0 <= i < |points| && points[i].timestamp == t {
      assert ts[i] in ts;
    }
  }

  /** Appending a window makes it the last one of its timestamp. */
  lemma LastRateSnoc(ms: seq<Metric>, m: Metric, t: int)
    ensures LastRate(ms + [m], t) == if TimestampOf(m) == t then Some(RateOf(m)) else LastRate(ms, t)
  {
    assert (ms + [m])[..|ms|] == ms;
  }

  /** The builders of `buildTimeline`: per timestamp, the gateway and the
      connector rate last written. */
  type Builders = map<int, (Option<int>, Option<int>)>

  /** The first loop of `buildTimeline`: a builder is created on a
      timestamp's first gateway window and overwritten by each later one. */
  method GatewayBuilders(gateway: seq<Metric>) returns (builders: Builders)
    ensures forall t :: t in builders <==> LastRate(gateway, t).Some?
    ensures forall t :: t in builders ==> builders[t] == (LastRate(gateway, t), None)
  {
    builders := map[];
    for i := 0 to |gateway|
      invariant forall t :: t in builders <==> LastRate(gateway[..i], t).Some?
      invariant forall t :: t in builders ==> builders[t] == (LastRate(gateway[..i], t), None)
    {
      var m := gateway[i];
      var t := TimestampOf(m);
      var connectorRate := if t in builders then builders[t].1 else None;
      var next := builders[t := (Some(RateOf(m)), connectorRate)];
      assert gateway[..i + 1] == gateway[..i] + [m];
      forall u
        ensures u in next <==> LastRate(gateway[..i + 1], u).Some?
        ensures u in next ==> next[u] == (LastRate(gateway[..i + 1], u), None)
      {
        LastRateSnoc(gateway[..i], m, u);
      }
      builders := next;
    }
    assert gateway[..|gateway|] == gateway;
  }

  /** The second loop of `buildTimeline`: the connector windows write their
      rates into the same builders, creating the missing ones. */
  method AddConnector(gateway: seq<Metric>, connector: seq<Metric>, init: Builders) returns (builders: Builders)
    requires forall t :: t in init <==> LastRate(gateway, t).Some?
    requires forall t :: t in init ==> init[t] == (LastRate(gateway, t), None)
    ensures forall t :: t in builders <==> LastRate(gateway, t).Some? || LastRate(connector, t).Some?
    ensures forall t :: t in builders ==> builders[t] == (LastRate(gateway, t), LastRate(connector, t))
  {
    builders := init;
    for j := 0 to |connector|
      invariant forall t :: t in builders <==> LastRate(gateway, t).Some? || LastRate(connector[..j], t).Some?
      invariant forall t :: t in builders ==> builders[t] == (LastRate(gateway, t), LastRate(connector[..j], t))
    {
      var m := connector[j];
      var t := TimestampOf(m);
      var gatewayRate := if t in builders then builders[t].0 else None;
      var next := builders[t := (gatewayRate, Some(RateOf(m)))];
      assert connector[..j + 1] == connector[..j] + [m];
      ConnectorStep(gateway, connector[..j], m, builders);
      builders := next;
    }
    assert connector[..|connector|] == connector;
  }

  /** One connector window written into builders that hold the gateway
      rates and the earlier connector windows. */
  lemma ConnectorStep(gateway: seq<Metric>, done: seq<Metric>, m: Metric, builders: Builders)
    requires forall t :: t in builders <==> LastRate(gateway, t).Some? || LastRate(done, t).Some?
    requires forall t :: t in builders ==> builders[t] == (LastRate(gateway, t), LastRate(done, t))
    ensures var t := TimestampOf(m);
      var next := builders[t := (if t in builders then builders[t].0 else None, Some(RateOf(m)))];
      (forall u :: u in next <==> LastRate(gateway, u).Some? || LastRate(done + [m], u).Some?)
      && (forall u :: u in next ==> next[u] == (LastRate(gateway, u), LastRate(done + [m], u)))
  {
    var t := TimestampOf(m);
    var next := builders[t := (if t in builders then builders[t].0 else None, Some(RateOf(m)))];
    forall u
      ensures u in next <==> LastRate(gateway, u).Some? || LastRate(done + [m], u).Some?
      ensures u in next ==> next[u] == (LastRate(gateway, u), LastRate(done + [m], u))
    {
      LastRateSnoc(done, m, u);
    }
  }

  /** `buildTimeline` as written: the builders filled from both streams,
      their points listed by timestamp. It yields `Timeline`. */
  method BuildTimeline(gateway: seq<Metric>, connector: seq<Metric>) returns (points: seq<TimelinePoint>)
    ensures points == Timeline(gateway, connector)
  {
    var builders := GatewayBuilders(gateway);
    builders := AddConnector(gateway, connector, builders);
    var ts := Timestamps(gateway, connector);
    TimestampsHaveRates(gateway, connector, ts);
    points := seq(|ts|, k requires 0 <= k < |ts| => TimelinePoint(ts[k], builders[ts[k]].0, builders[ts[k]].1));
    ghost var expected := Timeline(gateway, connector);
    assert |points| == |expected|;
    forall k | 0 <= k < |ts|
      ensures points[k] == expected[k]
    {
    }
  }

  /** Windows without a readable timestamp share the point at time 0. */
  lemma MissingTimestampIsEpoch(gateway: seq<Metric>, connector: seq<Metric>, m: Metric)
    requires m in gateway && WINDOW_TIMESTAMP !in m
    ensures exists i :: (0 <= i < |Timeline(gateway, connector)|
      && Timeline(gateway, connector)[i].timestamp == 0
      && Timeline(gateway, connector)[i].piGatewayRequests.Some?)
  {
    var points := Timeline(gateway, connector);
    var k :| 0 <= k < |gateway| && gateway[k] == m;
    assert TimestampOf(gateway[k]) == 0;
    assert HasWindow(gateway, 0);
    LastRateFound(gateway, 0);
    TimelineCoversWindows(gateway, connector, 0);
    var i :| 0 <= i < |points| && points[i].timestamp == 0;
    assert points[i].piGatewayRequests == LastRate(gateway, 0);
  }
}
