/** `detectAnomalies` of `AnalyticsService`: the logs of the window grouped
    by the hour they fall in, each hour checked against the window's mean
    error rate and mean latency, and the findings listed newest first. The
    random identifier, the French description and the root-cause text of a
    finding are not modelled. */
module AnalyticsAnomalies {
  import opened Wrappers
  import opened Seqs
  import opened Grouping
  import opened BigtableRows
  import opened AnalyticsStats
  import Sorting
  import TimeUnits

  /** The start of the hour a log falls in. The Paris offsets are whole
      hours, so truncating the local time to the hour truncates the instant. */
  function HourOf(e: LogEntry): (h: int)
    ensures h <= e.timestamp < h + TimeUnits.HOUR_MS
    ensures h % TimeUnits.HOUR_MS == 0
  {
    e.timestamp - e.timestamp % TimeUnits.HOUR_MS
  }

  /** The hours that have logs, in order of first appearance. */
  function Hours(logs: seq<LogEntry>): seq<int>
  {
    Keys(logs, HourOf)
  }

  function HourLogs(logs: seq<LogEntry>, h: int): seq<LogEntry>
  {
    Members(logs, HourOf, h)
  }

  /** The error rate of every hour that has logs. */
  function HourRates(logs: seq<LogEntry>): (rates: seq<real>)
    ensures |rates| == |Hours(logs)|
    ensures |rates| > 0 <==> |logs| > 0
    ensures forall i :: 0 <= i < |rates| ==> rates[i] == ErrorRate(HourLogs(logs, Hours(logs)[i]))
  {
    var hs := Hours(logs);
    assert |logs| > 0 ==> HourOf(logs[0]) in hs;
    seq(|hs|, i requires 0 <= i < |hs| => ErrorRate(HourLogs(logs, hs[i])))
  }

  /** `calculateAverageErrorRate`: the mean of the hourly error rates (each
      hour weighs the same), 0 without logs. */
  function AverageErrorRate(logs: seq<LogEntry>): (avg: real)
    ensures 0.0 <= avg <= 100.0
    ensures |logs| == 0 ==> avg == 0.0
    ensures |logs| > 0 ==> avg == Mean(HourRates(logs))
  {
    var rates := HourRates(logs);
    if |rates| == 0 then 0.0
    else
      MeanBounds(rates, 0.0, 100.0);
      Mean(rates)
  }

  /** When every hour of the window has the same error rate, that rate is
      the average, however unevenly the logs spread over the hours. */
  lemma UniformHourlyRate(logs: seq<LogEntry>, rate: real)
    requires |logs| > 0
    requires forall h :: h in Hours(logs) ==> ErrorRate(HourLogs(logs, h)) == rate
    ensures AverageErrorRate(logs) == rate
  {
    var rates := HourRates(logs);
    assert forall i :: 0 <= i < |rates| ==> rates[i] == rate by {
      forall i | 0 <= i < |rates|
        ensures rates[i] == rate
      {
        assert Hours(logs)[i] in Hours(logs);
      }
    }
    MeanBounds(rates, rate, rate);
  }

  /** `calculateAverageLatency`: the mean latency over all logs of all
      hours. The groups hold exactly the logs of the window, and a sum of
      reals does not depend on the order of its terms, so this is the mean
      over the logs. */
  function AverageLatency(logs: seq<LogEntry>): real
  {
    MeanLatency(logs)
  }

  /** `AnomalyDTO` without identifier, description and root cause. */
  datatype Anomaly = Anomaly(
    metric: string, value: real, threshold: real, severity: string, hour: int, connector: string)

  const ERROR_RATE_FLOOR: real := 5.0
  const ERROR_RATE_CRITICAL: real := 10.0
  const LATENCY_FLOOR: real := 100.0
  const LATENCY_CRITICAL: real := 200.0

  /** An hour's error rate is anomalous above twice the mean and above 5%. */
  predicate ErrorRateAnomalous(rate: real, avg: real)
  {
    rate > avg * 2.0 && rate > ERROR_RATE_FLOOR
  }

  /** An hour's latency is anomalous above twice the mean and above 100 ms. */
  predicate LatencyAnomalous(latency: real, avg: real)
  {
    latency > avg * 2.0 && latency > LATENCY_FLOOR
  }

  function ErrorRateFinding(h: int, rate: real, avg: real, connector: Option<string>): Anomaly
  {
    Anomaly("error_rate", rate, avg * 2.0, if rate > ERROR_RATE_CRITICAL then "critical" else "warning",
            h, connector.GetOr("all"))
  }

  function LatencyFinding(h: int, latency: real, avg: real, connector: Option<string>): Anomaly
  {
    Anomaly("latency", latency, avg * 2.0, if latency > LATENCY_CRITICAL then "critical" else "warning",
            h, connector.GetOr("all"))
  }

  /** The findings of one hour: the error-rate one first, then the latency one. */
  function HourFindings(h: int, group: seq<LogEntry>, avgErr: real, avgLat: real, connector: Option<string>)
    : (fs: seq<Anomaly>)
    ensures forall a :: a in fs ==> a.hour == h
    ensures ErrorRateFinding(h, ErrorRate(group), avgErr, connector) in fs
        <==> ErrorRateAnomalous(ErrorRate(group), avgErr)
    ensures LatencyFinding(h, MeanLatency(group), avgLat, connector) in fs
        <==> LatencyAnomalous(MeanLatency(group), avgLat)
    ensures forall a :: a in fs ==>
      a == ErrorRateFinding(h, ErrorRate(group), avgErr, connector)
      || a == LatencyFinding(h, MeanLatency(group), avgLat, connector)
  {
    var rate := ErrorRate(group);
    var latency := MeanLatency(group);
    (if ErrorRateAnomalous(rate, avgErr) then [ErrorRateFinding(h, rate, avgErr, connector)] else [])
    + (if LatencyAnomalous(latency, avgLat) then [LatencyFinding(h, latency, avgLat, connector)] else [])
  }

  /** The findings of an hour of the window against the window's means. */
  function Findings(logs: seq<LogEntry>, connector: Option<string>): int -> seq<Anomaly>
  {
    h => HourFindings(h, HourLogs(logs, h), AverageErrorRate(logs), AverageLatency(logs), connector)
  }

  function HourKey(a: Anomaly): real
  {
    a.hour as real
  }

  /** `detectAnomalies` on the logs of the window: every hour's findings
      against the window's means, newest hour first (ties keep their
      order). */
  function DetectAnomalies(logs: seq<LogEntry>, connector: Option<string>): (r: seq<Anomaly>)
    ensures multiset(r) == multiset(FlatMap(Hours(logs), Findings(logs, connector)))
    ensures Sorting.SortedBy(r, Sorting.Descending(HourKey))
  {
    Sorting.KeyOrdersArePreorders(HourKey);
    Sorting.SortBy(FlatMap(Hours(logs), Findings(logs, connector)), Sorting.Descending(HourKey))
  }

  /** The findings are listed newest hour first. */
  lemma NewestFirst(logs: seq<LogEntry>, connector: Option<string>, i: int, j: int)
    requires 0 <= i < j < |DetectAnomalies(logs, connector)|
    ensures DetectAnomalies(logs, connector)[i].hour >= DetectAnomalies(logs, connector)[j].hour
  {
    HoursDescending(DetectAnomalies(logs, connector), i, j);
  }

  lemma HoursDescending(r: seq<Anomaly>, i: int, j: int)
    requires Sorting.SortedBy(r, Sorting.Descending(HourKey))
    requires 0 <= i < j < |r|
    ensures r[i].hour >= r[j].hour
  {
    assert Sorting.Descending(HourKey)(r[i], r[j]);
    assert HourKey(r[i]) >= HourKey(r[j]);
  }

  /** The findings are exactly the findings of the hours with logs. */
  lemma DetectedMembers(logs: seq<LogEntry>, connector: Option<string>, a: Anomaly)
    ensures a in DetectAnomalies(logs, connector)
        <==> exists i :: 0 <= i < |Hours(logs)| &&
               a in HourFindings(Hours(logs)[i], HourLogs(logs, Hours(logs)[i]),
                                 AverageErrorRate(logs), AverageLatency(logs), connector)
  {
    var found := FlatMap(Hours(logs), Findings(logs, connector));
    assert a in DetectAnomalies(logs, connector) <==> a in multiset(found);
    FlatMapMembers(Hours(logs), Findings(logs, connector), a);
  }

  /** An hour is flagged for its error rate exactly when it has logs whose
      error rate exceeds twice the mean and 5%. */
  lemma ErrorRateFlagged(logs: seq<LogEntry>, connector: Option<string>, h: int)
    ensures ErrorRateFinding(h, ErrorRate(HourLogs(logs, h)), AverageErrorRate(logs), connector)
              in DetectAnomalies(logs, connector)
        <==> h in Hours(logs) && ErrorRateAnomalous(ErrorRate(HourLogs(logs, h)), AverageErrorRate(logs))
  {
    var avgErr, avgLat := AverageErrorRate(logs), AverageLatency(logs);
    var a := ErrorRateFinding(h, ErrorRate(HourLogs(logs, h)), avgErr, connector);
    var hs := Hours(logs);
    DetectedMembers(logs, connector, a);
    if a in DetectAnomalies(logs, connector) {
      var i :| 0 <= i < |hs| && a in HourFindings(hs[i], HourLogs(logs, hs[i]), avgErr, avgLat, connector);
      assert hs[i] == h;
    }
    if h in hs && ErrorRateAnomalous(ErrorRate(HourLogs(logs, h)), avgErr) {
      var i :| 0 <= i < |hs| && hs[i] == h;
      assert a in HourFindings(hs[i], HourLogs(logs, hs[i]), avgErr, avgLat, connector);
    }
  }

  /** An hour is flagged for its latency exactly when it has logs whose mean
      latency exceeds twice the window's mean and 100 ms. */
  lemma LatencyFlagged(logs: seq<LogEntry>, connector: Option<string>, h: int)
    ensures LatencyFinding(h, MeanLatency(HourLogs(logs, h)), AverageLatency(logs), connector)
              in DetectAnomalies(logs, connector)
        <==> h in Hours(logs) && LatencyAnomalous(MeanLatency(HourLogs(logs, h)), AverageLatency(logs))
  {
    var avgErr, avgLat := AverageErrorRate(logs), AverageLatency(logs);
    var a := LatencyFinding(h, MeanLatency(HourLogs(logs, h)), avgLat, connector);
    var hs := Hours(logs);
    DetectedMembers(logs, connector, a);
    if a in DetectAnomalies(logs, connector) {
      var i :| 0 <= i < |hs| && a in HourFindings(hs[i], HourLogs(logs, hs[i]), avgErr, avgLat, connector);
      assert hs[i] == h;
    }
    if h in hs && LatencyAnomalous(MeanLatency(HourLogs(logs, h)), avgLat) {
      var i :| 0 <= i < |hs| && hs[i] == h;
      assert a in HourFindings(hs[i], HourLogs(logs, hs[i]), avgErr, avgLat, connector);
    }
  }

  /** Every finding is for an hour with logs, exceeds its threshold of twice
      the mean and its floor, and is critical exactly above 10% errors or
      200 ms. */
  lemma FindingsAreJustified(logs: seq<LogEntry>, connector: Option<string>, a: Anomaly)
    requires a in DetectAnomalies(logs, connector)
    ensures a.hour in Hours(logs) && a.connector == connector.GetOr("all")
    ensures a.metric == "error_rate" || a.metric == "latency"
    ensures a.metric == "error_rate" ==>
      && a.value == ErrorRate(HourLogs(logs, a.hour))
      && a.threshold == AverageErrorRate(logs) * 2.0
      && a.value > a.threshold && a.value > ERROR_RATE_FLOOR
      && (a.severity == "critical" <==> a.value > ERROR_RATE_CRITICAL)
      && (a.severity == "warning" <==> a.value <= ERROR_RATE_CRITICAL)
    ensures a.metric == "latency" ==>
      && a.value == MeanLatency(HourLogs(logs, a.hour))
      && a.threshold == AverageLatency(logs) * 2.0
      && a.value > a.threshold && a.value > LATENCY_FLOOR
      && (a.severity == "critical" <==> a.value > LATENCY_CRITICAL)
      && (a.severity == "warning" <==> a.value <= LATENCY_CRITICAL)
  {
    var avgErr, avgLat := AverageErrorRate(logs), AverageLatency(logs);
    var hs := Hours(logs);
    DetectedMembers(logs, connector, a);
    var i :| 0 <= i < |hs| && a in HourFindings(hs[i], HourLogs(logs, hs[i]), avgErr, avgLat, connector);
  }

  /** An hour gives at most one finding per metric. */
  lemma OneFindingPerMetric(logs: seq<LogEntry>, connector: Option<string>, a: Anomaly, b: Anomaly)
    requires a in DetectAnomalies(logs, connector) && b in DetectAnomalies(logs, connector)
    requires a.hour == b.hour && a.metric == b.metric
    ensures a == b
  {
    FindingsAreJustified(logs, connector, a);
    FindingsAreJustified(logs, connector, b);
  }
}
