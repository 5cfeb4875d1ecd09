/** The traffic heatmap and the daily trends of `AnalyticsService`. The
    time zone and calendar are parameters: `local` gives a timestamp's day
    key and hour of day, and `dayKeyAgo(i)` the day key of the day `i` days
    before now. The logs are those the store returns for the reported
    window. */
module AnalyticsTrends {
  import opened Seqs
  import opened BigtableRows
  import opened AnalyticsStats

  /** A timestamp's calendar day key and hour of day. */
  datatype LocalTime = LocalTime(day: string, hour: int)

  /** `HourDataDTO`. */
  datatype HourCell = HourCell(hour: int, requests: nat, level: string, avgLatencyMs: real)

  /** `DayHeatmapDTO` without the weekday name. */
  datatype DayRow = DayRow(date: string, hours: seq<HourCell>)

  function AtHour(local: int -> LocalTime, day: string, hour: int): LogEntry -> bool
  {
    (e: LogEntry) => local(e.timestamp) == LocalTime(day, hour)
  }

  function OnDay(local: int -> LocalTime, day: string): LogEntry -> bool
  {
    (e: LogEntry) => local(e.timestamp).day == day
  }

  /** On `day`, within the first `n` hours. */
  function OnDayBefore(local: int -> LocalTime, day: string, n: int): LogEntry -> bool
  {
    (e: LogEntry) => local(e.timestamp).day == day && 0 <= local(e.timestamp).hour < n
  }

  /** One heatmap cell: the logs of that day and hour, their mean latency
      (`null` as 0) and the traffic level of their number. */
  function Cell(logs: seq<LogEntry>, local: int -> LocalTime, day: string, hour: int): (c: HourCell)
    ensures c.hour == hour && c.requests == Count(logs, AtHour(local, day, hour))
    ensures c.level == TrafficLevel(c.requests)
    ensures c.avgLatencyMs == MeanLatency(Filter(logs, AtHour(local, day, hour)))
  {
    var hourLogs := Filter(logs, AtHour(local, day, hour));
    HourCell(hour, |hourLogs|, TrafficLevel(|hourLogs|), MeanLatency(hourLogs))
  }

  /** The cells of the first `n` hours of `day`. */
  function HourCells(logs: seq<LogEntry>, local: int -> LocalTime, day: string, n: nat): (cells: seq<HourCell>)
    ensures |cells| == n
    ensures forall h :: 0 <= h < n ==> cells[h] == Cell(logs, local, day, h)
  {
    if n == 0 then [] else HourCells(logs, local, day, n - 1) + [Cell(logs, local, day, n - 1)]
  }

  /** The row of one day: the cells of its 24 hours. */
  function DayRowOf(logs: seq<LogEntry>, local: int -> LocalTime, date: string): (row: DayRow)
    ensures row.date == date && |row.hours| == 24
    ensures forall h :: 0 <= h < 24 ==>
      row.hours[h].hour == h
      && row.hours[h].requests == Count(logs, AtHour(local, date, h))
      && row.hours[h].level == TrafficLevel(row.hours[h].requests)
      && row.hours[h].avgLatencyMs == MeanLatency(Filter(logs, AtHour(local, date, h)))
  {
    DayRow(date, HourCells(logs, local, date, 24))
  }

  /** Total requests of a list of cells. */
  function Requests(cells: seq<HourCell>): nat
  {
    if |cells| == 0 then 0 else Requests(cells[..|cells| - 1]) + cells[|cells| - 1].requests
  }

  /** `getTrafficHeatmap`: one row per day, oldest first and today last,
      each with 24 cells for hours 0..23 in order. A non-positive `days`
      gives no rows. */
  function Heatmap(days: int, logs: seq<LogEntry>, local: int -> LocalTime, dayKeyAgo: int -> string)
    : (rows: seq<DayRow>)
    ensures |rows| == if days > 0 then days else 0
    ensures forall k :: 0 <= k < |rows| ==> rows[k].date == dayKeyAgo(days - 1 - k) && |rows[k].hours| == 24
    ensures forall k, h :: 0 <= k < |rows| && 0 <= h < |rows[k].hours| ==>
      rows[k].hours[h].hour == h
      && rows[k].hours[h].requests == Count(logs, AtHour(local, rows[k].date, h))
      && rows[k].hours[h].level == TrafficLevel(rows[k].hours[h].requests)
      && rows[k].hours[h].avgLatencyMs == MeanLatency(Filter(logs, AtHour(local, rows[k].date, h)))
  {
    var n := if days > 0 then days else 0;
    var rows := seq(n, k requires 0 <= k < n => DayRowOf(logs, local, dayKeyAgo(days - 1 - k)));
    assert forall k :: 0 <= k < n ==> rows[k] == DayRowOf(logs, local, dayKeyAgo(days - 1 - k));
    rows
  }

  /** The cells of the first `n` hours count the logs of the day in those hours. */
  lemma {:induction false} HourCellsTotal(logs: seq<LogEntry>, local: int -> LocalTime, day: string, n: nat)
    ensures Requests(HourCells(logs, local, day, n)) == Count(logs, OnDayBefore(local, day, n))
  {
    if n == 0 {
      CountCongruent(logs, OnDayBefore(local, day, 0), (e: LogEntry) => false);
      CountNothing(logs);
    } else {
      var cells := HourCells(logs, local, day, n);
      assert cells[..n - 1] == HourCells(logs, local, day, n - 1);
      HourCellsTotal(logs, local, day, n - 1);
      CountSplit(logs, OnDayBefore(local, day, n), OnDayBefore(local, day, n - 1), AtHour(local, day, n - 1));
    }
  }

  lemma {:induction false} CountNothing(logs: seq<LogEntry>)
    ensures Count(logs, (e: LogEntry) => false) == 0
  {
    if |logs| > 0 {
      CountNothing(logs[1..]);
    }
  }

  /** Every row of the heatmap accounts for all logs of its day: the 24
      cells add up to the number of logs whose local day is the row's. */
  lemma {:induction false} HeatmapRowTotal(days: int, logs: seq<LogEntry>, local: int -> LocalTime, dayKeyAgo: int -> string, k: int)
    requires forall i :: 0 <= i < |logs| ==> 0 <= local(logs[i].timestamp).hour < 24
    requires 0 <= k < days
    ensures Requests(Heatmap(days, logs, local, dayKeyAgo)[k].hours)
         == Count(logs, OnDay(local, dayKeyAgo(days - 1 - k)))
  {
    var day := dayKeyAgo(days - 1 - k);
    var rows := Heatmap(days, logs, local, dayKeyAgo);
    assert rows[k] == DayRowOf(logs, local, day);
    assert rows[k].hours == HourCells(logs, local, day, 24);
    DayTotal(logs, local, day);
  }

  lemma DayTotal(logs: seq<LogEntry>, local: int -> LocalTime, day: string)
    requires forall i :: 0 <= i < |logs| ==> 0 <= local(logs[i].timestamp).hour < 24
    ensures Requests(HourCells(logs, local, day, 24)) == Count(logs, OnDay(local, day))
  {
    HourCellsTotal(logs, local, day, 24);
    CountCongruent(logs, OnDayBefore(local, day, 24), OnDay(local, day));
  }

  // ---------------------------------------------------------------------
  // Trends
  // ---------------------------------------------------------------------

  /** `calculateMetricValue`: request count, mean latency (`null` as 0) or
      error rate of a day's logs; 0 for any other metric name. */
  function MetricValue(metric: string, logs: seq<LogEntry>): (v: real)
    ensures metric == "requests" ==> v == |logs| as real
    ensures metric == "latency" ==> v == MeanLatency(logs)
    ensures metric == "errorRate" ==> v == ErrorRate(logs) && 0.0 <= v <= 100.0
    ensures metric !in {"requests", "latency", "errorRate"} ==> v == 0.0
  {
    match metric
    case "requests" => |logs| as real
    case "latency" => MeanLatency(logs)
    case "errorRate" => ErrorRate(logs)
    case _ => 0.0
  }

  /** The latency metric lies between any bounds of the latencies, with a
      missing latency read as 0. */
  lemma LatencyMetricBounds(logs: seq<LogEntry>, lo: real, hi: real)
    requires |logs| > 0
    requires forall i :: 0 <= i < |logs| ==> lo <= LatencyOrZero(logs[i]) <= hi
    ensures lo <= MetricValue("latency", logs) <= hi
  {
    MeanBounds(Map(logs, LatencyOrZero), lo, hi);
  }

  /** `TrendDataPointDTO` without the display label. */
  datatype TrendPoint = TrendPoint(date: string, value: real)

  /** The data points of `getTrends`: one per day, oldest first, each the
      metric over the logs of that local day. */
  function Trends(metric: string, days: int, logs: seq<LogEntry>, local: int -> LocalTime, dayKeyAgo: int -> string)
    : (points: seq<TrendPoint>)
    ensures |points| == if days > 0 then days else 0
    ensures forall k :: 0 <= k < |points| ==>
      points[k].date == dayKeyAgo(days - 1 - k)
      && points[k].value == MetricValue(metric, Filter(logs, OnDay(local, points[k].date)))
  {
    var n := if days > 0 then days else 0;
    seq(n, k requires 0 <= k < n =>
      TrendPoint(dayKeyAgo(days - 1 - k), MetricValue(metric, Filter(logs, OnDay(local, dayKeyAgo(days - 1 - k))))))
  }

  /** The request trend and the heatmap agree: a day's point counts the
      logs the heatmap spreads over that day's row. */
  lemma TrendMatchesHeatmap(days: int, logs: seq<LogEntry>, local: int -> LocalTime, dayKeyAgo: int -> string, k: int)
    requires forall i :: 0 <= i < |logs| ==> 0 <= local(logs[i].timestamp).hour < 24
    requires 0 <= k < days
    ensures Trends("requests", days, logs, local, dayKeyAgo)[k].value
         == Requests(Heatmap(days, logs, local, dayKeyAgo)[k].hours) as real
  {
    HeatmapRowTotal(days, logs, local, dayKeyAgo, k);
  }

  function Min(xs: seq<real>): (m: real)
    requires |xs| > 0
    ensures m in xs
    ensures forall i :: 0 <= i < |xs| ==> m <= xs[i]
  {
    if |xs| == 1 then xs[0]
    else
      var rest := Min(xs[1..]);
      assert forall i :: 1 <= i < |xs| ==> xs[i] == xs[1..][i - 1];
      if xs[0] <= rest then xs[0] else rest
  }

  function Max(xs: seq<real>): (m: real)
    requires |xs| > 0
    ensures m in xs
    ensures forall i :: 0 <= i < |xs| ==> xs[i] <= m
  {
    if |xs| == 1 then xs[0]
    else
      var rest := Max(xs[1..]);
      assert forall i :: 1 <= i < |xs| ==> xs[i] == xs[1..][i - 1];
      if xs[0] >= rest then xs[0] else rest
  }

  /** The value a trend point carries. */
  function ValueOf(p: TrendPoint): real
  {
    p.value
  }

  /** `TrendInsightsDTO` without the summary sentence. */
  datatype TrendInsights = TrendInsights(average: real, min: real, max: real, trend: real)

  /** `calculateTrendInsights`: all zeros without points; otherwise the
      mean, the extremes and the percent change from the first point to
      the last. */
  function Insights(points: seq<TrendPoint>): (r: TrendInsights)
    ensures |points| == 0 ==> r == TrendInsights(0.0, 0.0, 0.0, 0.0)
    ensures |points| > 0 ==>
      (exists i :: 0 <= i < |points| && points[i].value == r.min)
      && (exists i :: 0 <= i < |points| && points[i].value == r.max)
    ensures |points| > 0 ==> forall i :: 0 <= i < |points| ==> r.min <= points[i].value <= r.max
    ensures |points| > 0 ==> r.average == Mean(Map(points, ValueOf))
    ensures |points| > 0 ==> r.min <= r.average <= r.max
    ensures |points| > 0 ==> r.trend == PercentChange(points[0].value, points[|points| - 1].value)
  {
    if |points| == 0 then TrendInsights(0.0, 0.0, 0.0, 0.0)
    else
      var values := Map(points, ValueOf);
      var lo := Min(values);
      var hi := Max(values);
      MeanBounds(values, lo, hi);
      TrendInsights(Mean(values), lo, hi, PercentChange(values[0], values[|values| - 1]))
  }

  /** Raising every point by `c` raises the average by `c`. */
  lemma ShiftedAverage(points: seq<TrendPoint>, shifted: seq<TrendPoint>, c: real)
    requires 0 < |points| == |shifted|
    requires forall i :: 0 <= i < |points| ==> shifted[i].value == points[i].value + c
    ensures Insights(shifted).average == Insights(points).average + c
  {
    MeanShift(Map(points, ValueOf), Map(shifted, ValueOf), c);
  }

  /** Raising every point by `c` raises the minimum and the maximum by
      `c`. */
  lemma ShiftedExtremes(points: seq<TrendPoint>, shifted: seq<TrendPoint>, c: real)
    requires 0 < |points| == |shifted|
    requires forall i :: 0 <= i < |points| ==> shifted[i].value == points[i].value + c
    ensures Insights(shifted).min == Insights(points).min + c
    ensures Insights(shifted).max == Insights(points).max + c
  {
    var a, b := Insights(points), Insights(shifted);
    var j :| 0 <= j < |shifted| && shifted[j].value == b.min;
    var k :| 0 <= k < |points| && points[k].value == a.min;
    assert a.min <= points[j].value && b.min <= shifted[k].value;
    var j' :| 0 <= j' < |shifted| && shifted[j'].value == b.max;
    var k' :| 0 <= k' < |points| && points[k'].value == a.max;
    assert points[j'].value <= a.max && shifted[k'].value <= b.max;
  }
}
