/** Period comparison and the connector breakdown of `AnalyticsService`.
    The store query `queryLogsByTimeRange` is a parameter: given a time
    window and a connector filter it yields the logs in that window. */
module AnalyticsPeriods {
  import opened Wrappers
  import opened Seqs
  import opened BigtableRows
  import opened AnalyticsStats
  import TimeUnits

  /** A time window in epoch milliseconds. */
  datatype Window = Window(start: int, end: int)

  /** The store query: logs of `window`, restricted to a connector unless
      the filter is "all". */
  type Query = (Window, string) -> seq<LogEntry>

  /** The connector filter passed to the store: the connector, or "all". */
  function ConnectorFilter(connector: Option<string>): (f: string)
    ensures connector == None ==> f == "all"
    ensures connector.Some? && connector.value != "all" ==> f == connector.value
  {
    if connector.Some? && connector.value != "all" then connector.value else "all"
  }

  // ---------------------------------------------------------------------
  // Period windows
  // ---------------------------------------------------------------------

  /** `calculatePeriodDates`: the named period ending at or before `now`;
      an unknown name is the current week. */
  function PeriodDates(period: string, now: int): (w: Window)
    ensures w.start < w.end <= now
    ensures w.end - w.start == (if period == "thisMonth" || period == "lastMonth" then 30 else 7) * TimeUnits.DAY_MS
  {
    match period
    case "current" => Window(now - 7 * TimeUnits.DAY_MS, now)
    case "thisWeek" => Window(now - 7 * TimeUnits.DAY_MS, now)
    case "lastWeek" => Window(now - 14 * TimeUnits.DAY_MS, now - 7 * TimeUnits.DAY_MS)
    case "previous" => Window(now - 14 * TimeUnits.DAY_MS, now - 7 * TimeUnits.DAY_MS)
    case "thisMonth" => Window(now - 30 * TimeUnits.DAY_MS, now)
    case "lastMonth" => Window(now - 60 * TimeUnits.DAY_MS, now - 30 * TimeUnits.DAY_MS)
    case _ => Window(now - 7 * TimeUnits.DAY_MS, now)
  }

  /** The previous week ends where the current one starts, likewise for
      months, and any unknown name means the current week. */
  lemma PeriodsAdjacent(now: int, other: string)
    requires other !in {"current", "thisWeek", "lastWeek", "previous", "thisMonth", "lastMonth"}
    ensures PeriodDates("lastWeek", now).end == PeriodDates("thisWeek", now).start
    ensures PeriodDates("previous", now).end == PeriodDates("current", now).start
    ensures PeriodDates("lastMonth", now).end == PeriodDates("thisMonth", now).start
    ensures PeriodDates(other, now) == PeriodDates("current", now)
  {
  }

  /** `parseTimeRange`: a window ending at `now`; unknown names mean one day. */
  function TimeRange(timeRange: string, now: int): (w: Window)
    ensures w.end == now && w.start < w.end
    ensures timeRange == "1h" ==> w.start == now - TimeUnits.HOUR_MS
    ensures timeRange == "6h" ==> w.start == now - 6 * TimeUnits.HOUR_MS
    ensures timeRange == "7d" ==> w.start == now - 7 * TimeUnits.DAY_MS
    ensures timeRange == "30d" ==> w.start == now - 30 * TimeUnits.DAY_MS
    ensures timeRange !in {"1h", "6h", "7d", "30d"} ==> w.start == now - TimeUnits.DAY_MS
  {
    var back :=
      match timeRange
      case "1h" => TimeUnits.HOUR_MS
      case "6h" => 6 * TimeUnits.HOUR_MS
      case "24h" => TimeUnits.DAY_MS
      case "1d" => TimeUnits.DAY_MS
      case "7d" => 7 * TimeUnits.DAY_MS
      case "30d" => 30 * TimeUnits.DAY_MS
      case _ => TimeUnits.DAY_MS;
    Window(now - back, now)
  }

  // ---------------------------------------------------------------------
  // Period metrics
  // ---------------------------------------------------------------------

  /** `PeriodMetricsDTO`. */
  datatype PeriodMetrics = PeriodMetrics(
    name: string, requests: nat, avgLatencyMs: real, errorRate: real, successRate: real, window: Window)

  /** Every log carries a success flag. */
  predicate AllFlagged(logs: seq<LogEntry>)
  {
    forall i :: 0 <= i < |logs| ==> logs[i].success.Some?
  }

  function Failed(): LogEntry -> bool
  {
    (e: LogEntry) => e.success == Some(false)
  }

  /** `calculatePeriodMetrics`. Counting the successes unboxes every flag,
      so one log without a flag makes the call throw: no metrics then. The
      error share is taken first and the success share is its complement. */
  function PeriodMetricsOf(name: string, window: Window, logs: seq<LogEntry>): (r: Option<PeriodMetrics>)
    ensures r.Some? <==> AllFlagged(logs)
    ensures r.Some? ==> r.value.name == name && r.value.requests == |logs| && r.value.window == window
    ensures r.Some? ==> r.value.avgLatencyMs == MeanLatency(logs)
    ensures r.Some? ==> 0.0 <= r.value.errorRate <= 100.0
    ensures r.Some? && |logs| == 0 ==> r.value.errorRate == 0.0 && r.value.successRate == 100.0
  {
    if !AllFlagged(logs) then None
    else
      var n := |logs|;
      var errors := n - Count(logs, Succeeded());
      var errorRate := if n > 0 then Percent(errors, n) else 0.0;
      Some(PeriodMetrics(name, n, MeanLatency(logs), errorRate, 100.0 - errorRate, window))
  }

  /** With every flag present, the error rate is the share of failed logs
      and the success rate the share of successful ones; the two add up to
      100. */
  lemma PeriodRates(name: string, window: Window, logs: seq<LogEntry>)
    requires AllFlagged(logs) && |logs| > 0
    ensures PeriodMetricsOf(name, window, logs).value.errorRate == Percent(Count(logs, Failed()), |logs|)
    ensures PeriodMetricsOf(name, window, logs).value.successRate == Percent(Count(logs, Succeeded()), |logs|)
    ensures PeriodMetricsOf(name, window, logs).value.errorRate
          + PeriodMetricsOf(name, window, logs).value.successRate == 100.0
  {
    var n := |logs|;
    var ok := Count(logs, Succeeded());
    SuccessPartition(logs);
    FlaggedFailures(logs);
    PercentComplement(ok, n);
    var m := PeriodMetricsOf(name, window, logs).value;
    assert m.errorRate == Percent(n - ok, n);
  }

  /** Among flagged logs, "not successful" means "failed". */
  lemma {:induction false} FlaggedFailures(logs: seq<LogEntry>)
    requires AllFlagged(logs)
    ensures Count(logs, NotSucceeded()) == Count(logs, Failed())
  {
    if |logs| > 0 {
      assert logs[0].success.Some?;
      assert AllFlagged(logs[1..]) by {
        forall i | 0 <= i < |logs[1..]|
          ensures logs[1..][i].success.Some?
        {
          assert logs[1..][i] == logs[i + 1];
        }
      }
      FlaggedFailures(logs[1..]);
      var e := logs[0];
      if e.success.value {
        assert e.success == Some(true);
      } else {
        assert e.success == Some(false);
      }
      assert NotSucceeded()(e) == Failed()(e);
    }
  }

  /** `MetricChangesDTO`. */
  datatype MetricChanges = MetricChanges(requests: real, latency: real, errorRate: real, successRate: real)

  /** `calculateChanges(p1, p2)`: every change is measured from period 2 to
      period 1, so applying it to a non-zero period 2 value gives period 1's. */
  function Changes(p1: PeriodMetrics, p2: PeriodMetrics): (c: MetricChanges)
    ensures p2.requests > 0 ==> p2.requests as real + p2.requests as real * c.requests / 100.0 == p1.requests as real
    ensures p2.avgLatencyMs != 0.0 ==> p2.avgLatencyMs + p2.avgLatencyMs * c.latency / 100.0 == p1.avgLatencyMs
    ensures p2.errorRate != 0.0 ==> p2.errorRate + p2.errorRate * c.errorRate / 100.0 == p1.errorRate
    ensures p2.successRate != 0.0 ==> p2.successRate + p2.successRate * c.successRate / 100.0 == p1.successRate
  {
    ChangeRecovers(p2.requests as real, p1.requests as real);
    ChangeRecovers(p2.avgLatencyMs, p1.avgLatencyMs);
    ChangeRecovers(p2.errorRate, p1.errorRate);
    ChangeRecovers(p2.successRate, p1.successRate);
    MetricChanges(
      PercentChange(p2.requests as real, p1.requests as real),
      PercentChange(p2.avgLatencyMs, p1.avgLatencyMs),
      PercentChange(p2.errorRate, p1.errorRate),
      PercentChange(p2.successRate, p1.successRate))
  }

  lemma ChangeRecovers(oldValue: real, newValue: real)
    ensures oldValue != 0.0 ==> oldValue + oldValue * PercentChange(oldValue, newValue) / 100.0 == newValue
  {
    if oldValue != 0.0 {
      PercentChangeInverse(oldValue, newValue);
    }
  }

  /** A period compared with itself shows no change. */
  lemma ChangesOfSamePeriod(m: PeriodMetrics)
    ensures Changes(m, m) == MetricChanges(0.0, 0.0, 0.0, 0.0)
  {
  }

  /** `PeriodComparisonDTO`. */
  datatype PeriodComparison = PeriodComparison(period1: PeriodMetrics, period2: PeriodMetrics, changes: MetricChanges)

  /** `comparePeriods`: the metrics of both named periods and their changes;
      nothing when either period holds a log without a success flag. */
  function ComparePeriods(period1: string, period2: string, connector: Option<string>, now: int, query: Query)
    : (r: Option<PeriodComparison>)
    ensures r.Some? <==>
      AllFlagged(query(PeriodDates(period1, now), ConnectorFilter(connector)))
      && AllFlagged(query(PeriodDates(period2, now), ConnectorFilter(connector)))
    ensures r.Some? ==> r.value.period1.window == PeriodDates(period1, now)
    ensures r.Some? ==> r.value.period2.window == PeriodDates(period2, now)
    ensures r.Some? ==> r.value.changes == Changes(r.value.period1, r.value.period2)
  {
    var w1 := PeriodDates(period1, now);
    var w2 := PeriodDates(period2, now);
    var m1 := PeriodMetricsOf(period1, w1, query(w1, ConnectorFilter(connector)));
    var m2 := PeriodMetricsOf(period2, w2, query(w2, ConnectorFilter(connector)));
    if m1.None? || m2.None? then None
    else Some(PeriodComparison(m1.value, m2.value, Changes(m1.value, m2.value)))
  }

  /** Comparing a period with itself shows no change. */
  lemma ComparePeriodWithItself(period: string, connector: Option<string>, now: int, query: Query)
    requires ComparePeriods(period, period, connector, now, query).Some?
    ensures ComparePeriods(period, period, connector, now, query).value.changes == MetricChanges(0.0, 0.0, 0.0, 0.0)
  {
    var r := ComparePeriods(period, period, connector, now, query).value;
    assert r.period1 == r.period2;
    ChangesOfSamePeriod(r.period1);
  }

  // ---------------------------------------------------------------------
  // Connector breakdown
  // ---------------------------------------------------------------------

  const GATEWAY: string := "pi-gateway"
  const CONNECTOR: string := "pi-connector"

  /** `ConnectorMetricsDTO`. */
  datatype ConnectorMetrics = ConnectorMetrics(
    name: string, requests: nat, requestsPercentage: real, avgLatencyMs: real, errorRate: real, successRate: real)

  /** `getConnectorMetrics`. Here the success share is taken first (only
      `TRUE` counts) and the error share is its complement, so a connector
      without logs has a success rate of 0 and an error rate of 100. */
  function ConnectorMetricsOf(name: string, logs: seq<LogEntry>): (m: ConnectorMetrics)
    ensures m.name == name && m.requests == |logs| && m.requestsPercentage == 0.0
    ensures 0.0 <= m.successRate <= 100.0
    ensures |logs| == 0 ==> m.successRate == 0.0 && m.errorRate == 100.0
    ensures |logs| > 0 ==> m.successRate == Percent(Count(logs, Succeeded()), |logs|)
    ensures |logs| > 0 ==> m.errorRate == Percent(Count(logs, NotSucceeded()), |logs|)
    ensures m.errorRate == 100.0 - m.successRate
    ensures m.avgLatencyMs == MeanLatency(logs)
  {
    var n := |logs|;
    var ok := Count(logs, Succeeded());
    var successRate := if n > 0 then Percent(ok, n) else 0.0;
    SuccessPartition(logs);
    assert n > 0 ==> successRate + Percent(n - ok, n) == 100.0 by {
      if n > 0 {
        PercentComplement(ok, n);
      }
    }
    ConnectorMetrics(name, n, 0.0, MeanLatency(logs), 100.0 - successRate, successRate)
  }

  /** On real logs the winner follows the success counts: with logs on both
      sides, the gateway wins on success rate exactly when its successes
      outweigh the connector's relative to the two log counts. */
  lemma WinnerBySuccessCounts(gatewayLogs: seq<LogEntry>, connectorLogs: seq<LogEntry>)
    requires |gatewayLogs| > 0 && |connectorLogs| > 0
    ensures var c := Compare(ConnectorMetricsOf(GATEWAY, gatewayLogs), ConnectorMetricsOf(CONNECTOR, connectorLogs));
      (c.winner == GATEWAY && c.reason == BetterSuccessRate)
      <==> Count(connectorLogs, Succeeded()) * |gatewayLogs| < Count(gatewayLogs, Succeeded()) * |connectorLogs|
  {
    PercentOrder(Count(connectorLogs, Succeeded()), |connectorLogs|, Count(gatewayLogs, Succeeded()), |gatewayLogs|);
  }

  /** Comparing two shares is comparing the cross products of their parts
      and wholes. */
  lemma PercentOrder(partX: nat, wholeX: nat, partY: nat, wholeY: nat)
    requires wholeX > 0 && wholeY > 0
    ensures Percent(partX, wholeX) < Percent(partY, wholeY) <==> partX * wholeY < partY * wholeX
  {
    RateOrder(Percent(partX, wholeX), Percent(partY, wholeY), partX, partY, wholeX, wholeY);
  }


  /** Two percentages of different wholes compare as the cross products of
      their parts and wholes. */
  lemma RateOrder(x: real, y: real, partX: nat, partY: nat, wholeX: nat, wholeY: nat)
    requires wholeX > 0 && wholeY > 0
    requires x * wholeX as real == partX as real * 100.0
    requires y * wholeY as real == partY as real * 100.0
    ensures x < y <==> partX * wholeY < partY * wholeX
  {
    var t := (wholeX * wholeY) as real;
    assert t > 0.0;
    assert x * t == partX as real * 100.0 * wholeY as real;
    assert y * t == partY as real * 100.0 * wholeX as real;
    assert (partX * wholeY) as real == partX as real * wholeY as real;
    assert (partY * wholeX) as real == partY as real * wholeX as real;
    ScaledOrder(y, x, t);
  }

  /** Why the winner won. */
  datatype WinReason = BetterSuccessRate | LowerLatency

  /** `ComparisonDTO`: the winner, the reason and the percent differences
      (gateway relative to connector) of latency, error rate and volume. */
  datatype Comparison = Comparison(
    winner: string, reason: WinReason, latency: real, errorRate: real, volume: real)

  /** `compareConnectors`: the higher success rate wins; on a tie the
      gateway wins only with a strictly lower latency. */
  function Compare(gateway: ConnectorMetrics, connector: ConnectorMetrics): (c: Comparison)
    ensures c.winner == GATEWAY || c.winner == CONNECTOR
    ensures c.winner == GATEWAY <==>
      gateway.successRate > connector.successRate
      || (gateway.successRate == connector.successRate && gateway.avgLatencyMs < connector.avgLatencyMs)
    ensures c.reason == BetterSuccessRate <==> gateway.successRate != connector.successRate
    ensures c.latency == PercentDifference(gateway.avgLatencyMs, connector.avgLatencyMs)
    ensures c.errorRate == PercentDifference(gateway.errorRate, connector.errorRate)
    ensures c.volume == PercentDifference(gateway.requests as real, connector.requests as real)
  {
    var latency := PercentDifference(gateway.avgLatencyMs, connector.avgLatencyMs);
    var errorRate := PercentDifference(gateway.errorRate, connector.errorRate);
    var volume := PercentDifference(gateway.requests as real, connector.requests as real);
    if gateway.successRate > connector.successRate then
      Comparison(GATEWAY, BetterSuccessRate, latency, errorRate, volume)
    else if connector.successRate > gateway.successRate then
      Comparison(CONNECTOR, BetterSuccessRate, latency, errorRate, volume)
    else if gateway.avgLatencyMs < connector.avgLatencyMs then
      Comparison(GATEWAY, LowerLatency, latency, errorRate, volume)
    else
      Comparison(CONNECTOR, LowerLatency, latency, errorRate, volume)
  }

  /** The winner is never worse than the loser: its success rate is at
      least as high, and on equal success rates its latency is no higher. */
  lemma WinnerNoWorse(gateway: ConnectorMetrics, connector: ConnectorMetrics)
    ensures var c := Compare(gateway, connector);
      var (w, l) := if c.winner == GATEWAY then (gateway, connector) else (connector, gateway);
      w.successRate >= l.successRate
      && (w.successRate == l.successRate ==> w.avgLatencyMs <= l.avgLatencyMs)
  {
  }

  /** The differences read from the gateway's side: positive exactly when
      the gateway's figure is the larger, zero exactly when they are equal. */
  lemma DifferencesFromGateway(gateway: ConnectorMetrics, connector: ConnectorMetrics)
    ensures var c := Compare(gateway, connector);
      gateway.requests + connector.requests > 0 ==>
        (c.volume > 0.0 <==> gateway.requests > connector.requests)
        && (c.volume == 0.0 <==> gateway.requests == connector.requests)
    ensures var c := Compare(gateway, connector);
      gateway.avgLatencyMs + connector.avgLatencyMs > 0.0 ==>
        (c.latency > 0.0 <==> gateway.avgLatencyMs > connector.avgLatencyMs)
        && (c.latency == 0.0 <==> gateway.avgLatencyMs == connector.avgLatencyMs)
  {
    var c := Compare(gateway, connector);
    if gateway.requests + connector.requests > 0 {
      PercentDifferenceSign(gateway.requests as real, connector.requests as real);
    }
    if gateway.avgLatencyMs + connector.avgLatencyMs > 0.0 {
      PercentDifferenceSign(gateway.avgLatencyMs, connector.avgLatencyMs);
    }
  }

  /** `ConnectorBreakdownDTO`. */
  datatype Breakdown = Breakdown(piGateway: ConnectorMetrics, piConnector: ConnectorMetrics, comparison: Comparison)

  /** Each connector's request share is its percentage of the combined
      volume: the two add up to 100 when there are requests and are both 0
      when there are none. */
  predicate SharesOfVolume(g: ConnectorMetrics, c: ConnectorMetrics)
  {
    var total := g.requests + c.requests;
    && (total > 0 ==> g.requestsPercentage == Percent(g.requests, total))
    && (total > 0 ==> c.requestsPercentage == Percent(c.requests, total))
    && (total > 0 ==> g.requestsPercentage + c.requestsPercentage == 100.0)
    && (total == 0 ==> g.requestsPercentage == 0.0 && c.requestsPercentage == 0.0)
    && 0.0 <= g.requestsPercentage <= 100.0
    && 0.0 <= c.requestsPercentage <= 100.0
  }

  /** `getConnectorBreakdown`: the metrics of both connectors over the
      window of `timeRange`, with each one's share of the combined volume. */
  function ConnectorBreakdown(timeRange: string, now: int, query: Query): (b: Breakdown)
    ensures SharesOfVolume(b.piGateway, b.piConnector)
    ensures b.piGateway.name == GATEWAY && b.piConnector.name == CONNECTOR
    ensures var w := TimeRange(timeRange, now);
      && b.piGateway == ConnectorMetricsOf(GATEWAY, query(w, GATEWAY))
                          .(requestsPercentage := b.piGateway.requestsPercentage)
      && b.piConnector == ConnectorMetricsOf(CONNECTOR, query(w, CONNECTOR))
                          .(requestsPercentage := b.piConnector.requestsPercentage)
    ensures b.comparison == Compare(b.piGateway, b.piConnector)
    ensures b.comparison.winner == GATEWAY <==>
      b.piGateway.successRate > b.piConnector.successRate
      || (b.piGateway.successRate == b.piConnector.successRate
          && b.piGateway.avgLatencyMs < b.piConnector.avgLatencyMs)
  {
    var w := TimeRange(timeRange, now);
    var b := BreakdownOf(ConnectorMetricsOf(GATEWAY, query(w, GATEWAY)), ConnectorMetricsOf(CONNECTOR, query(w, CONNECTOR)));
    b
  }

  /** The breakdown of two connectors' metrics: each keeps its figures and
      gets its share of the combined volume, and the two are compared. */
  function BreakdownOf(g: ConnectorMetrics, c: ConnectorMetrics): (b: Breakdown)
    ensures b.piGateway == g.(requestsPercentage := b.piGateway.requestsPercentage)
    ensures b.piConnector == c.(requestsPercentage := b.piConnector.requestsPercentage)
    ensures SharesOfVolume(b.piGateway, b.piConnector)
    ensures b.comparison == Compare(b.piGateway, b.piConnector)
  {
    SharesComplement(g.requests, c.requests);
    var g' := g.(requestsPercentage := ShareOf(g.requests, g.requests + c.requests));
    var c' := c.(requestsPercentage := ShareOf(c.requests, g.requests + c.requests));
    Breakdown(g', c', Compare(g', c'))
  }

  /** A connector's share of the combined volume, 0 when there is none. */
  function ShareOf(part: nat, total: nat): (r: real)
    requires part <= total
    ensures total > 0 ==> r == Percent(part, total)
    ensures total == 0 ==> r == 0.0
    ensures 0.0 <= r <= 100.0
  {
    if total > 0 then Percent(part, total) else 0.0
  }

  /** The two shares of a positive volume add up to 100. */
  lemma SharesComplement(a: nat, b: nat)
    ensures a + b > 0 ==> ShareOf(a, a + b) + ShareOf(b, a + b) == 100.0
  {
    if a + b > 0 {
      PercentComplement(a, a + b);
      assert b == (a + b) - a;
    }
  }

  /** The busier connector holds the larger share of the volume: the shares
      compare exactly as the request counts do. */
  lemma BreakdownSharesFollowVolume(timeRange: string, now: int, query: Query)
    ensures var b := ConnectorBreakdown(timeRange, now, query);
      b.piGateway.requestsPercentage <= b.piConnector.requestsPercentage
      <==> b.piGateway.requests <= b.piConnector.requests
  {
    var b := ConnectorBreakdown(timeRange, now, query);
    ShareOrder(b.piGateway, b.piConnector);
  }

  /** Of two parts of a volume, the smaller has the smaller share. */
  lemma ShareOrder(g: ConnectorMetrics, c: ConnectorMetrics)
    requires SharesOfVolume(g, c)
    ensures g.requestsPercentage <= c.requestsPercentage <==> g.requests <= c.requests
  {
    var total := g.requests + c.requests;
    if total > 0 {
      assert g.requestsPercentage == Percent(g.requests, total);
      assert c.requestsPercentage == Percent(c.requests, total);
      ScaledCounts(g.requestsPercentage, c.requestsPercentage, g.requests, c.requests, total as real);
    }
  }

  /** Two percentages of one positive whole compare as their parts do. */
  lemma ScaledCounts(p: real, q: real, a: nat, b: nat, t: real)
    requires t > 0.0 && p * t == a as real * 100.0 && q * t == b as real * 100.0
    ensures p <= q <==> a <= b
  {
    ScaledOrder(p, q, t);
  }

  /** Scaling by a positive factor keeps the order of two reals. */
  lemma ScaledOrder(x: real, y: real, t: real)
    requires t > 0.0
    ensures x <= y <==> x * t <= y * t
  {
    if x <= y {
      assert y * t - x * t == (y - x) * t;
    } else {
      assert x * t - y * t == (x - y) * t;
    }
  }

}
