/** The adapter between the overview the backend sends and what the
    console's pages draw (`utils/dataAdapter.js`): headline figures,
    connector cards, the request timeline, an estimated split by log type,
    and the detail view of one connector. */
module DataAdapter {
  import opened Wrappers
  import opened Seqs
  import Metrics
  import Text

  /** The overview as the backend sends it; each part may be missing. */
  datatype Overview = Overview(
    totals: Option<Metrics.TotalMetrics>,
    services: Option<seq<Metrics.ServiceStatus>>,
    timeline: Option<seq<Metrics.TimelinePoint>>)

  // ---------------------------------------------------------------------
  // Overview
  // ---------------------------------------------------------------------

  /** The headline figures; the backend sends no changes, so they are 0. */
  datatype Headline = Headline(
    totalRequests: int, requestsChange: int,
    successRate: real, successRateChange: real,
    errorRate: real, errorRateChange: real,
    avgLatency: real, latencyChange: real,
    p50Latency: real, p95Latency: real, p99Latency: real)

  /** One connector card. */
  datatype ConnectorCard = ConnectorCard(
    name: string, status: string, uptime: real, requestsPerMinute: int,
    avgLatency: real, p95Latency: real, errorRate: real)

  /** One point of the request chart, with its time already rendered. */
  datatype ChartPoint = ChartPoint(timestamp: string, gateway: int, connector: int)

  /** Requests by log type, estimated from the total. */
  datatype Distribution = Distribution(apiIn: int, apiOut: int, processing: int, auth: int)

  datatype Dashboard = Dashboard(
    totalMetrics: Option<Headline>,
    connectorMetrics: seq<ConnectorCard>,
    timeline: seq<ChartPoint>,
    statusDistribution: Distribution)

  function HeadlineOf(t: Metrics.TotalMetrics): (h: Headline)
    ensures h.requestsChange == 0 && h.successRateChange == 0.0
    ensures h.errorRateChange == 0.0 && h.latencyChange == 0.0
    ensures h.totalRequests == t.totalRequests && h.avgLatency == t.avgLatencyMs
    ensures h.successRate == t.successRate && h.errorRate == t.errorRate
    ensures h.p50Latency == t.p50LatencyMs && h.p95Latency == t.p95LatencyMs && h.p99Latency == t.p99LatencyMs
  {
    Headline(t.totalRequests, 0, t.successRate, 0.0, t.errorRate, 0.0,
             t.avgLatencyMs, 0.0, t.p50LatencyMs, t.p95LatencyMs, t.p99LatencyMs)
  }

  /** A connector card: the status in capitals and a p95 estimated as one
      and a half times the mean latency. */
  function CardOf(s: Metrics.ServiceStatus): (c: ConnectorCard)
    ensures c.name == s.name && Text.EqualsIgnoreCase(c.status, s.status)
    ensures |c.status| == |s.status| && forall i :: 0 <= i < |c.status| ==> !('a' <= c.status[i] <= 'z')
    ensures c.uptime == s.uptimePercentage && c.requestsPerMinute == s.requestsPerMinute
    ensures c.avgLatency == s.avgLatencyMs && c.errorRate == s.errorRate
    ensures c.p95Latency == 1.5 * c.avgLatency
  {
    ConnectorCard(s.name, Text.ToUpper(s.status), s.uptimePercentage, s.requestsPerMinute,
                  s.avgLatencyMs, s.avgLatencyMs * 1.5, s.errorRate)
  }

  /** A chart point: a missing count is drawn as 0. */
  function PointOf(p: Metrics.TimelinePoint, showTime: int -> string): (c: ChartPoint)
  {
    ChartPoint(showTime(p.timestamp), p.piGatewayRequests.GetOr(0), p.piConnectorRequests.GetOr(0))
  }

  /** The split by log type: 45 % inbound, 38 % outbound, 12 % processing
      and 5 % authentication, each rounded down; without totals, all 0. */
  function DistributionOf(totals: Option<Metrics.TotalMetrics>): (d: Distribution)
    ensures totals.None? ==> d == Distribution(0, 0, 0, 0)
    ensures totals.Some? ==> var n := totals.value.totalRequests as real;
      && d.apiIn as real <= n * 0.45 < d.apiIn as real + 1.0
      && d.apiOut as real <= n * 0.38 < d.apiOut as real + 1.0
      && d.processing as real <= n * 0.12 < d.processing as real + 1.0
      && d.auth as real <= n * 0.05 < d.auth as real + 1.0
  {
    match totals
    case None => Distribution(0, 0, 0, 0)
    case Some(t) =>
      var n := t.totalRequests as real;
      Distribution((n * 0.45).Floor, (n * 0.38).Floor, (n * 0.12).Floor, (n * 0.05).Floor)
  }

  function DistributionSum(d: Distribution): int
  {
    d.apiIn + d.apiOut + d.processing + d.auth
  }

  /** The shares add up to 100 %: rounding down loses less than one
      request per type, so the estimate never exceeds the total and falls
      short of it by at most three; with a non-negative total no share is
      negative and the larger percentages get no fewer requests. */
  lemma DistributionAccountsForTotal(t: Metrics.TotalMetrics)
    ensures var d := DistributionOf(Some(t));
      && t.totalRequests - 4 < DistributionSum(d) <= t.totalRequests
      && (t.totalRequests >= 0 ==> 0 <= d.auth <= d.processing <= d.apiOut <= d.apiIn)
  {
    var n := t.totalRequests as real;
    var d := DistributionOf(Some(t));
    assert n * 0.45 + n * 0.38 + n * 0.12 + n * 0.05 == n;
    FloorBounds(n * 0.45);
    FloorBounds(n * 0.38);
    FloorBounds(n * 0.12);
    FloorBounds(n * 0.05);
    if t.totalRequests >= 0 {
      FloorMonotone(n * 0.05, n * 0.12);
      FloorMonotone(n * 0.12, n * 0.38);
      FloorMonotone(n * 0.38, n * 0.45);
    }
  }

  lemma FloorBounds(x: real)
    ensures x - 1.0 < x.Floor as real <= x
  {
  }

  lemma FloorMonotone(x: real, y: real)
    requires 0.0 <= x <= y
    ensures 0 <= x.Floor <= y.Floor
  {
  }

  /** `adaptBackendResponse`: nothing from nothing; otherwise one card per
      service and one chart point per timeline point, in order, and an
      empty list for a missing part. */
  function AdaptBackendResponse(data: Option<Overview>, showTime: int -> string): (r: Option<Dashboard>)
    ensures r.None? <==> data.None?
    ensures r.Some? ==>
      var o := data.value;
      && (r.value.totalMetrics.Some? <==> o.totals.Some?)
      && (o.totals.Some? ==> r.value.totalMetrics.value == HeadlineOf(o.totals.value))
      && |r.value.connectorMetrics| == (if o.services.Some? then |o.services.value| else 0)
      && (forall i :: 0 <= i < |r.value.connectorMetrics| ==>
            r.value.connectorMetrics[i] == CardOf(o.services.value[i]))
      && |r.value.timeline| == (if o.timeline.Some? then |o.timeline.value| else 0)
      && (forall i :: 0 <= i < |r.value.timeline| ==>
            r.value.timeline[i] == PointOf(o.timeline.value[i], showTime))
      && r.value.statusDistribution == DistributionOf(o.totals)
  {
    match data
    case None => None
    case Some(o) =>
      var headline := match o.totals
        case None => None
        case Some(t) => Some(HeadlineOf(t));
      var cards := match o.services
        case None => []
        case Some(ss) => Map(ss, CardOf);
      var points := match o.timeline
        case None => []
        case Some(ps) => Map(ps, (p: Metrics.TimelinePoint) => PointOf(p, showTime));
      Some(Dashboard(headline, cards, points, DistributionOf(o.totals)))
  }

  // ---------------------------------------------------------------------
  // Connector details
  // ---------------------------------------------------------------------

  datatype DetailMetrics = DetailMetrics(uptime: real, requestsPerMinute: int, avgLatency: real, errorRate: real)

  /** A detail chart point: the count of the chosen connector, passed on
      as it is (possibly missing), and no error count. */
  datatype DetailPoint = DetailPoint(timestamp: string, requests: Option<int>, errors: int)

  /** Requests per hour by status, estimated from the request rate. */
  datatype Breakdown = Breakdown(ok: int, notFound: int, serverError: int)

  /** Latency percentiles, estimated from the mean. */
  datatype Percentiles = Percentiles(p50: real, p90: real, p95: real, p99: real)

  datatype Details = Details(
    metrics: DetailMetrics,
    timeline: seq<DetailPoint>,
    statusBreakdown: Breakdown,
    latencyPercentiles: Percentiles)

  /** `services.find(s => s.name === name)`: the first service of that
      name. */
  function Find(services: seq<Metrics.ServiceStatus>, name: string): (r: Option<nat>)
    ensures r.None? <==> forall i :: 0 <= i < |services| ==> services[i].name != name
    ensures r.Some? ==> r.value < |services| && services[r.value].name == name
    ensures r.Some? ==> forall i :: 0 <= i < r.value ==> services[i].name != name
  {
    if |services| == 0 then None
    else if services[0].name == name then Some(0)
    else match Find(services[1..], name)
      case None => None
      case Some(i) => Some(i + 1)
  }

  /** The status split of an hour at `rpm` requests a minute: 95 % OK,
      3 % not found, 2 % server errors, each rounded down. */
  function BreakdownOf(rpm: int): (b: Breakdown)
  {
    var hour := (rpm * 60) as real;
    Breakdown((hour * 0.95).Floor, (hour * 0.03).Floor, (hour * 0.02).Floor)
  }

  /** The estimated split never exceeds the hour's requests, falls short
      by at most two, and ranks OK above not found above server errors. */
  lemma BreakdownAccountsForHour(rpm: int)
    requires rpm >= 0
    ensures var b := BreakdownOf(rpm);
      && rpm * 60 - 3 < b.ok + b.notFound + b.serverError <= rpm * 60
      && 0 <= b.serverError <= b.notFound <= b.ok
  {
    var hour := (rpm * 60) as real;
    assert hour * 0.95 + hour * 0.03 + hour * 0.02 == hour;
    FloorBounds(hour * 0.95);
    FloorBounds(hour * 0.03);
    FloorBounds(hour * 0.02);
    FloorMonotone(hour * 0.02, hour * 0.03);
    FloorMonotone(hour * 0.03, hour * 0.95);
  }

  /** The percentiles as multiples of the mean: 1, 1.3, 1.5 and 2. */
  function PercentilesOf(avg: real): (p: Percentiles)
    ensures avg >= 0.0 ==> p.p50 <= p.p90 <= p.p95 <= p.p99
    ensures p.p50 == avg && p.p90 == 1.3 * avg && p.p95 == 1.5 * avg && p.p99 == 2.0 * avg
  {
    Percentiles(avg, avg * 1.3, avg * 1.5, avg * 2.0)
  }

  /** The count the detail chart shows for a connector: the gateway's for
      "pi-gateway", the connector's for any other name. */
  function RequestsFor(p: Metrics.TimelinePoint, name: string): Option<int>
  {
    if name == "pi-gateway" then p.piGatewayRequests else p.piConnectorRequests
  }

  /** `adaptConnectorDetails`: nothing without data, without services or
      without a service of that name; otherwise the first such service's
      figures and estimates, and its requests along the timeline. */
  function AdaptConnectorDetails(data: Option<Overview>, name: string, showTime: int -> string): (r: Option<Details>)
    ensures r.None? <==>
      (data.None? || data.value.services.None?
       || forall i :: 0 <= i < |data.value.services.value| ==> data.value.services.value[i].name != name)
    ensures r.Some? ==>
      var ss := data.value.services.value;
      exists i :: 0 <= i < |ss| && ss[i].name == name
        && (forall j :: 0 <= j < i ==> ss[j].name != name)
        && r.value.metrics == DetailMetrics(ss[i].uptimePercentage, ss[i].requestsPerMinute, ss[i].avgLatencyMs, ss[i].errorRate)
        && r.value.statusBreakdown == BreakdownOf(ss[i].requestsPerMinute)
        && r.value.latencyPercentiles == PercentilesOf(ss[i].avgLatencyMs)
    ensures r.Some? ==>
      var o := data.value;
      && |r.value.timeline| == (if o.timeline.Some? then |o.timeline.value| else 0)
      && (forall i :: 0 <= i < |r.value.timeline| ==>
            r.value.timeline[i] == DetailPoint(showTime(o.timeline.value[i].timestamp), RequestsFor(o.timeline.value[i], name), 0))
  {
    if data.None? || data.value.services.None? then None
    else
      var o := data.value;
      match Find(o.services.value, name)
      case None => None
      case Some(i) =>
        var s := o.services.value[i];
        var points := match o.timeline
          case None => []
          case Some(ps) => Map(ps, (p: Metrics.TimelinePoint) => DetailPoint(showTime(p.timestamp), RequestsFor(p, name), 0));
        Some(Details(
          DetailMetrics(s.uptimePercentage, s.requestsPerMinute, s.avgLatencyMs, s.errorRate),
          points, BreakdownOf(s.requestsPerMinute), PercentilesOf(s.avgLatencyMs)))
  }

  /** The detail view agrees with the overview: its figures are those of
      a card of the same name, and a connector's counts, read as 0 where
      missing, are the ones the overview chart draws for it. */
  lemma DetailsAgreeWithOverview(data: Option<Overview>, name: string, showTime: int -> string)
    requires AdaptConnectorDetails(data, name, showTime).Some?
    requires name in {"pi-gateway", "pi-connector"}
    ensures var d := AdaptConnectorDetails(data, name, showTime).value;
      var dash := AdaptBackendResponse(data, showTime).value;
      && (exists i :: 0 <= i < |dash.connectorMetrics|
            && dash.connectorMetrics[i].name == name
            && dash.connectorMetrics[i].uptime == d.metrics.uptime
            && dash.connectorMetrics[i].requestsPerMinute == d.metrics.requestsPerMinute
            && dash.connectorMetrics[i].avgLatency == d.metrics.avgLatency
            && dash.connectorMetrics[i].errorRate == d.metrics.errorRate)
      && |d.timeline| == |dash.timeline|
      && (forall i :: 0 <= i < |d.timeline| ==>
            d.timeline[i].requests.GetOr(0) ==
              (if name == "pi-gateway" then dash.timeline[i].gateway else dash.timeline[i].connector))
  {
  }
}
