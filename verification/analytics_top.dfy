/** `getTopClients` and `getTopEndpoints` of `AnalyticsService`: the logs
    grouped by client address or by "METHOD path", one statistics record per
    group, ordered by a descending key and cut to `limit`. Groups come in
    order of first appearance, and a negative `limit` is the exception
    `Stream.limit` throws. */
module AnalyticsTop {
  import opened Wrappers
  import opened Seqs
  import opened Grouping
  import opened BigtableRows
  import opened AnalyticsStats
  import Sorting
  import Text
  import JavaInt

  /** The connector label of a report: the filter, or "all". */
  function ConnectorLabel(connector: Option<string>): string
  {
    connector.GetOr("all")
  }

  // ---------------------------------------------------------------------
  // Top clients
  // ---------------------------------------------------------------------

  /** The client address of a log, "unknown" when absent. */
  function ClientOf(e: LogEntry): string
  {
    e.clientIp.GetOr("unknown")
  }

  /** `TopClientDTO`. */
  datatype ClientStats = ClientStats(
    clientIp: string, requests: nat, errors: nat, errorRate: real, avgLatencyMs: real, connector: string)

  /** The statistics of one client's logs. */
  function ClientStatsOf(ip: string, group: seq<LogEntry>, connector: Option<string>): (c: ClientStats)
    ensures c.clientIp == ip && c.connector == ConnectorLabel(connector)
    ensures c.requests == |group| && c.errors <= c.requests
    ensures c.errors == Count(group, NotSucceeded())
    ensures c.requests > 0 ==> c.errorRate == Percent(c.errors, c.requests)
    ensures c.requests == 0 ==> c.errorRate == 0.0 && c.avgLatencyMs == 0.0
    ensures c.avgLatencyMs == MeanLatency(group)
  {
    var errors := Count(group, NotSucceeded());
    ClientStats(ip, |group|, errors, ErrorRate(group), MeanLatency(group), ConnectorLabel(connector))
  }

  /** One record per client, in order of first appearance. */
  function ClientGroups(logs: seq<LogEntry>, connector: Option<string>): (cs: seq<ClientStats>)
    ensures |cs| == |Keys(logs, ClientOf)|
    ensures forall i :: 0 <= i < |cs| ==>
      cs[i] == ClientStatsOf(Keys(logs, ClientOf)[i], Members(logs, ClientOf, Keys(logs, ClientOf)[i]), connector)
  {
    var ks := Keys(logs, ClientOf);
    seq(|ks|, i requires 0 <= i < |ks| => ClientStatsOf(ks[i], Members(logs, ClientOf, ks[i]), connector))
  }

  function RequestsOf(c: ClientStats): nat
  {
    c.requests
  }

  function ClientRequestsKey(c: ClientStats): real
  {
    c.requests as real
  }

  /** Every log is counted for exactly one client: the addresses are
      distinct, every log's address is listed, each record counts the logs
      carrying its address, and the counts add up to the number of logs. */
  lemma ClientGroupsPartition(logs: seq<LogEntry>, connector: Option<string>)
    ensures forall i, j :: 0 <= i < j < |ClientGroups(logs, connector)| ==>
      ClientGroups(logs, connector)[i].clientIp != ClientGroups(logs, connector)[j].clientIp
    ensures forall e :: e in logs ==> exists c :: c in ClientGroups(logs, connector) && c.clientIp == ClientOf(e)
    ensures SumNat(Map(ClientGroups(logs, connector), RequestsOf)) == |logs|
  {
    ClientsDistinct(logs, connector);
    ClientsCover(logs, connector);
    ClientRequestsAreSizes(logs, connector);
    GroupSizesSum(logs, ClientOf);
  }

  lemma ClientsDistinct(logs: seq<LogEntry>, connector: Option<string>)
    ensures forall i, j :: 0 <= i < j < |ClientGroups(logs, connector)| ==>
      ClientGroups(logs, connector)[i].clientIp != ClientGroups(logs, connector)[j].clientIp
  {
    var ks := Keys(logs, ClientOf);
    var cs := ClientGroups(logs, connector);
    forall i, j | 0 <= i < j < |cs|
      ensures cs[i].clientIp != cs[j].clientIp
    {
      assert cs[i].clientIp == ks[i] && cs[j].clientIp == ks[j];
    }
  }

  lemma ClientsCover(logs: seq<LogEntry>, connector: Option<string>)
    ensures forall e :: e in logs ==> exists c :: c in ClientGroups(logs, connector) && c.clientIp == ClientOf(e)
  {
    var ks := Keys(logs, ClientOf);
    var cs := ClientGroups(logs, connector);
    forall e | e in logs
      ensures exists c :: c in cs && c.clientIp == ClientOf(e)
    {
      KeyIndex(logs, ClientOf, e);
      var i :| 0 <= i < |ks| && ks[i] == ClientOf(e);
      assert cs[i] == ClientStatsOf(ks[i], Members(logs, ClientOf, ks[i]), connector);
      assert cs[i] in cs;
    }
  }

  lemma ClientRequestsAreSizes(logs: seq<LogEntry>, connector: Option<string>)
    ensures Map(ClientGroups(logs, connector), RequestsOf) == Sizes(Keys(logs, ClientOf), logs, ClientOf)
  {
  }

  /** Each record counts the logs carrying its address, at least one. */
  lemma ClientRequestsCount(logs: seq<LogEntry>, connector: Option<string>, c: ClientStats)
    requires c in ClientGroups(logs, connector)
    ensures c.requests == Count(logs, KeyIs(ClientOf, c.clientIp)) && c.requests > 0
  {
    var ks := Keys(logs, ClientOf);
    var i :| 0 <= i < |ks| && ClientGroups(logs, connector)[i] == c;
  }

  /** The client records by decreasing number of requests. */
  function ClientsByRequests(logs: seq<LogEntry>, connector: Option<string>): (sorted: seq<ClientStats>)
    ensures multiset(sorted) == multiset(ClientGroups(logs, connector))
    ensures |sorted| == |ClientGroups(logs, connector)|
    ensures Sorting.SortedBy(sorted, Sorting.Descending(ClientRequestsKey))
  {
    Sorting.KeyOrdersArePreorders(ClientRequestsKey);
    Sorting.SortBy(ClientGroups(logs, connector), Sorting.Descending(ClientRequestsKey))
  }

  /** `getTopClients` on the logs of the window: the `limit` busiest
      clients, busiest first; `None` for a negative limit. */
  function TopClients(limit: int, connector: Option<string>, logs: seq<LogEntry>): (r: Option<seq<ClientStats>>)
    ensures r.None? <==> limit < 0
    ensures r.Some? ==> |r.value| == (if limit < |ClientGroups(logs, connector)| then limit else |ClientGroups(logs, connector)|)
    ensures r.Some? ==> Sorting.SortedBy(r.value, Sorting.Descending(ClientRequestsKey))
    ensures r.Some? ==> forall c :: c in r.value ==> c in ClientGroups(logs, connector)
    ensures r.Some? ==> multiset(r.value) <= multiset(ClientGroups(logs, connector))
  {
    if limit < 0 then None
    else
      var sorted := ClientsByRequests(logs, connector);
      var top := Take(sorted, limit);
      forall c | c in top
        ensures c in ClientGroups(logs, connector)
      {
        assert c in multiset(sorted);
      }
      Sorting.TakeSorted(sorted, Sorting.Descending(ClientRequestsKey), limit);
      TakeSubMultiset(sorted, limit);
      Some(top)
  }

  /** No client left out of the list made more requests than a listed one. */
  lemma TopClientsAreBusiest(limit: int, connector: Option<string>, logs: seq<LogEntry>, c: ClientStats)
    requires limit >= 0
    requires c in ClientGroups(logs, connector) && c !in TopClients(limit, connector, logs).value
    ensures forall t :: t in TopClients(limit, connector, logs).value ==> c.requests <= t.requests
  {
    var sorted := ClientsByRequests(logs, connector);
    assert c in multiset(sorted);
    Sorting.TakeDominates(sorted, Sorting.Descending(ClientRequestsKey), limit, c);
    forall t | t in TopClients(limit, connector, logs).value
      ensures c.requests <= t.requests
    {
      assert ClientRequestsKey(t) >= ClientRequestsKey(c);
    }
  }

  // ---------------------------------------------------------------------
  // Top endpoints
  // ---------------------------------------------------------------------

  /** The method of a log, "GET" when absent. */
  function MethodOf(e: LogEntry): string
  {
    e.httpMethod.GetOr("GET")
  }

  /** The path of a log, "/unknown" when absent. */
  function PathOf(e: LogEntry): string
  {
    e.path.GetOr("/unknown")
  }

  /** The grouping key "METHOD path". */
  function EndpointOf(e: LogEntry): string
  {
    MethodOf(e) + " " + PathOf(e)
  }

  /** `EndpointMetricsDTO`. */
  datatype EndpointStats = EndpointStats(
    path: string, httpMethod: string, connector: string, requests: nat, avgLatencyMs: real,
    errors: nat, errorRate: real, p95LatencyMs: real, p99LatencyMs: real)

  /** The latencies of a group (`null` as 0) in increasing order. */
  function SortedLatencies(group: seq<LogEntry>): (xs: seq<real>)
    ensures multiset(xs) == multiset(Map(group, LatencyOrZero))
    ensures |xs| == |group|
    ensures Ascending(xs)
  {
    SortReals(Map(group, LatencyOrZero))
  }

  /** The method and path of a key: the text before the first space and
      the rest, the rest empty when there is no space. */
  function SplitEndpoint(endpoint: string): (mp: (string, string))
    ensures ' ' !in mp.0
    ensures ' ' in endpoint ==> endpoint == mp.0 + " " + mp.1
    ensures ' ' !in endpoint ==> mp == (endpoint, "")
  {
    var parts := Text.SplitFirst(endpoint, ' ');
    (parts[0], if |parts| > 1 then parts[1] else "")
  }

  /** The key of a log splits back into its method and path when the
      method has no space in it. */
  lemma EndpointRoundTrip(e: LogEntry)
    requires ' ' !in MethodOf(e)
    ensures SplitEndpoint(EndpointOf(e)) == (MethodOf(e), PathOf(e))
  {
    Text.SplitFirstAfterJoin(MethodOf(e), ' ', PathOf(e));
  }

  /** The statistics of one endpoint's logs. */
  function EndpointStatsOf(endpoint: string, group: seq<LogEntry>, connector: Option<string>): (s: EndpointStats)
    ensures (s.httpMethod, s.path) == SplitEndpoint(endpoint) && s.connector == ConnectorLabel(connector)
    ensures s.requests == |group| && s.errors == Count(group, NotSucceeded()) && s.errors <= s.requests
    ensures s.requests > 0 ==> s.errorRate == Percent(s.errors, s.requests)
    ensures s.requests == 0 ==> s.errorRate == 0.0 && s.avgLatencyMs == 0.0
    ensures s.requests > 0 ==> s.p95LatencyMs in Map(group, LatencyOrZero) && s.p99LatencyMs in Map(group, LatencyOrZero)
  {
    var mp := SplitEndpoint(endpoint);
    var errors := Count(group, NotSucceeded());
    var xs := SortedLatencies(group);
    assert forall x :: x in xs ==> x in Map(group, LatencyOrZero) by {
      forall x | x in xs
        ensures x in Map(group, LatencyOrZero)
      {
        assert x in multiset(xs);
      }
    }
    EndpointStats(mp.1, mp.0, ConnectorLabel(connector), |group|, Mean(xs),
      errors, ErrorRate(group), Percentile(xs, 95.0), Percentile(xs, 99.0))
  }

  /** The endpoint's mean latency is the group's mean latency: sorting
      does not change the sum. */
  lemma EndpointMeanLatency(endpoint: string, group: seq<LogEntry>, connector: Option<string>)
    ensures EndpointStatsOf(endpoint, group, connector).avgLatencyMs == MeanLatency(group)
  {
    SumPermutation(SortedLatencies(group), Map(group, LatencyOrZero));
  }

  /** The 95th percentile never exceeds the 99th, and both lie within the
      group's latencies. */
  lemma EndpointPercentilesOrdered(endpoint: string, group: seq<LogEntry>, connector: Option<string>)
    requires 0 < |group| <= JavaInt.INT_MAX
    ensures EndpointStatsOf(endpoint, group, connector).p95LatencyMs
         <= EndpointStatsOf(endpoint, group, connector).p99LatencyMs
  {
    PercentileMonotone(SortedLatencies(group), 95.0, 99.0);
  }

  /** One record per endpoint, in order of first appearance. */
  function EndpointGroups(logs: seq<LogEntry>, connector: Option<string>): (es: seq<EndpointStats>)
    ensures |es| == |Keys(logs, EndpointOf)|
    ensures forall i :: 0 <= i < |es| ==>
      es[i] == EndpointStatsOf(Keys(logs, EndpointOf)[i], Members(logs, EndpointOf, Keys(logs, EndpointOf)[i]), connector)
  {
    var ks := Keys(logs, EndpointOf);
    seq(|ks|, i requires 0 <= i < |ks| => EndpointStatsOf(ks[i], Members(logs, EndpointOf, ks[i]), connector))
  }

  function EndpointRequests(s: EndpointStats): nat
  {
    s.requests
  }

  /** Every log is counted for exactly one endpoint. */
  lemma EndpointGroupsPartition(logs: seq<LogEntry>, connector: Option<string>)
    ensures forall s :: s in EndpointGroups(logs, connector) ==> s.requests > 0
    ensures SumNat(Map(EndpointGroups(logs, connector), EndpointRequests)) == |logs|
  {
    var ks := Keys(logs, EndpointOf);
    var es := EndpointGroups(logs, connector);
    assert Map(es, EndpointRequests) == Sizes(ks, logs, EndpointOf);
    GroupSizesSum(logs, EndpointOf);
  }

  function LatencyKey(s: EndpointStats): real
  {
    s.avgLatencyMs
  }

  function ErrorsKey(s: EndpointStats): real
  {
    s.errors as real
  }

  /** The key of a report type: mean latency for "slowest", errors for any
      other type. */
  function RankKey(reportType: string): EndpointStats -> real
  {
    if reportType == "slowest" then LatencyKey else ErrorsKey
  }

  /** `TopEndpointsDTO`. */
  datatype TopEndpointsReport = TopEndpointsReport(reportType: string, endpoints: seq<EndpointStats>)

  /** The endpoint records by decreasing key. */
  function EndpointsByKey(reportType: string, logs: seq<LogEntry>, connector: Option<string>): (sorted: seq<EndpointStats>)
    ensures multiset(sorted) == multiset(EndpointGroups(logs, connector))
    ensures |sorted| == |EndpointGroups(logs, connector)|
    ensures Sorting.SortedBy(sorted, Sorting.Descending(RankKey(reportType)))
  {
    Sorting.KeyOrdersArePreorders(RankKey(reportType));
    Sorting.SortBy(EndpointGroups(logs, connector), Sorting.Descending(RankKey(reportType)))
  }

  /** `getTopEndpoints` on the logs of the window: the `limit` slowest
      endpoints for "slowest", the `limit` with most errors otherwise;
      `None` for a negative limit. */
  function TopEndpoints(reportType: string, limit: int, connector: Option<string>, logs: seq<LogEntry>)
    : (r: Option<TopEndpointsReport>)
    ensures r.None? <==> limit < 0
    ensures r.Some? ==> r.value.reportType == reportType
    ensures r.Some? ==>
      |r.value.endpoints| == (if limit < |EndpointGroups(logs, connector)| then limit else |EndpointGroups(logs, connector)|)
    ensures r.Some? ==> Sorting.SortedBy(r.value.endpoints, Sorting.Descending(RankKey(reportType)))
    ensures r.Some? ==> forall s :: s in r.value.endpoints ==> s in EndpointGroups(logs, connector)
    ensures r.Some? ==> multiset(r.value.endpoints) <= multiset(EndpointGroups(logs, connector))
  {
    if limit < 0 then None
    else
      var sorted := EndpointsByKey(reportType, logs, connector);
      var top := Take(sorted, limit);
      forall s | s in top
        ensures s in EndpointGroups(logs, connector)
      {
        assert s in multiset(sorted);
      }
      Sorting.TakeSorted(sorted, Sorting.Descending(RankKey(reportType)), limit);
      TakeSubMultiset(sorted, limit);
      Some(TopEndpointsReport(reportType, top))
  }

  /** No endpoint left out of the report ranks above a listed one. */
  lemma TopEndpointsRankFirst(reportType: string, limit: int, connector: Option<string>, logs: seq<LogEntry>, s: EndpointStats)
    requires limit >= 0
    requires s in EndpointGroups(logs, connector) && s !in TopEndpoints(reportType, limit, connector, logs).value.endpoints
    ensures forall t :: t in TopEndpoints(reportType, limit, connector, logs).value.endpoints ==>
      RankKey(reportType)(s) <= RankKey(reportType)(t)
  {
    var sorted := EndpointsByKey(reportType, logs, connector);
    assert s in multiset(sorted);
    Sorting.TakeDominates(sorted, Sorting.Descending(RankKey(reportType)), limit, s);
  }
}
