/** `LogService.searchLogs`: the logs read from the store are filtered by
    the search parameters, sorted, cut to one page and summarised. */
module LogService {
  import opened Wrappers
  import opened Seqs
  import opened BigtableRows
  import BigtableScans
  import Sorting
  import Text
  import Decimal
  import JavaInt
  import TimeUnits

  /** `LogSearchParams`; `page` and `limit` always hold a value (the
      controller supplies defaults 1 and 50). Times are epoch milliseconds. */
  datatype SearchParams = SearchParams(
    query: Option<string>,
    connector: Option<string>,
    logType: Option<string>,
    status: Option<string>,
    success: Option<bool>,
    minLatency: Option<int>,
    maxLatency: Option<int>,
    clientIp: Option<string>,
    startTime: Option<int>,
    endTime: Option<int>,
    page: int,
    limit: int,
    sortBy: Option<string>,
    sortOrder: Option<string>)

  /** Set means non-null and, for text, non-empty. */
  predicate IsSet(v: Option<string>)
  {
    v.Some? && v.value != ""
  }

  /** The free-text query: the lowercased query must occur in the lowercased
      path, or in the client IP or message id as stored. */
  predicate QueryMatches(e: LogEntry, query: string)
  {
    var q := Text.ToLower(query);
    (e.path.Some? && Text.Contains(Text.ToLower(e.path.value), q))
    || (e.clientIp.Some? && Text.Contains(e.clientIp.value, q))
    || (e.messageId.Some? && Text.Contains(e.messageId.value, q))
  }

  /** The status filter: "Nxx" compares the first character of the code's
      decimal rendering with N; any other value must equal that rendering. */
  predicate StatusMatches(code: Option<int>, status: string)
    requires status != ""
  {
    code.Some? &&
    if Text.EndsWith(status, "xx") then Text.StartsWith(Decimal.IntToDecimal(code.value), status[..1])
    else Decimal.IntToDecimal(code.value) == status
  }

  /** `matchesFilters`. */
  predicate MatchesFilters(e: LogEntry, p: SearchParams)
  {
    (!IsSet(p.query) || QueryMatches(e, p.query.value))
    && (!IsSet(p.status) || StatusMatches(e.statusCode, p.status.value))
    && (p.success.None? || e.success == p.success)
    && ((p.minLatency.None? && p.maxLatency.None?)
        || (e.responseTimeMs.Some?
            && (p.minLatency.None? || e.responseTimeMs.value >= p.minLatency.value as real)
            && (p.maxLatency.None? || e.responseTimeMs.value <= p.maxLatency.value as real)))
    && (!IsSet(p.clientIp) || e.clientIp == p.clientIp)
  }

  /** The query is lowercased before matching, so its letter case never
      matters. */
  lemma QueryCaseIrrelevant(e: LogEntry, query: string)
    ensures QueryMatches(e, query) <==> QueryMatches(e, Text.ToLower(query))
  {
    Text.ToLowerIdempotent(query);
  }

  /** The client IP is compared as stored: an IP with an upper-case letter
      never matches a query of the very same text, since only the query is
      lower-cased. */
  lemma ClientIpCaseSensitive(e: LogEntry, query: string)
    requires e.path.None? && e.messageId.None? && e.clientIp == Some(query)
    requires exists i :: 0 <= i < |query| && 'A' <= query[i] <= 'Z'
    ensures !QueryMatches(e, query)
  {
    Text.ContainsIffOccurs(query, Text.ToLower(query));
  }

  /** For three-digit codes "Nxx" selects exactly the codes with hundreds
      digit N. */
  lemma StatusClassMatches(code: int, c: char)
    requires 100 <= code < 1000
    ensures StatusMatches(Some(code), [c] + "xx") <==> Decimal.IsDigit(c) && Decimal.DigitValue(c) == code / 100
  {
    Decimal.ThreeDigits(code);
    var status := [c] + "xx";
    assert Text.EndsWith(status, "xx");
    assert status[..1] == [c];
  }

  /** Any other status value matches exactly the codes that render as it. */
  lemma ExactStatusMatches(code: int, status: string)
    requires status != "" && !Text.EndsWith(status, "xx")
    ensures StatusMatches(Some(code), status) <==> status == Decimal.IntToDecimal(code)
  {
  }

  /** Field-level consequences of the filter: a missing status code or
      latency fails any status or latency filter, latency bounds are
      inclusive, and the success flag must be equal. */
  lemma FilterRejections(e: LogEntry, p: SearchParams)
    ensures IsSet(p.status) && e.statusCode.None? ==> !MatchesFilters(e, p)
    ensures (p.minLatency.Some? || p.maxLatency.Some?) && e.responseTimeMs.None? ==> !MatchesFilters(e, p)
    ensures MatchesFilters(e, p) && p.minLatency.Some? ==> e.responseTimeMs.value >= p.minLatency.value as real
    ensures MatchesFilters(e, p) && p.maxLatency.Some? ==> e.responseTimeMs.value <= p.maxLatency.value as real
    ensures MatchesFilters(e, p) && p.success.Some? ==> e.success == p.success
    ensures MatchesFilters(e, p) && IsSet(p.clientIp) ==> e.clientIp == p.clientIp
  {
  }

  function Matches(p: SearchParams): LogEntry -> bool
  {
    (e: LogEntry) => MatchesFilters(e, p)
  }

  /** The latency with `null` read as 0. */
  function LatencyKey(e: LogEntry): real
  {
    e.responseTimeMs.GetOr(0.0)
  }

  function TimeKey(e: LogEntry): real
  {
    e.timestamp as real
  }

  /** The comparator: latency when sortBy is "latency", time otherwise;
      reversed when sortOrder is "desc". */
  function Order(p: SearchParams): (LogEntry, LogEntry) -> bool
  {
    var key := if p.sortBy == Some("latency") then LatencyKey else TimeKey;
    if p.sortOrder == Some("desc") then Sorting.Descending(key) else Sorting.Ascending(key)
  }

  /** The sorted list is a permutation ordered by the chosen key and
      direction. */
  function SortLogs(logs: seq<LogEntry>, p: SearchParams): (r: seq<LogEntry>)
    ensures multiset(r) == multiset(logs)
    ensures forall i, j :: 0 <= i < j < |r| ==>
      var key := if p.sortBy == Some("latency") then LatencyKey else TimeKey;
      if p.sortOrder == Some("desc") then key(r[i]) >= key(r[j]) else key(r[i]) <= key(r[j])
  {
    var key := if p.sortBy == Some("latency") then LatencyKey else TimeKey;
    Sorting.KeyOrdersArePreorders(key);
    Sorting.SortBy(logs, Order(p))
  }

  /** `subList(min(start, total), min(start + limit, total))` with
      `start = (page - 1) * limit` in 32-bit arithmetic; `None` is the
      `IndexOutOfBoundsException` a negative or crossed range raises. */
  function Paginate(sorted: seq<LogEntry>, page: int, limit: int): (r: Option<seq<LogEntry>>)
    ensures r.Some? ==> |r.value| <= |sorted|
  {
    var total := |sorted|;
    var start := JavaInt.Wrap32((page - 1) * limit);
    var end := Min(JavaInt.Wrap32(start + limit), total);
    var from := Min(start, total);
    if from < 0 || from > end then None else Some(sorted[from..end])
  }

  function Min(a: int, b: int): int
  {
    if a <= b then a else b
  }

  /** Without 32-bit overflow, page `page` is the contiguous slice starting
      at (page-1)*limit with at most `limit` entries, and empty past the end. */
  lemma PaginateSlice(sorted: seq<LogEntry>, page: int, limit: int)
    requires page >= 1 && limit >= 1
    requires page * limit <= JavaInt.INT_MAX
    ensures var s := (page - 1) * limit;
      Paginate(sorted, page, limit)
        == Some(if s >= |sorted| then [] else sorted[s..Min(s + limit, |sorted|)])
    ensures |Paginate(sorted, page, limit).value| <= limit
  {
    var s := (page - 1) * limit;
    PageStart(page, limit);
    JavaInt.Wrap32Unique(s, s);
    JavaInt.Wrap32Unique(s + limit, s + limit);
    var total := |sorted|;
    assert JavaInt.Wrap32(s) == s && JavaInt.Wrap32(s + limit) == s + limit;
    if s >= total {
      assert Paginate(sorted, page, limit) == Some(sorted[total..total]);
    } else {
      assert Paginate(sorted, page, limit) == Some(sorted[s..Min(s + limit, total)]);
    }
  }

  /** Page `page` starts `limit` entries before the end of the first `page`
      pages. */
  /** A page of 0 or less with a positive limit starts before the first
      entry, so `subList` throws, unless the start wraps around. */
  lemma NonPositivePageFails(sorted: seq<LogEntry>, page: int, limit: int)
    requires page <= 0 && limit >= 1
    requires JavaInt.INT_MIN <= (page - 1) * limit
    ensures Paginate(sorted, page, limit).None?
  {
    var s := (page - 1) * limit;
    assert s < 0 by {
      assert (page - 1) * limit <= (page - 1) * 1;
    }
    JavaInt.Wrap32Unique(s, s);
  }

  lemma PageStart(page: int, limit: int)
    requires page >= 1 && limit >= 1
    ensures 0 <= (page - 1) * limit
    ensures (page - 1) * limit + limit == page * limit
  {
  }

  /** `(int) Math.ceil((double) total / limit)`: a zero limit gives NaN (0)
      for no results and +Infinity (`Integer.MAX_VALUE`) otherwise. */
  function Pages(total: nat, limit: int): int
  {
    if limit == 0 then (if total == 0 then 0 else JavaInt.INT_MAX)
    else if limit > 0 then (total + limit - 1) / limit
    else -(total / -limit)
  }

  /** For a positive limit, `pages` is the least page count covering all
      results. */
  lemma PagesIsCeiling(total: nat, limit: int)
    requires limit > 0
    ensures Pages(total, limit) * limit >= total
    ensures (Pages(total, limit) - 1) * limit < total || total == 0
  {
    var q := (total + limit - 1) / limit;
    var m := (total + limit - 1) % limit;
    assert total + limit - 1 == q * limit + m;
  }

  /** `LogSummary`: success rate in percent, mean latency, error count. */
  datatype Summary = Summary(successRate: real, avgLatencyMs: real, errorCount: nat)

  predicate IsSuccess(e: LogEntry)
  {
    e.success == Some(true)
  }

  predicate IsError(e: LogEntry)
  {
    e.success == Some(false)
  }

  predicate HasLatency(e: LogEntry)
  {
    e.responseTimeMs.Some?
  }

  function HasLatencyOf(): LogEntry -> bool
  {
    (e: LogEntry) => HasLatency(e)
  }

  /** The latency of an entry that has one. */
  function LatencyValueOf(): LogEntry -> real
  {
    (e: LogEntry) => e.responseTimeMs.GetOr(0.0)
  }

  /** The non-null latencies, in order. */
  function Latencies(logs: seq<LogEntry>): (xs: seq<real>)
    ensures xs == Map(Filter(logs, HasLatencyOf()), LatencyValueOf())
    ensures |xs| <= |logs|
    ensures (exists i :: 0 <= i < |logs| && logs[i].responseTimeMs.Some?) ==> |xs| > 0
  {
    if |logs| == 0 then []
    else (if logs[0].responseTimeMs.Some? then [logs[0].responseTimeMs.value] else [])
         + Latencies(logs[1..])
  }

  /** Every collected latency lies within bounds holding for all non-null
      latencies. */
  lemma {:induction false} LatenciesWithin(logs: seq<LogEntry>, lo: real, hi: real)
    requires forall i :: 0 <= i < |logs| && logs[i].responseTimeMs.Some? ==>
      lo <= logs[i].responseTimeMs.value <= hi
    ensures forall j :: 0 <= j < |Latencies(logs)| ==> lo <= Latencies(logs)[j] <= hi
  {
    if |logs| > 0 {
      LatenciesWithin(logs[1..], lo, hi);
    }
  }

  function IsSuccessOf(): LogEntry -> bool
  {
    (e: LogEntry) => IsSuccess(e)
  }

  function IsErrorOf(): LogEntry -> bool
  {
    (e: LogEntry) => IsError(e)
  }

  /** `calculateSummary`: zeros for no logs; otherwise the success share in
      percent, the mean of the non-null latencies and the number of failed
      logs. */
  function CalculateSummary(logs: seq<LogEntry>): (s: Summary)
    ensures |logs| == 0 ==> s == Summary(0.0, 0.0, 0)
    ensures 0.0 <= s.successRate <= 100.0
    ensures s.errorCount + Count(logs, IsSuccessOf()) <= |logs|
    ensures |logs| > 0 ==> s.successRate == Percent(Count(logs, IsSuccessOf()), |logs|)
    ensures s.errorCount == Count(logs, IsErrorOf())
    ensures s.avgLatencyMs == Mean(Map(Filter(logs, HasLatencyOf()), LatencyValueOf()))
  {
    CountDisjoint(logs, IsSuccessOf(), IsErrorOf());
    if |logs| == 0 then Summary(0.0, 0.0, 0)
    else
      var ok := Count(logs, IsSuccessOf());
      Summary(Percent(ok, |logs|), Mean(Latencies(logs)), Count(logs, IsErrorOf()))
  }

  /** The mean latency lies between any bounds of the non-null latencies. */
  lemma SummaryLatencyBounds(logs: seq<LogEntry>, lo: real, hi: real)
    requires lo <= hi
    requires forall i :: 0 <= i < |logs| && logs[i].responseTimeMs.Some? ==>
      lo <= logs[i].responseTimeMs.value <= hi
    ensures (exists i :: 0 <= i < |logs| && logs[i].responseTimeMs.Some?) ==>
      lo <= CalculateSummary(logs).avgLatencyMs <= hi
  {
    LatenciesWithin(logs, lo, hi);
    if exists i :: 0 <= i < |logs| && logs[i].responseTimeMs.Some? {
      MeanBounds(Latencies(logs), lo, hi);
    }
  }

  /** Every entry of a slice of a permutation of matching entries matches. */
  lemma SliceKeeps(filtered: seq<LogEntry>, sorted: seq<LogEntry>, p: SearchParams)
    requires forall e :: e in filtered ==> MatchesFilters(e, p)
    requires multiset(sorted) == multiset(filtered)
    ensures forall i, j, e :: 0 <= i <= j <= |sorted| && e in sorted[i..j] ==> MatchesFilters(e, p)
  {
    forall i, j, e | 0 <= i <= j <= |sorted| && e in sorted[i..j]
      ensures MatchesFilters(e, p)
    {
      assert e in multiset(filtered);
    }
  }

  /** `LogSearchResponseDTO`. */
  datatype SearchResponse = SearchResponse(
    total: nat, page: int, limit: int, pages: int, logs: seq<LogEntry>, summary: Summary)

  /** What the store scan hands over: the entries of [start, end) matching
      connector and type, capped at 3 * limit (32-bit). */
  ghost function Fetched(store: seq<Row>, family: string, p: SearchParams, now: int): seq<LogEntry>
  {
    FetchedIn(store, family, p, SearchStart(p, now), SearchEnd(p, now))
  }

  /** The end of the searched range: the requested end, or now. */
  function SearchEnd(p: SearchParams, now: int): int
  {
    p.endTime.GetOr(now)
  }

  /** The start of the searched range: the requested start, or one day
      before the end. */
  function SearchStart(p: SearchParams, now: int): int
  {
    p.startTime.GetOr(SearchEnd(p, now) - TimeUnits.DAY_MS)
  }

  ghost function FetchedIn(store: seq<Row>, family: string, p: SearchParams, startMs: int, endMs: int): seq<LogEntry>
  {
    Take(Filter(BigtableScans.Decoded(BigtableScans.ScanRange(store, startMs, endMs), BigtableScans.LogDecoder(family)),
                BigtableScans.SearchFilter(p.connector, p.logType)),
         BigtableScans.Cap(JavaInt.Wrap32(p.limit * 3)))
  }

  /** The response built from the entries that passed the filters: the
      total, the page count and the summary are over all of them, the page
      is a slice of them in the requested order. */
  function Respond(filtered: seq<LogEntry>, p: SearchParams): (r: Option<SearchResponse>)
    requires forall e :: e in filtered ==> MatchesFilters(e, p)
    ensures r.Some? ==>
      && r.value.total == |filtered|
      && r.value.summary == CalculateSummary(filtered)
      && r.value.pages == Pages(|filtered|, p.limit)
      && Paginate(SortLogs(filtered, p), p.page, p.limit) == Some(r.value.logs)
    ensures r.Some? ==> forall e :: e in r.value.logs ==> MatchesFilters(e, p)
    ensures r.None? <==> Paginate(SortLogs(filtered, p), p.page, p.limit).None?
  {
    var sorted := SortLogs(filtered, p);
    var page := Paginate(sorted, p.page, p.limit);
    if page.None? then None
    else
      SliceKeeps(filtered, sorted, p);
      Some(SearchResponse(|filtered|, p.page, p.limit, Pages(|filtered|, p.limit),
                          page.value, CalculateSummary(filtered)))
  }

  /** `searchLogs`: `None` when the page bounds make `subList` throw. */
  method SearchLogs(store: seq<Row>, family: string, p: SearchParams, now: int)
    returns (r: Option<SearchResponse>)
    ensures var filtered := Filter(Fetched(store, family, p, now), Matches(p));
      r.Some? ==>
        && r.value.total == |filtered|
        && r.value.summary == CalculateSummary(filtered)
        && r.value.pages == Pages(|filtered|, p.limit)
        && Paginate(SortLogs(filtered, p), p.page, p.limit) == Some(r.value.logs)
    ensures r.Some? ==> forall e :: e in r.value.logs ==> MatchesFilters(e, p)
    ensures r.None? <==> Paginate(SortLogs(Filter(Fetched(store, family, p, now), Matches(p)), p), p.page, p.limit).None?
  {
    var startMs, endMs := SearchStart(p, now), SearchEnd(p, now);
    var all := BigtableScans.SearchLogs(store, family, p.connector, p.logType, startMs, endMs,
                                        JavaInt.Wrap32(p.limit * 3));
    assert all == FetchedIn(store, family, p, startMs, endMs);
    var filtered := Filter(all, Matches(p));
    assert forall e :: e in filtered ==> Matches(p)(e);
    r := Respond(filtered, p);
  }
}
