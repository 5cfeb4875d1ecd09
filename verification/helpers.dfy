/** The display helpers of the dashboard (`utils/helpers.js`): time ranges,
    latency text, health statuses and their labels, status-code colours,
    connector and log-type names, short paths and IP validation. */
module Helpers {
  import opened Wrappers
  import opened Display
  import Decimal
  import Formatters
  import Metrics
  import Text
  import TimeUnits

  // ---------------------------------------------------------------------
  // Time ranges
  // ---------------------------------------------------------------------

  /** A reporting window in epoch milliseconds. */
  datatype Window = Window(startDate: int, endDate: int)

  /** `getTimeRangeDates`: the window of a range ends now; hours are
      subtracted for 1h/6h/24h, days for 7d/30d, and anything else is one
      hour. */
  function TimeRangeDates(timeRange: string, now: int): (w: Window)
    ensures w.endDate == now
    ensures w.startDate < w.endDate
  {
    match timeRange
    case "1h" => Window(now - TimeUnits.HOUR_MS, now)
    case "6h" => Window(now - 6 * TimeUnits.HOUR_MS, now)
    case "24h" => Window(now - 24 * TimeUnits.HOUR_MS, now)
    case "7d" => Window(now - 7 * TimeUnits.DAY_MS, now)
    case "30d" => Window(now - 30 * TimeUnits.DAY_MS, now)
    case _ => Window(now - TimeUnits.HOUR_MS, now)
  }

  /** The dashboard asks for the same window the backend computes from the
      same range name. */
  lemma TimeRangeMatchesBackend(timeRange: string, now: int)
    ensures TimeRangeDates(timeRange, now).startDate == Metrics.StartTime(now, timeRange)
  {
  }

  // ---------------------------------------------------------------------
  // Latency
  // ---------------------------------------------------------------------

  /** `formatLatency`: milliseconds are shown with two decimals. */
  function FormatLatency(ms: Option<real>): (t: LatencyText)
    ensures t.Dash? <==> ms.None?
    ensures ms.Some? ==> ReadsAs(t, ms.value)
    ensures ms.Some? ==> (t.unit == Micro <==> ms.value < 1.0)
    ensures ms.Some? ==> (t.unit == Second <==> ms.value >= 1000.0)
    ensures t.Reading? ==> t.decimals == (if t.unit == Micro then 0 else 2)
  {
    LatencyReading(ms, 2)
  }

  /** The console's formatter differs from this one only in the decimals
      of a millisecond reading. */
  lemma LatencyFormatsAgree(ms: Option<real>)
    ensures var a, b := FormatLatency(ms), Formatters.FormatLatency(ms);
      && a.Dash? == b.Dash?
      && (a.Reading? ==> a.amount == b.amount && a.unit == b.unit)
      && (a.Reading? && a.unit != Milli ==> a.decimals == b.decimals)
  {
  }

  // ---------------------------------------------------------------------
  // Health statuses
  // ---------------------------------------------------------------------

  const HEALTHY: string := "healthy"
  const DEGRADED: string := "degraded"
  const DOWN: string := "down"
  const UNKNOWN: string := "unknown"

  /** How good a status is: healthy above degraded above down. */
  function Rank(status: string): nat
  {
    if status == HEALTHY then 2 else if status == DEGRADED then 1 else 0
  }

  /** `getStatusFromUptime`: healthy from 99.9 % up, degraded from 95 %. */
  function StatusFromUptime(uptime: real): (s: string)
    ensures s in {HEALTHY, DEGRADED, DOWN}
    ensures s == HEALTHY <==> uptime >= 99.9
    ensures s == DOWN <==> uptime < 95.0
  {
    if uptime >= 99.9 then HEALTHY
    else if uptime >= 95.0 then DEGRADED
    else DOWN
  }

  /** `getStatusFromErrorRate`: healthy below 1 %, degraded below 5 %. */
  function StatusFromErrorRate(errorRate: real): (s: string)
    ensures s in {HEALTHY, DEGRADED, DOWN}
    ensures s == HEALTHY <==> errorRate < 1.0
    ensures s == DOWN <==> errorRate >= 5.0
  {
    if errorRate < 1.0 then HEALTHY
    else if errorRate < 5.0 then DEGRADED
    else DOWN
  }

  /** More uptime never gives a worse status, and a higher error rate
      never gives a better one. */
  lemma StatusesMonotone(a: real, b: real)
    requires a <= b
    ensures Rank(StatusFromUptime(a)) <= Rank(StatusFromUptime(b))
    ensures Rank(StatusFromErrorRate(a)) >= Rank(StatusFromErrorRate(b))
  {
  }

  const STATUS_CLASSES: map<string, string> := map[
    HEALTHY := "text-success-700 bg-success-100",
    DEGRADED := "text-warning-700 bg-warning-100",
    DOWN := "text-danger-700 bg-danger-100",
    UNKNOWN := "text-gray-700 bg-gray-100"]

  const STATUS_TEXTS: map<string, string> := map[
    HEALTHY := "Opérationnel",
    DEGRADED := "Dégradé",
    DOWN := "Hors ligne",
    UNKNOWN := "Inconnu"]

  /** `statusMap[status] || statusMap.unknown`; every entry is non-empty,
      so the fallback applies exactly to statuses the map lacks. */
  function Lookup(m: map<string, string>, status: string): string
    requires UNKNOWN in m
  {
    if status in m && m[status] != "" then m[status] else m[UNKNOWN]
  }

  /** `getStatusClass`. */
  function StatusClass(status: string): (c: string)
    ensures c in STATUS_CLASSES.Values
    ensures c == STATUS_CLASSES[UNKNOWN] <==> status !in {HEALTHY, DEGRADED, DOWN}
    ensures c == "text-success-700 bg-success-100" <==> status == HEALTHY
    ensures c == "text-warning-700 bg-warning-100" <==> status == DEGRADED
    ensures c == "text-danger-700 bg-danger-100" <==> status == DOWN
  {
    Lookup(STATUS_CLASSES, status)
  }

  /** `getStatusText`. */
  function StatusText(status: string): (t: string)
    ensures t in STATUS_TEXTS.Values
    ensures t == STATUS_TEXTS[UNKNOWN] <==> status !in {HEALTHY, DEGRADED, DOWN}
    ensures t == "Opérationnel" <==> status == HEALTHY
    ensures t == "Dégradé" <==> status == DEGRADED
    ensures t == "Hors ligne" <==> status == DOWN
  {
    Lookup(STATUS_TEXTS, status)
  }

  /** Class and label tell statuses apart in the same way: two statuses
      share a class exactly when they share a label. */
  lemma ClassAndTextAgree(a: string, b: string)
    ensures StatusClass(a) == StatusClass(b) <==> StatusText(a) == StatusText(b)
  {
  }

  /** A status computed from uptime or error rate always has its own
      class and label, never the unknown ones. */
  lemma ComputedStatusIsKnown(uptime: real, errorRate: real)
    ensures StatusClass(StatusFromUptime(uptime)) != STATUS_CLASSES[UNKNOWN]
    ensures StatusText(StatusFromErrorRate(errorRate)) != STATUS_TEXTS[UNKNOWN]
  {
  }

  /** `getStatusCodeColor`: one colour per class of status code. */
  function StatusCodeColor(code: int): (c: string)
    ensures c in {"success", "info", "warning", "danger", "secondary"}
    ensures c == "success" <==> 200 <= code < 300
    ensures c == "warning" <==> 400 <= code < 500
    ensures c == "danger" <==> code >= 500
    ensures c == "secondary" <==> code < 200
  {
    match BandOf(code)
    case Success => "success"
    case Redirection => "info"
    case ClientError => "warning"
    case ServerError => "danger"
    case Other => "secondary"
  }

  /** Two codes get the same colour exactly when they fall in the same
      class. */
  lemma StatusCodeColorByBand(a: int, b: int)
    ensures StatusCodeColor(a) == StatusCodeColor(b) <==> BandOf(a) == BandOf(b)
  {
  }

  // ---------------------------------------------------------------------
  // Names
  // ---------------------------------------------------------------------

  /** `map[key] || key` on a map without empty entries. */
  function Translate(m: map<string, string>, key: string): string
  {
    if key in m && m[key] != "" then m[key] else key
  }

  /** A translation whose results are not themselves keys is idempotent. */
  lemma TranslateIdempotent(m: map<string, string>, key: string)
    requires forall k :: k in m ==> m[k] !in m
    ensures Translate(m, Translate(m, key)) == Translate(m, key)
  {
  }

  const CONNECTOR_NAMES: map<string, string> := map[
    "pi-gateway" := "PI Gateway",
    "pi-connector" := "PI Connector",
    "all" := "Tous les connecteurs"]

  /** `getConnectorFullName`: known connectors get their display name,
      any other value is shown as it is. */
  function ConnectorFullName(connector: string): (n: string)
    ensures connector in CONNECTOR_NAMES ==> n == CONNECTOR_NAMES[connector] && n != connector
    ensures connector !in CONNECTOR_NAMES ==> n == connector
  {
    Translate(CONNECTOR_NAMES, connector)
  }

  /** Naming a name again changes nothing. */
  lemma ConnectorFullNameIdempotent(connector: string)
    ensures ConnectorFullName(ConnectorFullName(connector)) == ConnectorFullName(connector)
  {
    TranslateIdempotent(CONNECTOR_NAMES, connector);
  }

  const LOG_TYPE_LABELS: map<string, string> := map[
    "API_IN" := "API Entrante",
    "API_OUT" := "API Sortante",
    "AUTH" := "Authentification",
    "PROCESSING" := "Traitement",
    "ERROR" := "Erreur",
    "all" := "Tous"]

  /** `getLogTypeLabel`: known log types get their label, any other value
      is shown as it is. */
  function LogTypeLabel(logType: string): (l: string)
    ensures logType in LOG_TYPE_LABELS ==> l == LOG_TYPE_LABELS[logType] && l != logType
    ensures logType !in LOG_TYPE_LABELS ==> l == logType
  {
    Translate(LOG_TYPE_LABELS, logType)
  }

  lemma LogTypeLabelIdempotent(logType: string)
    ensures LogTypeLabel(LogTypeLabel(logType)) == LogTypeLabel(logType)
  {
    TranslateIdempotent(LOG_TYPE_LABELS, logType);
  }

  // ---------------------------------------------------------------------
  // Paths and addresses
  // ---------------------------------------------------------------------

  /** `extractShortPath`: a missing or empty path is "-"; otherwise the
      text before the first '?'. */
  function ExtractShortPath(path: Option<string>): (r: string)
    ensures path.None? || path.value == "" ==> r == "-"
    ensures path.Some? && path.value != "" ==>
      && r <= path.value
      && '?' !in r
      && (|r| < |path.value| ==> path.value[|r|] == '?')
  {
    if path.None? || path.value == "" then "-"
    else
      Text.SplitAllHead(path.value, '?');
      Text.SplitAll(path.value, '?')[0]
  }

  /** A path with a query string loses exactly the query. */
  lemma ShortPathDropsQuery(path: string, query: string)
    requires path != "" && '?' !in path
    ensures ExtractShortPath(Some(path + "?" + query)) == path
    ensures ExtractShortPath(Some(path)) == path
  {
    Text.SplitAllAtSeparator(path, '?', query);
    Text.SplitAllNoSeparator(path, '?');
  }

  /** One group of the address pattern: one to three ASCII digits. */
  predicate Octet(s: string)
  {
    1 <= |s| <= 3 && Decimal.AllDigits(s)
  }

  /** `isValidIP`: four dot-separated groups of one to three digits; the
      values of the groups are not checked. */
  predicate IsValidIP(ip: string)
  {
    var groups := Text.SplitAll(ip, '.');
    |groups| == 4 && forall i :: 0 <= i < 4 ==> Octet(groups[i])
  }

  /** What `^(\d{1,3}\.){3}\d{1,3}$` matches: four digit groups joined by
      dots. */
  ghost predicate MatchesPattern(ip: string)
  {
    exists groups: seq<string> ::
      && |groups| == 4
      && (forall i :: 0 <= i < 4 ==> Octet(groups[i]))
      && ip == Text.Join(groups, '.')
  }

  /** The split-based check accepts exactly the strings of the pattern. */
  lemma IsValidIPMatchesPattern(ip: string)
    ensures IsValidIP(ip) <==> MatchesPattern(ip)
  {
    if IsValidIP(ip) {
      Text.JoinSplitAll(ip, '.');
    }
    if MatchesPattern(ip) {
      var groups: seq<string> :| |groups| == 4
        && (forall i :: 0 <= i < 4 ==> Octet(groups[i]))
        && ip == Text.Join(groups, '.');
      forall i | 0 <= i < |groups|
        ensures '.' !in groups[i]
      {
        assert Octet(groups[i]);
      }
      Text.SplitAllJoin(groups, '.');
    }
  }

  /** Any four groups of one to three digits make a valid address,
      whatever their values. */
  lemma DigitGroupsAccepted(a: string, b: string, c: string, d: string)
    requires Octet(a) && Octet(b) && Octet(c) && Octet(d)
    ensures IsValidIP(a + "." + b + "." + c + "." + d)
  {
    var groups := [a, b, c, d];
    assert Text.Join(groups[3..], '.') == d;
    assert Text.Join(groups[2..], '.') == c + "." + d;
    assert Text.Join(groups[1..], '.') == b + "." + c + "." + d;
    assert Text.Join(groups, '.') == a + "." + b + "." + c + "." + d;
    IsValidIPMatchesPattern(a + "." + b + "." + c + "." + d);
  }

  /** The pattern has no range check: "999.999.999.999" passes. */
  lemma OutOfRangeAddressAccepted()
    ensures IsValidIP("999.999.999.999")
  {
    var g := "999";
    assert Octet(g);
    DigitGroupsAccepted(g, g, g, g);
    assert g + "." + g + "." + g + "." + g == "999.999.999.999";
  }
}
