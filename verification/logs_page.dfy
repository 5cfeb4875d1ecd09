/** The cell formatting of the log table (`pages/LogsPage.js`): badge
    classes by log type, status code and latency, and truncated paths and
    identifiers. */
module LogsPage {
  import opened Wrappers
  import opened Display

  /** `getTypeBadgeClass`: inbound calls, outbound calls, authentication
      and processing have their own badge; anything else is "info". */
  function TypeBadgeClass(logType: string): (c: string)
    ensures logType == "API_OUT" <==> c == "success"
    ensures logType == "AUTH" <==> c == "warning"
    ensures logType == "PROCESSING" <==> c == "processing"
    ensures c == "info" <==> logType !in {"API_OUT", "AUTH", "PROCESSING"}
  {
    match logType
    case "API_IN" => "info"
    case "API_OUT" => "success"
    case "AUTH" => "warning"
    case "PROCESSING" => "processing"
    case _ => "info"
  }

  /** `getStatusClass`: a missing status compares false everywhere and
      falls through to "info", like a code below 200. */
  function StatusClass(status: Option<int>): (c: string)
    ensures c in {"success", "info", "warning", "error"}
    ensures c == "success" <==> status.Some? && 200 <= status.value < 300
    ensures c == "warning" <==> status.Some? && 400 <= status.value < 500
    ensures c == "error" <==> status.Some? && status.value >= 500
  {
    match status
    case None => "info"
    case Some(code) =>
      match BandOf(code)
      case Success => "success"
      case Redirection => "info"
      case ClientError => "warning"
      case ServerError => "error"
      case Other => "info"
  }

  /** The table uses one class for redirects and for codes below 200 and
      tells every other class of code apart. */
  lemma StatusClassByBand(a: int, b: int)
    ensures StatusClass(Some(a)) == StatusClass(Some(b)) <==>
      (BandOf(a) == BandOf(b) || (BandOf(a) in {Redirection, Other} && BandOf(b) in {Redirection, Other}))
  {
  }

  /** `getLatencyClass`: no latency (missing or 0) has no class; below
      100 ms is good, below 500 ms medium, otherwise bad. */
  function LatencyClass(latency: Option<real>): (c: string)
    ensures c == "" <==> latency.None? || latency.value == 0.0
    ensures c == "latency-good" <==> latency.Some? && latency.value != 0.0 && latency.value < 100.0
    ensures c == "latency-bad" <==> latency.Some? && latency.value >= 500.0
  {
    if latency.None? || latency.value == 0.0 then ""
    else if latency.value < 100.0 then "latency-good"
    else if latency.value < 500.0 then "latency-medium"
    else "latency-bad"
  }

  /** How slow a class says a call was. */
  function Slowness(c: string): nat
  {
    if c == "latency-bad" then 2 else if c == "latency-medium" then 1 else 0
  }

  /** A slower call never gets a better class. */
  lemma LatencyClassMonotone(a: real, b: real)
    requires 0.0 < a <= b
    ensures Slowness(LatencyClass(Some(a))) <= Slowness(LatencyClass(Some(b)))
  {
  }

  /** `truncatePath`: a missing or empty path is "-"; a path of up to 50
      characters is shown whole, a longer one as its first 47 characters
      and "...". */
  function TruncatePath(path: Option<string>): (r: string)
    ensures path.None? || path.value == "" ==> r == "-"
    ensures path.Some? && path.value != "" ==>
      && |r| <= 50
      && (r == path.value <==> |path.value| <= 50)
      && (r != path.value ==> |r| == 50 && r[..47] == path.value[..47] && r[47..] == "...")
  {
    if path.None? || path.value == "" then "-"
    else if |path.value| <= 50 then path.value
    else path.value[..47] + "..."
  }

  /** Truncating a shown path again changes nothing. */
  lemma TruncatePathIdempotent(path: Option<string>)
    ensures TruncatePath(Some(TruncatePath(path))) == TruncatePath(path)
  {
  }

  /** `truncateId`: a missing or empty id is "-"; an id of up to 12
      characters is shown whole, a longer one as its first 12 characters
      and "...". */
  function TruncateId(id: Option<string>): (r: string)
    ensures id.None? || id.value == "" ==> r == "-"
    ensures id.Some? && id.value != "" ==>
      && (|id.value| <= 12 ==> r == id.value)
      && (|id.value| > 12 ==> |r| == 15 && r[..12] == id.value[..12] && r[12..] == "...")
  {
    if id.None? || id.value == "" then "-"
    else if |id.value| <= 12 then id.value
    else id.value[..12] + "..."
  }

  /** Truncating a shown id again changes nothing, and two ids that share
      their first 12 characters look the same once both are cut. */
  lemma TruncateIdProperties(a: string, b: string)
    ensures TruncateId(Some(TruncateId(Some(a)))) == TruncateId(Some(a))
    ensures |a| > 12 && |b| > 12 && a[..12] == b[..12] ==> TruncateId(Some(a)) == TruncateId(Some(b))
  {
  }
}
