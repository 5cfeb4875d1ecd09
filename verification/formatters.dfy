/** The formatters of the monitoring console (`utils/formatters.js`):
    latency text, status-code colours, health of a percentage, and the
    arrow and colour of a trend. */
module Formatters {
  import opened Wrappers
  import opened Display
  import Text

  /** `formatLatency`: like the dashboard's, except that milliseconds are
      shown with no decimals. */
  function FormatLatency(ms: Option<real>): (t: LatencyText)
    ensures t.Dash? <==> ms.None?
    ensures ms.Some? ==> ReadsAs(t, ms.value)
    ensures ms.Some? ==> (t.unit == Micro <==> ms.value < 1.0)
    ensures ms.Some? ==> (t.unit == Second <==> ms.value >= 1000.0)
    ensures t.Reading? ==> t.decimals == (if t.unit == Second then 2 else 0)
  {
    LatencyReading(ms, 0)
  }

  // ---------------------------------------------------------------------
  // Status codes
  // ---------------------------------------------------------------------

  /** The Tailwind colour name of each class of status code. */
  function Hue(b: Band): string
  {
    match b
    case Success => "green"
    case Redirection => "blue"
    case ClientError => "yellow"
    case ServerError => "red"
    case Other => "gray"
  }

  lemma HueInjective(a: Band, b: Band)
    ensures Hue(a) == Hue(b) <==> a == b
  {
  }

  /** The text class of a hue. */
  function TextClass(hue: string): string
  {
    "text-" + hue + "-400"
  }

  /** The badge classes of a hue: a tinted background and border around
      the hue's text class. */
  function BadgeClasses(hue: string): string
  {
    BadgeLead(hue) + TextClass(hue) + BadgeTrail(hue)
  }

  function BadgeLead(hue: string): string
  {
    "bg-" + hue + "-500/20 "
  }

  function BadgeTrail(hue: string): string
  {
    " border-" + hue + "-500/50"
  }

  /** The hue sits right after "bg-", and the length fixes the hue's. */
  lemma BadgeHue(hue: string)
    ensures |BadgeClasses(hue)| == 35 + 3 * |hue|
    ensures BadgeClasses(hue)[3..3 + |hue|] == hue
  {
    assert BadgeClasses(hue) == "bg-" + hue + ("-500/20 " + TextClass(hue) + BadgeTrail(hue));
    Middle("bg-", hue, "-500/20 " + TextClass(hue) + BadgeTrail(hue));
  }

  /** The text class of each hue, spelled out. */
  lemma TextClassLiterals()
    ensures TextClass("green") == "text-green-400"
    ensures TextClass("blue") == "text-blue-400"
    ensures TextClass("yellow") == "text-yellow-400"
    ensures TextClass("red") == "text-red-400"
    ensures TextClass("gray") == "text-gray-400"
  {
  }

  lemma BadgePieces(hue: string, lead: string, text: string, trail: string)
    requires BadgeLead(hue) == lead && TextClass(hue) == text && BadgeTrail(hue) == trail
    ensures BadgeClasses(hue) == lead + text + trail
  {
  }

  // The three parts of each badge, joined.

  lemma GreenBadgeSpelled()
    ensures "bg-green-500/20 " + "text-green-400" + " border-green-500/50"
         == "bg-green-500/20 text-green-400 border-green-500/50"
  {
  }

  lemma BlueBadgeSpelled()
    ensures "bg-blue-500/20 " + "text-blue-400" + " border-blue-500/50"
         == "bg-blue-500/20 text-blue-400 border-blue-500/50"
  {
  }

  lemma YellowBadgeSpelled()
    ensures "bg-yellow-500/20 " + "text-yellow-400" + " border-yellow-500/50"
         == "bg-yellow-500/20 text-yellow-400 border-yellow-500/50"
  {
  }

  lemma RedBadgeSpelled()
    ensures "bg-red-500/20 " + "text-red-400" + " border-red-500/50"
         == "bg-red-500/20 text-red-400 border-red-500/50"
  {
  }

  lemma GrayBadgeSpelled()
    ensures "bg-gray-500/20 " + "text-gray-400" + " border-gray-500/50"
         == "bg-gray-500/20 text-gray-400 border-gray-500/50"
  {
  }

  /** The badge classes of each hue, spelled out. */
  lemma BadgeClassLiteralGreen()
    ensures BadgeClasses("green") == "bg-green-500/20 text-green-400 border-green-500/50"
  {
    BadgePieces("green", "bg-green-500/20 ", "text-green-400", " border-green-500/50");
    GreenBadgeSpelled();
  }

  lemma BadgeClassLiteralBlue()
    ensures BadgeClasses("blue") == "bg-blue-500/20 text-blue-400 border-blue-500/50"
  {
    BadgePieces("blue", "bg-blue-500/20 ", "text-blue-400", " border-blue-500/50");
    BlueBadgeSpelled();
  }

  lemma BadgeClassLiteralYellow()
    ensures BadgeClasses("yellow") == "bg-yellow-500/20 text-yellow-400 border-yellow-500/50"
  {
    BadgePieces("yellow", "bg-yellow-500/20 ", "text-yellow-400", " border-yellow-500/50");
    YellowBadgeSpelled();
  }

  lemma BadgeClassLiteralRed()
    ensures BadgeClasses("red") == "bg-red-500/20 text-red-400 border-red-500/50"
  {
    BadgePieces("red", "bg-red-500/20 ", "text-red-400", " border-red-500/50");
    RedBadgeSpelled();
  }

  lemma BadgeClassLiteralGray()
    ensures BadgeClasses("gray") == "bg-gray-500/20 text-gray-400 border-gray-500/50"
  {
    BadgePieces("gray", "bg-gray-500/20 ", "text-gray-400", " border-gray-500/50");
    GrayBadgeSpelled();
  }

  /** `getStatusColor`: the text colour of a status code,
      "text-green-400" for 2xx, blue for 3xx, yellow for 4xx, red from
      500 and grey below 200. */
  function StatusColor(code: int): (c: string)
    ensures 200 <= code < 300 <==> c == "text-green-400"
    ensures 300 <= code < 400 <==> c == "text-blue-400"
    ensures 400 <= code < 500 <==> c == "text-yellow-400"
    ensures 500 <= code <==> c == "text-red-400"
    ensures code < 200 <==> c == "text-gray-400"
  {
    TextClassLiterals();
    TextClass(Hue(BandOf(code)))
  }

  /** `getStatusBadgeColor`: the badge classes of a status code, a tinted
      background and border around the text colour of its class. */
  function StatusBadgeColor(code: int): (c: string)
    ensures 200 <= code < 300 <==> c == "bg-green-500/20 text-green-400 border-green-500/50"
    ensures 300 <= code < 400 <==> c == "bg-blue-500/20 text-blue-400 border-blue-500/50"
    ensures 400 <= code < 500 <==> c == "bg-yellow-500/20 text-yellow-400 border-yellow-500/50"
    ensures 500 <= code <==> c == "bg-red-500/20 text-red-400 border-red-500/50"
    ensures code < 200 <==> c == "bg-gray-500/20 text-gray-400 border-gray-500/50"
  {
    BadgeClassLiteralGreen();
    BadgeClassLiteralBlue();
    BadgeClassLiteralYellow();
    BadgeClassLiteralRed();
    BadgeClassLiteralGray();
    BadgeClasses(Hue(BandOf(code)))
  }

  /** The middle of a concatenation can be cut back out. */
  lemma Middle(p: string, m: string, q: string)
    ensures (p + m + q)[|p|..|p| + |m|] == m
  {
  }

  /** Equal strings with the same prefix and middles of the same length
      have the same middle. */
  lemma SameMiddle(p: string, x: string, y: string, q: string, r: string)
    requires p + x + q == p + y + r
    requires |x| == |y|
    ensures x == y
  {
    Middle(p, x, q);
    Middle(p, y, r);
  }

  lemma TextClassInjective(x: string, y: string)
    ensures TextClass(x) == TextClass(y) <==> x == y
  {
    if TextClass(x) == TextClass(y) {
      SameMiddle("text-", x, y, "-400", "-400");
    }
  }

  lemma BadgeClassesInjective(x: string, y: string)
    ensures BadgeClasses(x) == BadgeClasses(y) <==> x == y
  {
    if BadgeClasses(x) == BadgeClasses(y) {
      BadgeHue(x);
      BadgeHue(y);
    }
  }

  /** The badge classes of a hue contain its text class. */
  lemma BadgeContainsText(hue: string)
    ensures Text.Contains(BadgeClasses(hue), TextClass(hue))
  {
    var pre := BadgeLead(hue);
    Middle(pre, TextClass(hue), BadgeTrail(hue));
    assert Text.OccursAt(BadgeClasses(hue), TextClass(hue), |pre|);
    Text.ContainsIffOccurs(BadgeClasses(hue), TextClass(hue));
  }

  /** A badge carries the text colour of its status code. */
  lemma BadgeCarriesTextColor(code: int)
    ensures Text.Contains(StatusBadgeColor(code), StatusColor(code))
  {
    BadgeContainsText(Hue(BandOf(code)));
  }

  /** Text colour and badge split the codes into the same classes. */
  lemma ColorAndBadgeAgree(a: int, b: int)
    ensures StatusColor(a) == StatusColor(b) <==> BandOf(a) == BandOf(b)
    ensures StatusBadgeColor(a) == StatusBadgeColor(b) <==> BandOf(a) == BandOf(b)
  {
    HueInjective(BandOf(a), BandOf(b));
    TextClassInjective(Hue(BandOf(a)), Hue(BandOf(b)));
    BadgeClassesInjective(Hue(BandOf(a)), Hue(BandOf(b)));
  }

  // ---------------------------------------------------------------------
  // Health
  // ---------------------------------------------------------------------

  /** `getHealthStatus`: healthy from 99 %, degraded from 95 %. */
  function HealthStatus(percentage: real): (s: string)
    ensures s == "HEALTHY" <==> percentage >= 99.0
    ensures s == "CRITICAL" <==> percentage < 95.0
    ensures s in {"HEALTHY", "DEGRADED", "CRITICAL"}
  {
    if percentage >= 99.0 then "HEALTHY"
    else if percentage >= 95.0 then "DEGRADED"
    else "CRITICAL"
  }

  /** `getHealthColor`: the same thresholds as `getHealthStatus`. */
  function HealthColor(percentage: real): (c: string)
    ensures c in {"text-green-400", "text-yellow-400", "text-red-400"}
  {
    if percentage >= 99.0 then "text-green-400"
    else if percentage >= 95.0 then "text-yellow-400"
    else "text-red-400"
  }

  /** Health colour and health status always tell the same story. */
  lemma HealthColorMatchesStatus(p: real)
    ensures HealthColor(p) == "text-green-400" <==> HealthStatus(p) == "HEALTHY"
    ensures HealthColor(p) == "text-yellow-400" <==> HealthStatus(p) == "DEGRADED"
    ensures HealthColor(p) == "text-red-400" <==> HealthStatus(p) == "CRITICAL"
  {
  }

  // ---------------------------------------------------------------------
  // Trends
  // ---------------------------------------------------------------------

  /** `getTrendIcon`: up for a rise, down for a fall, flat otherwise. */
  function TrendIcon(value: real): (i: string)
    ensures i == "▲" <==> value > 0.0
    ensures i == "▼" <==> value < 0.0
    ensures i == "─" <==> value == 0.0
  {
    if value > 0.0 then "▲"
    else if value < 0.0 then "▼"
    else "─"
  }

  /** `getTrendColor`: a change in the good direction is green (a rise,
      or a fall when `inverse` says lower is better), no change is grey,
      any other change is red. */
  function TrendColor(value: real, inverse: bool): (c: string)
    ensures c == "text-gray-400" <==> value == 0.0
    ensures c == "text-green-400" <==> (if inverse then value < 0.0 else value > 0.0)
    ensures c == "text-red-400" <==> (if inverse then value > 0.0 else value < 0.0)
  {
    var positive := if inverse then value < 0.0 else value > 0.0;
    if positive then "text-green-400"
    else if value == 0.0 then "text-gray-400"
    else "text-red-400"
  }

  /** Inverting a trend is the same as negating it. */
  lemma TrendColorInverse(value: real)
    ensures TrendColor(value, true) == TrendColor(-value, false)
  {
  }

  /** The colour follows the arrow: with `inverse` unset, green goes with
      up, red with down and grey with flat. */
  lemma TrendColorFollowsIcon(value: real)
    ensures TrendColor(value, false) == "text-green-400" <==> TrendIcon(value) == "▲"
    ensures TrendColor(value, false) == "text-red-400" <==> TrendIcon(value) == "▼"
    ensures TrendColor(value, false) == "text-gray-400" <==> TrendIcon(value) == "─"
  {
  }
}
