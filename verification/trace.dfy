/** `TraceService`: a transaction's processing steps, read as column maps,
    turned into a trace: the steps parsed, ordered by time and numbered, the
    span and outcome of the whole, and the steps that take a large share of
    it, each with a suggestion. Timestamps are epoch milliseconds. */
module TraceService {
  import opened Wrappers
  import opened Seqs
  import opened BigtableRows
  import Decimal
  import JavaInt
  import Sorting
  import Text

  // ---------------------------------------------------------------------
  // Steps
  // ---------------------------------------------------------------------

  /** `TraceStep`; the builder leaves `sequence` unset until numbering. */
  datatype TraceStep = TraceStep(
    sequence: Option<int>,
    timestamp: int,
    stepType: Option<string>,
    service: Option<string>,
    httpMethod: Option<string>,
    path: Option<string>,
    status: Option<int>,
    durationMs: Option<int>,
    clientIp: Option<string>,
    message: Option<string>)

  /** `map.getOrDefault(k, fallback)`: the fallback only when the key is
      absent. */
  function GetOrDefault(m: map<string, string>, k: string, fallback: Option<string>): (r: Option<string>)
    ensures k in m ==> r == Some(m[k])
    ensures k !in m ==> r == fallback
  {
    if k in m then Some(m[k]) else fallback
  }

  /** `parseLong`: `null` for a missing or empty value and for text
      `Long.parseLong` rejects. */
  function ParseLongOrNull(v: Option<string>): (r: Option<int>)
    ensures r.Some? ==> JavaInt.IsLong(r.value)
    ensures v.None? || v == Some("") ==> r.None?
    ensures v.Some? && v.value != "" ==> r == Decimal.ParseLong(v.value)
  {
    if v.None? || v.value == "" then None else Decimal.ParseLong(v.value)
  }

  /** `parseTimestamp`: the clock `now` for a missing or empty value, the
      number itself for a string of digits that fits a `long`, and otherwise
      what the ISO-8601 parser `parseIso` gives, `now` when it fails. */
  function ParseTimestamp(v: Option<string>, now: int, parseIso: string -> Option<int>): (t: int)
    ensures v.None? || v == Some("") ==> t == now
    ensures v.Some? && Decimal.AllDigits(v.value) && Decimal.ParseLong(v.value).None? ==> t == now
    ensures v.Some? && v.value != "" && Decimal.AllDigits(v.value) ==> t == Decimal.ParseLong(v.value).GetOr(now)
    ensures v.Some? && v.value != "" && !Decimal.AllDigits(v.value) ==> t == parseIso(v.value).GetOr(now)
  {
    if v.None? || v.value == "" then now
    else if Decimal.AllDigits(v.value) then Decimal.ParseLong(v.value).GetOr(now)
    else parseIso(v.value).GetOr(now)
  }

  /** Any digit string with an optional sign, leading zeros allowed, reads
      as its signed value when that fits a `long`, and as null otherwise. */
  lemma ParseLongOrNullDigits(sign: string, d: string)
    requires sign == "" || sign == "+" || sign == "-"
    requires |d| > 0 && Decimal.AllDigits(d)
    ensures var v := if sign == "-" then -(Decimal.Value(d) as int) else Decimal.Value(d) as int;
      ParseLongOrNull(Some(sign + d)) == if JavaInt.IsLong(v) then Some(v) else None
  {
    Decimal.ParseSignedDigits(sign, d, JavaInt.LONG_MIN, JavaInt.LONG_MAX);
    assert sign + d != "";
  }

  /** Digits alone, leading zeros allowed, read as their value when that
      fits a `long`, and as the clock otherwise; the ISO parser is never
      consulted. */
  lemma ParseTimestampDigits(d: string, now: int, parseIso: string -> Option<int>)
    requires |d| > 0 && Decimal.AllDigits(d)
    ensures ParseTimestamp(Some(d), now, parseIso)
         == if Decimal.Value(d) <= JavaInt.LONG_MAX then Decimal.Value(d) else now
  {
    Decimal.ParseSignedDigits("", d, JavaInt.LONG_MIN, JavaInt.LONG_MAX);
    assert "" + d == d;
  }

  /** A timestamp written as its decimal digits reads back as itself,
      whatever the clock says. */
  lemma ParseTimestampRoundTrip(ms: int, now: int, parseIso: string -> Option<int>)
    requires 0 <= ms <= JavaInt.LONG_MAX
    ensures ParseTimestamp(Some(Decimal.IntToDecimal(ms)), now, parseIso) == ms
  {
    var s := Decimal.IntToDecimal(ms);
    Decimal.ParseRoundTrip(ms, JavaInt.LONG_MIN, JavaInt.LONG_MAX);
    assert s == Decimal.NatDigits(ms);
    assert Decimal.AllDigits(s);
  }

  /** `mapToTraceStep`: the columns of one step. The service, the duration
      and the message fall back to "connector", "response_time_ms" and
      "message_content" only when their own column is absent. */
  function MapToTraceStep(data: map<string, string>, now: int, parseIso: string -> Option<int>): (s: TraceStep)
    ensures s.sequence.None?
    ensures s.timestamp == ParseTimestamp(Get(data, "timestamp"), now, parseIso)
    ensures s.stepType == Get(data, "type") && s.httpMethod == Get(data, "method")
    ensures s.path == Get(data, "path") && s.clientIp == Get(data, "client_ip")
    ensures s.status == ParseInteger(Get(data, "status"))
    ensures s.service == if "service" in data then Some(data["service"]) else Get(data, "connector")
    ensures s.durationMs == ParseLongOrNull(if "duration_ms" in data then Some(data["duration_ms"])
                                            else Get(data, "response_time_ms"))
    ensures s.message == if "message" in data then Some(data["message"]) else Get(data, "message_content")
  {
    TraceStep(
      None,
      ParseTimestamp(Get(data, "timestamp"), now, parseIso),
      Get(data, "type"),
      GetOrDefault(data, "service", Get(data, "connector")),
      Get(data, "method"),
      Get(data, "path"),
      ParseInteger(Get(data, "status")),
      ParseLongOrNull(GetOrDefault(data, "duration_ms", Get(data, "response_time_ms"))),
      Get(data, "client_ip"),
      GetOrDefault(data, "message", Get(data, "message_content")))
  }

  /** A present service column wins even when a connector column is there
      too; the connector is read only in its absence. */
  lemma ServiceFallback(data: map<string, string>, now: int, parseIso: string -> Option<int>)
    ensures "service" !in data && "connector" !in data ==> MapToTraceStep(data, now, parseIso).service.None?
    ensures "service" in data ==> MapToTraceStep(data, now, parseIso).service == Some(data["service"])
    ensures "service" !in data && "connector" in data ==>
      MapToTraceStep(data, now, parseIso).service == Some(data["connector"])
  {
  }

  function StepParser(now: int, parseIso: string -> Option<int>): map<string, string> -> TraceStep
  {
    (m: map<string, string>) => MapToTraceStep(m, now, parseIso)
  }

  function TimeKey(s: TraceStep): real
  {
    s.timestamp as real
  }

  /** The steps by increasing time, ties in read order. */
  function SortSteps(steps: seq<TraceStep>): (sorted: seq<TraceStep>)
    ensures multiset(sorted) == multiset(steps) && |sorted| == |steps|
    ensures forall i, j :: 0 <= i < j < |sorted| ==> sorted[i].timestamp <= sorted[j].timestamp
  {
    Sorting.KeyOrdersArePreorders(TimeKey);
    var sorted := Sorting.SortBy(steps, Sorting.Ascending(TimeKey));
    assert forall i, j :: 0 <= i < j < |sorted| ==> TimeKey(sorted[i]) <= TimeKey(sorted[j]) by {
      forall i, j | 0 <= i < j < |sorted|
        ensures TimeKey(sorted[i]) <= TimeKey(sorted[j])
      {
        assert Sorting.Ascending(TimeKey)(sorted[i], sorted[j]);
      }
    }
    sorted
  }

  /** Step `i` numbered `i + 1`. */
  function Numbered(steps: seq<TraceStep>): (r: seq<TraceStep>)
    ensures |r| == |steps|
    ensures forall i :: 0 <= i < |r| ==> r[i] == steps[i].(sequence := Some(i + 1))
  {
    seq(|steps|, i requires 0 <= i < |steps| => steps[i].(sequence := Some(i + 1)))
  }

  function Unnumbered(s: TraceStep): TraceStep
  {
    s.(sequence := None)
  }

  /** Numbering unparsed steps and clearing the numbers again gives them
      back. */
  lemma NumberedUnnumbered(steps: seq<TraceStep>)
    requires forall i :: 0 <= i < |steps| ==> steps[i].sequence.None?
    ensures Map(Numbered(steps), Unnumbered) == steps
  {
  }

  /** A step whose status is an HTTP error. */
  predicate Failed(s: TraceStep)
  {
    s.status.Some? && s.status.value >= 400
  }

  // ---------------------------------------------------------------------
  // Shares of the total time
  // ---------------------------------------------------------------------

  /** A Java `double` as far as this computation needs: a real, or the
      infinities and NaN a division by zero gives. */
  datatype Ratio = Finite(value: real) | PosInf | NegInf | NaN

  /** `(double) durationMs / totalDurationMs * 100`. */
  function Percentage(d: int, total: int): (p: Ratio)
    ensures total != 0 ==> p.Finite? && p.value * (total as real) == (d * 100) as real
    ensures total == 0 ==> (p == PosInf <==> d > 0) && (p == NegInf <==> d < 0) && (p == NaN <==> d == 0)
  {
    if total != 0 then Finite(d as real / total as real * 100.0)
    else if d > 0 then PosInf
    else if d < 0 then NegInf
    else NaN
  }

  /** `p >= x` on doubles: false for NaN. */
  predicate AtLeast(p: Ratio, x: real)
  {
    match p
    case Finite(v) => v >= x
    case PosInf => true
    case NegInf => false
    case NaN => false
  }

  /** `p > x` on doubles: false for NaN. */
  predicate Exceeds(p: Ratio, x: real)
  {
    match p
    case Finite(v) => v > x
    case PosInf => true
    case NegInf => false
    case NaN => false
  }

  /** The position of a value in `Double.compare`'s order: negative infinity,
      the reals, positive infinity, then NaN. */
  function Rank(p: Ratio): int
  {
    match p
    case NegInf => 0
    case Finite(_) => 1
    case PosInf => 2
    case NaN => 3
  }

  /** `Double.compare(p, q) >= 0`. */
  predicate CompareAtLeast(p: Ratio, q: Ratio)
  {
    Rank(p) > Rank(q) || (Rank(p) == Rank(q) && (p.Finite? && q.Finite? ==> p.value >= q.value))
  }

  /** With a positive total, a step reaches 30% exactly when ten times its
      duration is at least three times the total. */
  lemma ThirtyPercent(d: int, total: int)
    requires total > 0
    ensures AtLeast(Percentage(d, total), 30.0) <==> 10 * d >= 3 * total
  {
    var p := Percentage(d, total);
    var t := total as real;
    assert p.value * t == (d * 100) as real;
    if p.value >= 30.0 {
      assert p.value * t >= 30.0 * t;
    } else {
      assert p.value * t < 30.0 * t;
    }
  }

  // ---------------------------------------------------------------------
  // Bottlenecks
  // ---------------------------------------------------------------------

  const NOTIFICATION_ADVICE: string := "Consider async notifications to improve response time"
  const CACHING_ADVICE: string := "Consider caching or optimization for this step"
  const MAJOR_ADVICE: string := "This step is a major bottleneck - requires immediate attention"
  const DEFAULT_ADVICE: string := "Consider optimization for this step"

  /** `generateSuggestion`: the first rule that applies, in order. */
  function Suggestion(service: Option<string>, durationMs: Option<int>, p: Ratio): string
  {
    if service.Some? && Text.Contains(service.value, "notification") then NOTIFICATION_ADVICE
    else if durationMs.Some? && durationMs.value > 1000 then CACHING_ADVICE
    else if Exceeds(p, 50.0) then MAJOR_ADVICE
    else DEFAULT_ADVICE
  }

  /** The four pieces of advice and exactly when each is given. */
  lemma SuggestionRules(service: Option<string>, durationMs: Option<int>, p: Ratio)
    ensures Suggestion(service, durationMs, p) == NOTIFICATION_ADVICE
        <==> service.Some? && Text.Contains(service.value, "notification")
    ensures Suggestion(service, durationMs, p) == CACHING_ADVICE
        <==> !(service.Some? && Text.Contains(service.value, "notification"))
             && durationMs.Some? && durationMs.value > 1000
    ensures Suggestion(service, durationMs, p) == MAJOR_ADVICE
        <==> !(service.Some? && Text.Contains(service.value, "notification"))
             && !(durationMs.Some? && durationMs.value > 1000) && Exceeds(p, 50.0)
    ensures Suggestion(service, durationMs, p) == DEFAULT_ADVICE
        <==> !(service.Some? && Text.Contains(service.value, "notification"))
             && !(durationMs.Some? && durationMs.value > 1000) && !Exceeds(p, 50.0)
  {
  }

  /** `Bottleneck`: the step's number, service and duration, its share of
      the total and the advice. */
  datatype Bottleneck = Bottleneck(
    step: Option<int>, service: Option<string>, durationMs: int, percentage: Ratio, suggestion: string)

  /** A step with a duration whose share reaches 30% of the total. */
  function IsBottleneck(total: int): TraceStep -> bool
  {
    (s: TraceStep) => s.durationMs.Some? && AtLeast(Percentage(s.durationMs.value, total), 30.0)
  }

  function ToBottleneck(total: int): TraceStep -> Bottleneck
  {
    (s: TraceStep) =>
      var d := s.durationMs.GetOr(0);
      var p := Percentage(d, total);
      Bottleneck(s.sequence, s.service, d, p, Suggestion(s.service, s.durationMs, p))
  }

  /** The bottlenecks in step order, before sorting. */
  function Candidates(steps: seq<TraceStep>, total: int): seq<Bottleneck>
  {
    Map(Filter(steps, IsBottleneck(total)), ToBottleneck(total))
  }

  /** `Comparator.comparing(Bottleneck::getPercentage).reversed()` as "may
      come first". */
  function LargerShare(a: Bottleneck, b: Bottleneck): bool
  {
    CompareAtLeast(a.percentage, b.percentage)
  }

  lemma LargerShareIsPreorder()
    ensures Sorting.TotalPreorder(LargerShare)
  {
  }

  /** `detectBottlenecks`: the bottlenecks, largest share first, ties in step
      order. */
  function DetectBottlenecks(steps: seq<TraceStep>, total: int): (bs: seq<Bottleneck>)
    ensures multiset(bs) == multiset(Candidates(steps, total))
    ensures forall i, j :: 0 <= i < j < |bs| ==> CompareAtLeast(bs[i].percentage, bs[j].percentage)
  {
    LargerShareIsPreorder();
    var bs := Sorting.SortBy(Candidates(steps, total), LargerShare);
    assert forall i, j :: 0 <= i < j < |bs| ==> LargerShare(bs[i], bs[j]);
    bs
  }

  /** The bottlenecks are exactly the records of the steps that reach 30%. */
  lemma BottleneckMembers(steps: seq<TraceStep>, total: int, b: Bottleneck)
    ensures b in DetectBottlenecks(steps, total)
        <==> exists i :: 0 <= i < |steps| && IsBottleneck(total)(steps[i]) && b == ToBottleneck(total)(steps[i])
  {
    assert b in DetectBottlenecks(steps, total) <==> b in multiset(Candidates(steps, total));
    if b in Candidates(steps, total) {
      CandidateHasStep(steps, total, b);
    }
    if i :| 0 <= i < |steps| && IsBottleneck(total)(steps[i]) && b == ToBottleneck(total)(steps[i]) {
      StepIsCandidate(steps, total, i);
    }
  }

  lemma CandidateHasStep(steps: seq<TraceStep>, total: int, b: Bottleneck)
    requires b in Candidates(steps, total)
    ensures exists i :: 0 <= i < |steps| && IsBottleneck(total)(steps[i]) && b == ToBottleneck(total)(steps[i])
  {
    var picked := Filter(steps, IsBottleneck(total));
    var k :| 0 <= k < |picked| && b == ToBottleneck(total)(picked[k]);
    assert picked[k] in picked;
    var i :| 0 <= i < |steps| && steps[i] == picked[k];
  }

  lemma StepIsCandidate(steps: seq<TraceStep>, total: int, i: int)
    requires 0 <= i < |steps| && IsBottleneck(total)(steps[i])
    ensures ToBottleneck(total)(steps[i]) in Candidates(steps, total)
  {
    var picked := Filter(steps, IsBottleneck(total));
    assert steps[i] in steps;
    assert steps[i] in picked;
    var k :| 0 <= k < |picked| && picked[k] == steps[i];
    assert Candidates(steps, total)[k] == ToBottleneck(total)(steps[i]);
  }

  /** With a positive total every share is a real of at least 30%, listed
      from the largest down. */
  lemma BottlenecksDescending(steps: seq<TraceStep>, total: int, i: int, j: int)
    requires total > 0
    requires 0 <= i < j < |DetectBottlenecks(steps, total)|
    ensures DetectBottlenecks(steps, total)[i].percentage.Finite?
    ensures DetectBottlenecks(steps, total)[j].percentage.Finite?
    ensures DetectBottlenecks(steps, total)[i].percentage.value >= DetectBottlenecks(steps, total)[j].percentage.value
    ensures DetectBottlenecks(steps, total)[j].percentage.value >= 30.0
  {
    var bs := DetectBottlenecks(steps, total);
    BottleneckMembers(steps, total, bs[i]);
    BottleneckMembers(steps, total, bs[j]);
    assert CompareAtLeast(bs[i].percentage, bs[j].percentage);
  }

  /** With a zero total (all steps at the same instant) the share is an
      infinity or NaN: every step with a positive duration is a bottleneck,
      marked major unless an earlier rule applies, and no other step is. */
  lemma ZeroTotal(s: TraceStep)
    requires s.durationMs.Some?
    ensures IsBottleneck(0)(s) <==> s.durationMs.value > 0
    ensures IsBottleneck(0)(s) ==> ToBottleneck(0)(s).percentage == PosInf
  {
  }

  // ---------------------------------------------------------------------
  // The trace
  // ---------------------------------------------------------------------

  /** `TraceDTO`. */
  datatype Trace = Trace(
    transactionId: Option<string>,
    messageId: Option<string>,
    endToEndId: Option<string>,
    startTime: int,
    endTime: int,
    totalDurationMs: int,
    status: string,
    steps: seq<TraceStep>,
    bottlenecks: seq<Bottleneck>)

  /** The parsed steps of the column maps, by time and numbered. */
  function OrderedSteps(data: seq<map<string, string>>, now: int, parseIso: string -> Option<int>)
    : (steps: seq<TraceStep>)
    ensures |steps| == |data|
    ensures forall i :: 0 <= i < |steps| ==> steps[i].sequence == Some(i + 1)
    ensures forall i, j :: 0 <= i < j < |steps| ==> steps[i].timestamp <= steps[j].timestamp
  {
    Numbered(SortSteps(Map(data, StepParser(now, parseIso))))
  }

  /** Without their numbers the ordered steps are the parsed maps,
      rearranged. */
  lemma OrderedStepsPermute(data: seq<map<string, string>>, now: int, parseIso: string -> Option<int>)
    ensures multiset(Map(OrderedSteps(data, now, parseIso), Unnumbered)) == multiset(Map(data, StepParser(now, parseIso)))
  {
    var parsed := Map(data, StepParser(now, parseIso));
    var sorted := SortSteps(parsed);
    assert forall i :: 0 <= i < |sorted| ==> sorted[i] in multiset(parsed);
    NumberedUnnumbered(sorted);
  }

  /** In steps ordered by time, the first and last bound all the others. */
  lemma SpanBounds(steps: seq<TraceStep>)
    requires |steps| > 0
    requires forall i, j :: 0 <= i < j < |steps| ==> steps[i].timestamp <= steps[j].timestamp
    ensures forall i :: 0 <= i < |steps| ==> steps[0].timestamp <= steps[i].timestamp <= steps[|steps| - 1].timestamp
  {
    var n := |steps|;
    forall i | 0 <= i < n
      ensures steps[0].timestamp <= steps[i].timestamp <= steps[n - 1].timestamp
    {
      if 0 < i {
        assert steps[0].timestamp <= steps[i].timestamp;
      }
      if i < n - 1 {
        assert steps[i].timestamp <= steps[n - 1].timestamp;
      }
    }
  }

  /** "failure" when some step has an error status, else "success". */
  function Outcome(steps: seq<TraceStep>): (status: string)
    ensures status == "failure" || status == "success"
  {
    if exists i :: 0 <= i < |steps| && Failed(steps[i]) then "failure" else "success"
  }

  /** The ordered steps hold an error status exactly when the column maps
      parse to one. */
  lemma OrderedStepsFail(data: seq<map<string, string>>, now: int, parseIso: string -> Option<int>)
    ensures var steps := OrderedSteps(data, now, parseIso);
      (exists i :: 0 <= i < |steps| && Failed(steps[i]))
        <==> exists k :: 0 <= k < |data| && Failed(MapToTraceStep(data[k], now, parseIso))
  {
    var parsed := Map(data, StepParser(now, parseIso));
    OrderedStepsPermute(data, now, parseIso);
    FailedPermuted(OrderedSteps(data, now, parseIso), parsed);
  }

  /** Rearranging and renumbering steps does not change whether one failed. */
  lemma FailedPermuted(steps: seq<TraceStep>, parsed: seq<TraceStep>)
    requires multiset(Map(steps, Unnumbered)) == multiset(parsed)
    ensures (exists i :: 0 <= i < |steps| && Failed(steps[i])) <==> exists k :: 0 <= k < |parsed| && Failed(parsed[k])
  {
    var bare := Map(steps, Unnumbered);
    if i :| 0 <= i < |steps| && Failed(steps[i]) {
      assert bare[i] in multiset(parsed);
      var k :| 0 <= k < |parsed| && parsed[k] == bare[i];
    }
    if k :| 0 <= k < |parsed| && Failed(parsed[k]) {
      assert parsed[k] in multiset(bare);
      var i :| 0 <= i < |steps| && bare[i] == parsed[k];
      assert Failed(steps[i]);
    }
  }

  /** The trace of steps already ordered and numbered: the first and last
      times and the `long` difference between them, the outcome, the
      end-to-end id as transaction id when there is one, and the bottlenecks
      of the steps against the total. */
  function Assemble(messageId: Option<string>, endToEndId: Option<string>, steps: seq<TraceStep>): (t: Trace)
    requires |steps| > 0
    ensures t.steps == steps
  {
    var start := steps[0].timestamp;
    var end := steps[|steps| - 1].timestamp;
    var total := JavaInt.Wrap64(end - start);
    Trace(if endToEndId.Some? then endToEndId else messageId, messageId, endToEndId,
          start, end, total, Outcome(steps), steps, DetectBottlenecks(steps, total))
  }

  /** In a trace of steps ordered by time every step lies between the start
      and the end, and the total is their difference, never negative, unless
      that overflows a `long`. */
  lemma AssembleSpan(messageId: Option<string>, endToEndId: Option<string>, steps: seq<TraceStep>)
    requires |steps| > 0
    requires forall i, j :: 0 <= i < j < |steps| ==> steps[i].timestamp <= steps[j].timestamp
    ensures var t := Assemble(messageId, endToEndId, steps);
      t.startTime == steps[0].timestamp && t.endTime == steps[|steps| - 1].timestamp
    ensures var t := Assemble(messageId, endToEndId, steps);
      forall i :: 0 <= i < |steps| ==> t.startTime <= steps[i].timestamp <= t.endTime
    ensures var t := Assemble(messageId, endToEndId, steps);
      JavaInt.IsLong(t.endTime - t.startTime) ==> t.totalDurationMs == t.endTime - t.startTime >= 0
  {
    var t := Assemble(messageId, endToEndId, steps);
    var d := steps[|steps| - 1].timestamp - steps[0].timestamp;
    assert t.startTime == steps[0].timestamp && t.endTime == steps[|steps| - 1].timestamp;
    assert t.totalDurationMs == JavaInt.Wrap64(d);
    SpanBounds(steps);
  }

  /** `buildTrace`: the parsed steps ordered and numbered, then assembled. */
  function BuildTrace(messageId: Option<string>, endToEndId: Option<string>,
                      data: seq<map<string, string>>, now: int, parseIso: string -> Option<int>): (t: Trace)
    requires |data| > 0
    ensures t.steps == OrderedSteps(data, now, parseIso)
  {
    Assemble(messageId, endToEndId, OrderedSteps(data, now, parseIso))
  }

  /** The trace starts at its first step and ends at its last, every step
      in between; its total is the difference, never negative, unless that
      overflows a `long`. */
  lemma BuildTraceSpan(messageId: Option<string>, endToEndId: Option<string>,
                       data: seq<map<string, string>>, now: int, parseIso: string -> Option<int>)
    requires |data| > 0
    ensures var t := BuildTrace(messageId, endToEndId, data, now, parseIso);
      t.startTime == t.steps[0].timestamp && t.endTime == t.steps[|t.steps| - 1].timestamp
    ensures var t := BuildTrace(messageId, endToEndId, data, now, parseIso);
      forall i :: 0 <= i < |t.steps| ==> t.startTime <= t.steps[i].timestamp <= t.endTime
    ensures var t := BuildTrace(messageId, endToEndId, data, now, parseIso);
      JavaInt.IsLong(t.endTime - t.startTime) ==> t.totalDurationMs == t.endTime - t.startTime >= 0
  {
    var steps := OrderedSteps(data, now, parseIso);
    assert BuildTrace(messageId, endToEndId, data, now, parseIso) == Assemble(messageId, endToEndId, steps);
    AssembleSpan(messageId, endToEndId, steps);
  }

  /** The trace fails exactly when one of the given steps has an error
      status. */
  lemma BuildTraceStatus(messageId: Option<string>, endToEndId: Option<string>,
                         data: seq<map<string, string>>, now: int, parseIso: string -> Option<int>)
    requires |data| > 0
    ensures BuildTrace(messageId, endToEndId, data, now, parseIso).status == "failure"
        <==> exists k :: 0 <= k < |data| && Failed(MapToTraceStep(data[k], now, parseIso))
  {
    OrderedStepsFail(data, now, parseIso);
  }

  /** Each bottleneck names a step of the trace by its number and repeats
      its service and duration. */
  lemma BottleneckNamesItsStep(messageId: Option<string>, endToEndId: Option<string>,
                               data: seq<map<string, string>>, now: int, parseIso: string -> Option<int>,
                               b: Bottleneck)
    requires |data| > 0
    requires b in BuildTrace(messageId, endToEndId, data, now, parseIso).bottlenecks
    ensures var t := BuildTrace(messageId, endToEndId, data, now, parseIso);
      exists i :: 0 <= i < |t.steps| && b.step == Some(i + 1)
        && t.steps[i].durationMs == Some(b.durationMs) && t.steps[i].service == b.service
  {
    var t := BuildTrace(messageId, endToEndId, data, now, parseIso);
    BottleneckMembers(t.steps, t.totalDurationMs, b);
    var i :| 0 <= i < |t.steps| && IsBottleneck(t.totalDurationMs)(t.steps[i])
      && b == ToBottleneck(t.totalDurationMs)(t.steps[i]);
  }

  /** A step of the trace is listed as a bottleneck exactly when it has a
      duration reaching 30% of the total; with a positive total, exactly when
      ten times its duration is at least three times the total. */
  lemma StepIsBottleneck(messageId: Option<string>, endToEndId: Option<string>,
                         data: seq<map<string, string>>, now: int, parseIso: string -> Option<int>, i: int)
    requires 0 <= i < |data|
    ensures var t := BuildTrace(messageId, endToEndId, data, now, parseIso);
      var s := t.steps[i];
      (ToBottleneck(t.totalDurationMs)(s) in t.bottlenecks)
        <==> s.durationMs.Some? && AtLeast(Percentage(s.durationMs.value, t.totalDurationMs), 30.0)
    ensures var t := BuildTrace(messageId, endToEndId, data, now, parseIso);
      var s := t.steps[i];
      t.totalDurationMs > 0 ==>
        ((ToBottleneck(t.totalDurationMs)(s) in t.bottlenecks)
          <==> s.durationMs.Some? && 10 * s.durationMs.value >= 3 * t.totalDurationMs)
  {
    var t := BuildTrace(messageId, endToEndId, data, now, parseIso);
    var total := t.totalDurationMs;
    var s := t.steps[i];
    var b := ToBottleneck(total)(s);
    BottleneckMembers(t.steps, total, b);
    if b in t.bottlenecks {
      var k :| 0 <= k < |t.steps| && IsBottleneck(total)(t.steps[k]) && b == ToBottleneck(total)(t.steps[k]);
      assert t.steps[k].sequence == Some(k + 1);
      assert k == i;
    }
    if total > 0 && s.durationMs.Some? {
      ThirtyPercent(s.durationMs.value, total);
    }
  }

  /** `traceByMessageId` on the steps the store returns: no trace without
      steps, otherwise the trace under the given message id. */
  function TraceByMessageId(messageId: string, data: seq<map<string, string>>, now: int,
                            parseIso: string -> Option<int>): (r: Option<Trace>)
    ensures r.None? <==> |data| == 0
    ensures r.Some? ==> r.value.transactionId == Some(messageId) && r.value.endToEndId.None?
    ensures r.Some? ==> |r.value.steps| == |data|
  {
    if |data| == 0 then None else Some(BuildTrace(Some(messageId), None, data, now, parseIso))
  }

  /** `traceByEndToEndId` on the steps the store returns: no trace without
      steps, otherwise the trace under the end-to-end id, with the message id
      of the first step read. */
  function TraceByEndToEndId(endToEndId: string, data: seq<map<string, string>>, now: int,
                             parseIso: string -> Option<int>): (r: Option<Trace>)
    ensures r.None? <==> |data| == 0
    ensures r.Some? ==> r.value.transactionId == Some(endToEndId) && r.value.endToEndId == Some(endToEndId)
    ensures r.Some? ==> r.value.messageId == Get(data[0], "messageId")
  {
    if |data| == 0 then None
    else Some(BuildTrace(Get(data[0], "messageId"), Some(endToEndId), data, now, parseIso))
  }
}
