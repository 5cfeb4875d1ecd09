/** The post-read loops of `BigtableService`: the time-range log scan with
    its connector/type filter and early stop, the error-log scan, the
    metric-window filter and the processing trace lookup. The rows a read
    returns are an input; the store's own row limit is not modelled. */
module BigtableScans {
  import opened Wrappers
  import opened Seqs
  import opened BigtableRows
  import Text
  import Decimal
  import Sorting
  import JavaInt

  /** The rows a range query [Key13(startMs), Key13(endMs)) selects, in key
      order. */
  function ScanRange(store: seq<Row>, startMs: int, endMs: int): (rows: seq<Row>)
    ensures forall r :: r in rows ==> r in store
  {
    Filter(store, (r: Row) => Decimal.LexLe(Decimal.Key13(startMs), r.key)
                              && Decimal.LexLess(r.key, Decimal.Key13(endMs)))
  }

  /** The results of `decode` over the rows read before the first row it
      rejects: Java's loop stops at that row's exception and returns what it
      has collected. */
  function Decoded<R, E>(rows: seq<R>, decode: R -> Option<E>): (es: seq<E>)
    ensures |es| <= |rows|
    ensures forall i :: 0 <= i < |es| ==> decode(rows[i]) == Some(es[i])
    ensures |es| < |rows| ==> decode(rows[|es|]).None?
  {
    if |rows| == 0 then []
    else match decode(rows[0])
      case None => []
      case Some(e) => [e] + Decoded(rows[1..], decode)
  }

  /** The number of matches after which a loop stops: it checks the size
      only after adding, so a limit below 1 still lets one entry through. */
  function Cap(limit: int): (c: nat)
    ensures c >= 1 && c >= limit
    ensures limit >= 1 ==> c == limit
  {
    if limit < 1 then 1 else limit
  }

  /** The shared loop: decode each row, keep the matches, stop once `limit`
      entries are kept or a row fails to decode. */
  method CollectMatches<R, E>(rows: seq<R>, decode: R -> Option<E>, keep: E -> bool, limit: int)
    returns (found: seq<E>)
    ensures found == Take(Filter(Decoded(rows, decode), keep), Cap(limit))
  {
    ghost var d := Decoded(rows, decode);
    var cap := Cap(limit);
    found := [];
    var i := 0;
    while i < |rows|
      invariant 0 <= i <= |d|
      invariant found == Filter(d[..i], keep)
      invariant |found| < cap
    {
      var e := decode(rows[i]);
      DecodedAt(rows, decode, i);
      if e.None? {
        break;
      }
      FilterStep(d, i, keep);
      i := i + 1;
      if keep(e.value) {
        found := found + [e.value];
        if |found| >= cap {
          break;
        }
      }
    }
    StopEarly(d, i, keep, cap);
  }

  /** Row i, within the scan, fails to decode exactly where the decoded
      prefix ends, and otherwise decodes to entry i. */
  lemma DecodedAt<R, E>(rows: seq<R>, decode: R -> Option<E>, i: int)
    requires 0 <= i <= |Decoded(rows, decode)| && i < |rows|
    ensures decode(rows[i]).None? <==> i == |Decoded(rows, decode)|
    ensures decode(rows[i]).Some? ==> Decoded(rows, decode)[i] == decode(rows[i]).value
  {
  }

  lemma FilterStep<E>(d: seq<E>, i: int, keep: E -> bool)
    requires 0 <= i < |d|
    ensures Filter(d[..i + 1], keep) == Filter(d[..i], keep) + (if keep(d[i]) then [d[i]] else [])
  {
    assert d[..i + 1] == d[..i] + [d[i]];
    FilterAppend(d[..i], [d[i]], keep);
  }

  /** Stopping at the end of the decoded rows, or once `cap` entries are
      kept, leaves the first `cap` matches. */
  lemma StopEarly<E>(d: seq<E>, i: int, keep: E -> bool, cap: nat)
    requires 0 <= i <= |d| && |Filter(d[..i], keep)| <= cap
    requires i == |d| || |Filter(d[..i], keep)| == cap
    ensures Filter(d[..i], keep) == Take(Filter(d, keep), cap)
  {
    assert d == d[..i] + d[i..];
    FilterAppend(d[..i], d[i..], keep);
    if i < |d| {
      var a := Filter(d[..i], keep);
      var t := Take(Filter(d, keep), cap);
      assert t == (a + Filter(d[i..], keep))[..cap];
    }
  }

  /** What the loop's result means: kept entries in scan order, all
      matching, at most `cap` of them, and all matches when fewer. */
  lemma CollectedMeaning<E>(d: seq<E>, keep: E -> bool, cap: nat, found: seq<E>)
    requires found == Take(Filter(d, keep), cap)
    ensures IsSubsequence(found, d)
    ensures forall e :: e in found ==> keep(e)
    ensures |found| <= cap
    ensures |found| < cap ==> found == Filter(d, keep)
  {
    FilterIsSubsequence(d, keep);
    TakeOfSubsequence(Filter(d, keep), d, cap);
  }

  /** `rowToLogEntry` on the logs family, as a function of the row. */
  function LogDecoder(family: string): Row -> Option<LogEntry>
  {
    (r: Row) => RowToLogEntry(r, family)
  }

  /** A connector or type argument of `null` or "all" accepts everything;
      any other value demands an equal field. */
  predicate FieldAccepts(wanted: Option<string>, actual: Option<string>)
  {
    wanted.None? || wanted.value == "all" || actual == wanted
  }

  function SearchFilter(connector: Option<string>, logType: Option<string>): LogEntry -> bool
  {
    (e: LogEntry) => FieldAccepts(connector, e.connector) && FieldAccepts(logType, e.logType)
  }

  /** `searchLogs`: the logs in [startMs, endMs) of the wanted connector and
      type, in key order, stopping after `limit` matches. */
  method SearchLogs(store: seq<Row>, family: string, connector: Option<string>,
                    logType: Option<string>, startMs: int, endMs: int, limit: int)
    returns (logs: seq<LogEntry>)
    ensures logs == Take(Filter(Decoded(ScanRange(store, startMs, endMs), LogDecoder(family)),
                                SearchFilter(connector, logType)), Cap(limit))
    ensures IsSubsequence(logs, Decoded(ScanRange(store, startMs, endMs), LogDecoder(family)))
    ensures forall e :: e in logs ==> FieldAccepts(connector, e.connector)
                                      && FieldAccepts(logType, e.logType)
    ensures |logs| <= Cap(limit)
    ensures |logs| < Cap(limit) ==>
      logs == Filter(Decoded(ScanRange(store, startMs, endMs), LogDecoder(family)), SearchFilter(connector, logType))
  {
    var rows := ScanRange(store, startMs, endMs);
    logs := CollectMatches(rows, LogDecoder(family), SearchFilter(connector, logType), limit);
    CollectedMeaning(Decoded(rows, LogDecoder(family)), SearchFilter(connector, logType), Cap(limit), logs);
  }

  lemma TakeOfSubsequence<T>(s: seq<T>, t: seq<T>, n: nat)
    requires IsSubsequence(s, t)
    ensures IsSubsequence(Take(s, n), t)
  {
    PrefixOfSubsequence(Take(s, n), s, t);
  }

  lemma {:induction false} PrefixOfSubsequence<T>(p: seq<T>, s: seq<T>, t: seq<T>)
    requires p <= s && IsSubsequence(s, t)
    ensures IsSubsequence(p, t)
    decreases |t|
  {
    if |p| > 0 && |t| > 0 {
      if s[0] == t[0] {
        PrefixOfSubsequence(p[1..], s[1..], t[1..]);
      } else {
        PrefixOfSubsequence(p, s, t[1..]);
      }
    }
  }

  /** A key that starts with 13 digits and '#', as every log row key does. */
  predicate TimePrefixedKey(key: string)
  {
    |key| >= 14 && Decimal.AllDigits(key[..13]) && key[13] == '#'
  }

  /** The time of a decoded entry is the number its key starts with. */
  lemma DecodedTime(row: Row, family: string, e: LogEntry)
    requires TimePrefixedKey(row.key)
    requires RowToLogEntry(row, family) == Some(e)
    ensures e.timestamp == Decimal.Value(row.key[..13])
  {
    KeyTime(row.key);
    assert DecodeLogEntry(row.key, RowToMap(row, family)) == Some(e);
  }

  /** The first '#'-segment of a time-prefixed key parses as its time. */
  lemma KeyTime(key: string)
    requires TimePrefixedKey(key)
    ensures |Text.JavaSplit(key, '#')| > 0
    ensures Decimal.ParseLong(Text.JavaSplit(key, '#')[0]) == Some(Decimal.Value(key[..13]) as int)
  {
    var digits := key[..13];
    var rest := key[14..];
    assert key == digits + ['#'] + rest;
    TimeDigitsParse(digits);
    Text.JavaSplitHead(digits, '#', rest);
  }

  /** Thirteen digits hold no '#' and parse as the `long` they denote. */
  lemma TimeDigitsParse(digits: string)
    requires |digits| == 13 && Decimal.AllDigits(digits)
    ensures '#' !in digits
    ensures Decimal.ParseLong(digits) == Some(Decimal.Value(digits) as int)
  {
    assert forall j :: 0 <= j < |digits| ==> Decimal.IsDigit(digits[j]);
    Decimal.ValueBound(digits);
    Decimal.Pow13();
    Decimal.ParseDigits(digits, JavaInt.LONG_MIN, JavaInt.LONG_MAX);
  }

  /** A time-prefixed key inside the scan range carries a time in the window. */
  lemma ScannedKeyTime(row: Row, store: seq<Row>, startMs: int, endMs: int)
    requires TimePrefixedKey(row.key)
    requires row in ScanRange(store, startMs, endMs)
    requires 0 <= startMs < Decimal.KEY_SPAN && 0 <= endMs < Decimal.KEY_SPAN
    ensures startMs <= Decimal.Value(row.key[..13]) < endMs
  {
    var digits := row.key[..13];
    var rest := row.key[14..];
    assert row.key == digits + "#" + rest;
    Decimal.RowKeyInScanRange(digits, startMs, endMs, rest);
  }

  /** With time-prefixed keys and a window inside the 13-digit range, every
      log the range scan decodes lies in [startMs, endMs). */
  lemma ScannedLogsInWindow(store: seq<Row>, family: string, startMs: int, endMs: int)
    requires forall r :: r in store ==> TimePrefixedKey(r.key)
    requires 0 <= startMs < Decimal.KEY_SPAN && 0 <= endMs < Decimal.KEY_SPAN
    ensures forall e :: e in Decoded(ScanRange(store, startMs, endMs), LogDecoder(family)) ==>
      startMs <= e.timestamp < endMs
  {
    var rows := ScanRange(store, startMs, endMs);
    var d := Decoded(rows, LogDecoder(family));
    forall e | e in d
      ensures startMs <= e.timestamp < endMs
    {
      var i :| 0 <= i < |d| && d[i] == e;
      assert LogDecoder(family)(rows[i]) == Some(e);
      DecodedTime(rows[i], family, e);
      ScannedKeyTime(rows[i], store, startMs, endMs);
    }
  }

  /** `getErrorLogs`: entries whose success flag is false (not `null`) and
      whose connector passes the connector rule. */
  function ErrorFilter(connector: Option<string>): LogEntry -> bool
  {
    (e: LogEntry) => e.success == Some(false) && FieldAccepts(connector, e.connector)
  }

  method ErrorLogs(rows: seq<Row>, family: string, connector: Option<string>, limit: int)
    returns (logs: seq<LogEntry>)
    ensures IsSubsequence(logs, Decoded(rows, LogDecoder(family)))
    ensures forall e :: e in logs ==> e.success == Some(false) && FieldAccepts(connector, e.connector)
    ensures |logs| <= Cap(limit)
    ensures |logs| < Cap(limit) ==> logs == Filter(Decoded(rows, LogDecoder(family)), ErrorFilter(connector))
  {
    logs := CollectMatches(rows, LogDecoder(family), ErrorFilter(connector), limit);
    CollectedMeaning(Decoded(rows, LogDecoder(family)), ErrorFilter(connector), Cap(limit), logs);
  }

  /** The row-key filter ".*#metrics#<connector>#.*": keys containing the
      connector between "#metrics#" and '#'. */
  function MentionsConnector(connector: string): Row -> bool
  {
    (r: Row) => Text.Contains(r.key, "#metrics#" + connector + "#")
  }

  const WINDOW_COLUMN: string := "window_timestamp"

  /** A metric map whose window time parses and lies strictly inside
      (startMs, endMs). */
  predicate InWindow(m: map<string, string>, startMs: int, endMs: int)
  {
    WINDOW_COLUMN in m
    && match Decimal.ParseLong(m[WINDOW_COLUMN])
       case None => false
       case Some(t) => startMs < t < endMs
  }

  /** A metric map on which Java's loop does not throw: no window time, or
      one that parses as a `long`. */
  predicate WindowParses(m: map<string, string>)
  {
    WINDOW_COLUMN !in m || Decimal.ParseLong(m[WINDOW_COLUMN]).Some?
  }

  /** The loop of `getConnectorMetrics` over the rows read: maps without a
      window time are skipped, an unparsable one ends the loop, the rest are
      kept when inside the open window. */
  function WindowMaps(rows: seq<Row>, family: string, startMs: int, endMs: int)
    : (ms: seq<map<string, string>>)
    ensures |ms| <= |rows|
    ensures forall m :: m in ms ==> InWindow(m, startMs, endMs)
    ensures forall m :: m in ms ==> exists r :: r in rows && RowToMap(r, family) == m
  {
    if |rows| == 0 then []
    else
      var m := RowToMap(rows[0], family);
      if !WindowParses(m) then []
      else (if InWindow(m, startMs, endMs) then [m] else []) + WindowMaps(rows[1..], family, startMs, endMs)
  }

  function MapOfRow(family: string): Row -> map<string, string>
  {
    (r: Row) => RowToMap(r, family)
  }

  function InWindowOf(startMs: int, endMs: int): map<string, string> -> bool
  {
    (m: map<string, string>) => InWindow(m, startMs, endMs)
  }

  /** When every window time parses, the loop is exactly the window filter
      over all rows' maps. */
  lemma {:induction false} WindowMapsIsFilter(rows: seq<Row>, family: string, startMs: int, endMs: int)
    requires forall i :: 0 <= i < |rows| ==> WindowParses(RowToMap(rows[i], family))
    ensures WindowMaps(rows, family, startMs, endMs)
         == Filter(Map(rows, MapOfRow(family)), InWindowOf(startMs, endMs))
  {
    if |rows| > 0 {
      WindowMapsIsFilter(rows[1..], family, startMs, endMs);
      assert Map(rows, MapOfRow(family))[1..] == Map(rows[1..], MapOfRow(family));
    }
  }

  /** `getConnectorMetrics`: the connector's metric maps whose window lies
      strictly inside (startMs, endMs), in key order; a window time that
      does not parse ends the scan. */
  function ConnectorMetrics(store: seq<Row>, family: string, connector: string,
                            startMs: int, endMs: int): (ms: seq<map<string, string>>)
    ensures forall m :: m in ms ==> InWindow(m, startMs, endMs)
    ensures forall m :: m in ms ==>
      exists r :: r in store && Text.Contains(r.key, "#metrics#" + connector + "#") && RowToMap(r, family) == m
    ensures (forall r :: r in store && Text.Contains(r.key, "#metrics#" + connector + "#")
               ==> WindowParses(RowToMap(r, family)))
      ==> ms == Filter(Map(Filter(store, MentionsConnector(connector)), MapOfRow(family)), InWindowOf(startMs, endMs))
  {
    var rows := Filter(store, MentionsConnector(connector));
    ConnectorWindowFilter(store, family, connector, startMs, endMs);
    WindowMaps(rows, family, startMs, endMs)
  }

  /** When every window time of the connector's rows parses, no row ends
      the scan early. */
  lemma ConnectorWindowFilter(store: seq<Row>, family: string, connector: string, startMs: int, endMs: int)
    ensures var rows := Filter(store, MentionsConnector(connector));
      (forall r :: r in store && Text.Contains(r.key, "#metrics#" + connector + "#")
         ==> WindowParses(RowToMap(r, family)))
      ==> WindowMaps(rows, family, startMs, endMs)
          == Filter(Map(rows, MapOfRow(family)), InWindowOf(startMs, endMs))
  {
    var rows := Filter(store, MentionsConnector(connector));
    if forall r :: r in store && Text.Contains(r.key, "#metrics#" + connector + "#")
         ==> WindowParses(RowToMap(r, family)) {
      assert forall i :: 0 <= i < |rows| ==> rows[i] in store && MentionsConnector(connector)(rows[i]);
      WindowMapsIsFilter(rows, family, startMs, endMs);
    }
  }

  const MESSAGE_PREFIX: string := "message_"

  /** Renames each cell's column to `prefix` + its qualifier. */
  function Prefixed(cells: seq<Cell>, prefix: string): (r: seq<Cell>)
    ensures |r| == |cells|
    ensures forall i :: 0 <= i < |cells| ==>
      r[i] == Cell(cells[i].family, prefix + cells[i].qualifier, cells[i].value)
  {
    Map(cells, (c: Cell) => Cell(c.family, prefix + c.qualifier, c.value))
  }

  /** One processing step as `traceByMessageId` reads it: the log family's
      columns as they are, then the message family's prefixed "message_". */
  function StepMap(row: Row, logFamily: string, messageFamily: string): map<string, string>
  {
    PutCells(PutCells(map[], CellsOf(row, logFamily)), Prefixed(CellsOf(row, messageFamily), MESSAGE_PREFIX))
  }

  /** A message-family column appears under its prefixed name with the value
      of its last cell. */
  lemma MessageColumnPrefixed(row: Row, logFamily: string, messageFamily: string, i: int)
    requires 0 <= i < |CellsOf(row, messageFamily)|
    requires forall j :: i < j < |CellsOf(row, messageFamily)| ==>
      CellsOf(row, messageFamily)[j].qualifier != CellsOf(row, messageFamily)[i].qualifier
    ensures var c := CellsOf(row, messageFamily)[i];
      StepMap(row, logFamily, messageFamily)[MESSAGE_PREFIX + c.qualifier] == c.value
  {
    var cs := CellsOf(row, messageFamily);
    var ps := Prefixed(cs, MESSAGE_PREFIX);
    forall j | i < j < |ps|
      ensures ps[j].qualifier != ps[i].qualifier
    {
      PrefixInjective(MESSAGE_PREFIX, cs[j].qualifier, cs[i].qualifier);
    }
    PutCellsLastWins(PutCells(map[], CellsOf(row, logFamily)), ps, i);
  }

  lemma PrefixInjective(p: string, a: string, b: string)
    ensures p + a == p + b ==> a == b
  {
    assert (p + a)[|p|..] == a;
    assert (p + b)[|p|..] == b;
  }

  function HasMessageId(messageId: string): map<string, string> -> bool
  {
    (m: map<string, string>) => Get(m, "messageId") == Some(messageId)
  }

  /** `Comparator.comparing(m -> m.get("timestamp"))` on maps that all hold a
      timestamp: lexicographic order of the timestamp strings. */
  function TimestampLe(a: map<string, string>, b: map<string, string>): bool
  {
    Decimal.LexLe(Get(a, "timestamp").GetOr(""), Get(b, "timestamp").GetOr(""))
  }

  lemma TimestampLeIsPreorder()
    ensures Sorting.TotalPreorder(TimestampLe)
  {
    forall a, b
      ensures TimestampLe(a, b) || TimestampLe(b, a)
    {
      Decimal.LexLeTotal(Get(a, "timestamp").GetOr(""), Get(b, "timestamp").GetOr(""));
    }
    forall a, b, c | TimestampLe(a, b) && TimestampLe(b, c)
      ensures TimestampLe(a, c)
    {
      Decimal.LexLeTransitive(Get(a, "timestamp").GetOr(""), Get(b, "timestamp").GetOr(""),
                              Get(c, "timestamp").GetOr(""));
    }
  }

  predicate AllTimed(steps: seq<map<string, string>>)
  {
    forall i :: 0 <= i < |steps| ==> "timestamp" in steps[i]
  }

  function StepOf(logFamily: string, messageFamily: string): Row -> map<string, string>
  {
    (r: Row) => StepMap(r, logFamily, messageFamily)
  }

  /** The steps of one message, in scan order. */
  function MessageSteps(rows: seq<Row>, logFamily: string, messageFamily: string,
                        messageId: string): (steps: seq<map<string, string>>)
    ensures forall m :: m in steps ==> Get(m, "messageId") == Some(messageId)
    ensures forall r :: r in rows && Get(StepMap(r, logFamily, messageFamily), "messageId") == Some(messageId)
                        ==> StepMap(r, logFamily, messageFamily) in steps
  {
    var all := Map(rows, StepOf(logFamily, messageFamily));
    assert forall r :: r in rows ==> StepMap(r, logFamily, messageFamily) in all;
    Filter(all, HasMessageId(messageId))
  }

  /** `traceByMessageId`: the steps whose "messageId" column equals the
      argument, sorted by timestamp string. With two or more steps and one
      lacking a timestamp the comparator throws partway through the in-place
      sort, and the steps come back in whatever order the sort had reached;
      the contract then promises only that they are the message's steps. */
  function TraceByMessageId(rows: seq<Row>, logFamily: string, messageFamily: string,
                            messageId: string): (trace: seq<map<string, string>>)
    ensures multiset(trace) == multiset(MessageSteps(rows, logFamily, messageFamily, messageId))
    ensures AllTimed(trace) ==> Sorting.SortedBy(trace, TimestampLe)
  {
    var steps := MessageSteps(rows, logFamily, messageFamily, messageId);
    if |steps| >= 2 && !AllTimed(steps) then steps
    else
      TimestampLeIsPreorder();
      Sorting.SortBy(steps, TimestampLe)
  }
}
