/** Rows of the Bigtable store and their decoding into log entries
    (`BigtableService.rowToMap`, `rowToLogEntry` and the `parse*` helpers). */
module BigtableRows {
  import opened Wrappers
  import opened Seqs
  import Text
  import Decimal
  import JavaInt

  /** One cell: column family, column qualifier and value, all as text. */
  datatype Cell = Cell(family: string, qualifier: string, value: string)

  /** A row as the client library returns it: its key and its cells in
      storage order. */
  datatype Row = Row(key: string, cells: seq<Cell>)

  /** `map.get(k)`: the value, or `None` for `null`. */
  function Get(m: map<string, string>, k: string): (r: Option<string>)
    ensures r.Some? <==> k in m
    ensures r.Some? ==> r.value == m[k]
  {
    if k in m then Some(m[k]) else None
  }

  function InFamily(family: string): Cell -> bool
  {
    (c: Cell) => c.family == family
  }

  /** `row.getCells(family)`: the row's cells of one family, in order. */
  function CellsOf(row: Row, family: string): (cs: seq<Cell>)
    ensures forall c :: c in cs ==> c in row.cells && c.family == family
    ensures forall c :: c in row.cells && c.family == family ==> c in cs
  {
    Filter(row.cells, InFamily(family))
  }

  /** `map.put(qualifier, value)` for each cell in turn. */
  function PutCells(m: map<string, string>, cells: seq<Cell>): (r: map<string, string>)
    ensures forall k :: k in m ==> k in r
    ensures forall i :: 0 <= i < |cells| ==> cells[i].qualifier in r
    ensures forall k :: k in r ==> k in m || exists i :: 0 <= i < |cells| && cells[i].qualifier == k
    decreases |cells|
  {
    if |cells| == 0 then m
    else
      var last := cells[|cells| - 1];
      PutCells(m, cells[..|cells| - 1])[last.qualifier := last.value]
  }

  /** The last cell written for a column decides its value. */
  lemma {:induction false} PutCellsLastWins(m: map<string, string>, cells: seq<Cell>, i: int)
    requires 0 <= i < |cells|
    requires forall j :: i < j < |cells| ==> cells[j].qualifier != cells[i].qualifier
    ensures PutCells(m, cells)[cells[i].qualifier] == cells[i].value
    decreases |cells|
  {
    if i < |cells| - 1 {
      PutCellsLastWins(m, cells[..|cells| - 1], i);
    }
  }

  /** A column no cell writes keeps its initial state. */
  lemma {:induction false} PutCellsUntouched(m: map<string, string>, cells: seq<Cell>, k: string)
    requires forall j :: 0 <= j < |cells| ==> cells[j].qualifier != k
    ensures Get(PutCells(m, cells), k) == Get(m, k)
    decreases |cells|
  {
    if |cells| > 0 {
      PutCellsUntouched(m, cells[..|cells| - 1], k);
    }
  }

  const ROW_KEY_COLUMN: string := "row_key"

  /** `rowToMap`: the row key under "row_key", then every cell of the family,
      later cells overwriting earlier ones with the same qualifier. */
  function RowToMap(row: Row, family: string): (m: map<string, string>)
    ensures ROW_KEY_COLUMN in m
    ensures forall c :: c in row.cells && c.family == family ==> c.qualifier in m
  {
    PutCells(map[ROW_KEY_COLUMN := row.key], CellsOf(row, family))
  }

  /** Without a cell named "row_key" the map holds the row key there. */
  lemma RowToMapKeepsKey(row: Row, family: string)
    requires forall c :: c in row.cells ==> c.qualifier != ROW_KEY_COLUMN
    ensures RowToMap(row, family)[ROW_KEY_COLUMN] == row.key
  {
    var cs := CellsOf(row, family);
    assert forall j :: 0 <= j < |cs| ==> cs[j] in row.cells;
    PutCellsUntouched(map[ROW_KEY_COLUMN := row.key], cs, ROW_KEY_COLUMN);
  }

  /** `parseInteger`: `null` for a missing or empty value and for text
      `Integer.parseInt` rejects. */
  function ParseInteger(v: Option<string>): (r: Option<int>)
    ensures r.Some? ==> JavaInt.IsInt(r.value)
    ensures v.None? || v == Some("") ==> r.None?
    ensures v.Some? && v.value != "" ==> r == Decimal.ParseInt(v.value)
  {
    if v.None? || v.value == "" then None else Decimal.ParseInt(v.value)
  }

  /** Every `int` written in decimal reads back as itself. */
  lemma ParseIntegerRoundTrip(n: int)
    requires JavaInt.IsInt(n)
    ensures ParseInteger(Some(Decimal.IntToDecimal(n))) == Some(n)
  {
    Decimal.ParseRoundTrip(n, JavaInt.INT_MIN, JavaInt.INT_MAX);
  }

  /** `parseDouble`, for the plain decimal literals the model reads. */
  function ParseDouble(v: Option<string>): (r: Option<real>)
    ensures v.None? || v == Some("") ==> r.None?
    ensures v.Some? && v.value != "" ==> r == Decimal.ParseDecimal(v.value)
  {
    if v.None? || v.value == "" then None else Decimal.ParseDecimal(v.value)
  }

  /** An integer numeral, or one with a fraction, reads as its exact value. */
  lemma ParseDoubleValues(n: int, w: string, f: string)
    requires |w| > 0 && Decimal.AllDigits(w) && Decimal.AllDigits(f)
    ensures ParseDouble(Some(Decimal.IntToDecimal(n))) == Some(n as real)
    ensures ParseDouble(Some(w + "." + f)) == Some(Decimal.FixedValue(w, f))
  {
    Decimal.ParseDecimalOfInteger(n);
    Decimal.ParseDecimalFraction(w, f);
  }

  /** `parseBoolean`: `null` for a missing or empty value, otherwise
      `Boolean.parseBoolean`, true exactly for "true" in any letter case. */
  function ParseBoolean(v: Option<string>): (r: Option<bool>)
    ensures r.Some? <==> v.Some? && v.value != ""
    ensures r == Some(true) <==> v.Some? && Text.EqualsIgnoreCase(v.value, "true")
  {
    if v.None? || v.value == "" then None else Some(Text.EqualsIgnoreCase(v.value, "true"))
  }

  /** A log entry; every field but the id and the time may be `null`. */
  datatype LogEntry = LogEntry(
    id: string,
    timestamp: int,
    logType: Option<string>,
    connector: Option<string>,
    httpMethod: Option<string>,
    path: Option<string>,
    statusCode: Option<int>,
    success: Option<bool>,
    responseTimeMs: Option<real>,
    clientIp: Option<string>,
    timeout: Option<bool>,
    serviceStatus: Option<string>,
    error: Option<string>,
    messageId: Option<string>,
    endToEndId: Option<string>)

  /** Reads a log entry from a row key "timestamp#type#connector#uuid" and
      the row's columns: the key's second and third segments win over the
      "type" and "connector" columns when present. `None` is the exception
      Java throws when the key has no first segment or it is not a `long`. */
  function DecodeLogEntry(key: string, data: map<string, string>): (r: Option<LogEntry>)
    ensures r.Some? ==> r.value.id == key
    ensures r.Some? <==> |Text.JavaSplit(key, '#')| > 0
                         && Decimal.ParseLong(Text.JavaSplit(key, '#')[0]).Some?
    ensures r.Some? ==> Decimal.ParseLong(Text.JavaSplit(key, '#')[0]) == Some(r.value.timestamp)
  {
    var parts := Text.JavaSplit(key, '#');
    if |parts| == 0 then None
    else match Decimal.ParseLong(parts[0])
      case None => None
      case Some(ts) =>
        Some(LogEntry(
          id := key,
          timestamp := ts,
          logType := if |parts| > 1 then Some(parts[1]) else Get(data, "type"),
          connector := if |parts| > 2 then Some(parts[2]) else Get(data, "connector"),
          httpMethod := Get(data, "method"),
          path := Get(data, "path"),
          statusCode := ParseInteger(Get(data, "status_code")),
          success := ParseBoolean(Get(data, "success")),
          responseTimeMs := ParseDouble(Get(data, "response_time_ms")),
          clientIp := Get(data, "client_ip"),
          timeout := ParseBoolean(Get(data, "timeout")),
          serviceStatus := Get(data, "service_status"),
          error := Get(data, "error"),
          messageId := Get(data, "messageId"),
          endToEndId := Get(data, "endToEndId")))
  }

  /** `rowToLogEntry`, reading the columns of the logs family. */
  function RowToLogEntry(row: Row, family: string): (r: Option<LogEntry>)
    ensures r.Some? ==> r.value.id == row.key
  {
    DecodeLogEntry(row.key, RowToMap(row, family))
  }

  /** The key the log writer uses: zero-padded milliseconds, type, connector
      and a unique suffix, separated by '#'. */
  function LogRowKey(ms: int, logType: string, connector: string, suffix: string): string
  {
    Decimal.Key13(ms) + "#" + logType + "#" + connector + "#" + suffix
  }

  /** Decoding a well-formed key recovers its time, type and connector,
      whatever the columns say. */
  lemma LogRowKeyRoundTrip(ms: int, logType: string, connector: string, suffix: string,
                           data: map<string, string>)
    requires 0 <= ms < Decimal.KEY_SPAN
    requires '#' !in logType && '#' !in connector && '#' !in suffix && suffix != ""
    ensures var e := DecodeLogEntry(LogRowKey(ms, logType, connector, suffix), data);
      e.Some? && e.value.timestamp == ms
      && e.value.logType == Some(logType) && e.value.connector == Some(connector)
  {
    var key := LogRowKey(ms, logType, connector, suffix);
    LogRowKeySplit(ms, logType, connector, suffix);
    Decimal.Key13Parses(ms);
    DecodeSegments(key, data);
  }

  /** A key of at least three segments decodes its type and connector from
      the key rather than the columns. */
  lemma DecodeSegments(key: string, data: map<string, string>)
    requires |Text.JavaSplit(key, '#')| > 2
    requires Decimal.ParseLong(Text.JavaSplit(key, '#')[0]).Some?
    ensures var e := DecodeLogEntry(key, data);
      e.Some? && Some(e.value.timestamp) == Decimal.ParseLong(Text.JavaSplit(key, '#')[0])
      && e.value.logType == Some(Text.JavaSplit(key, '#')[1])
      && e.value.connector == Some(Text.JavaSplit(key, '#')[2])
  {
  }

  /** A well-formed key splits back into its four segments. */
  lemma LogRowKeySplit(ms: int, logType: string, connector: string, suffix: string)
    requires 0 <= ms < Decimal.KEY_SPAN
    requires '#' !in logType && '#' !in connector && '#' !in suffix && suffix != ""
    ensures Text.JavaSplit(LogRowKey(ms, logType, connector, suffix), '#')
         == [Decimal.Key13(ms), logType, connector, suffix]
  {
    var k := Decimal.Key13(ms);
    Decimal.Key13Digits(ms);
    assert '#' !in k by {
      assert forall i :: 0 <= i < |k| ==> Decimal.IsDigit(k[i]);
    }
    var parts := [k, logType, connector, suffix];
    JoinFour(k, logType, connector, suffix, '#');
    Text.JavaSplitJoin(parts, '#');
  }

  lemma JoinFour(a: string, b: string, c: string, d: string, sep: char)
    ensures Text.Join([a, b, c, d], sep) == a + [sep] + b + [sep] + c + [sep] + d
  {
    var parts := [a, b, c, d];
    assert Text.Join(parts[3..], sep) == d;
    assert Text.Join(parts[2..], sep) == c + [sep] + d;
    assert Text.Join(parts[1..], sep) == b + [sep] + (c + [sep] + d);
  }
}
