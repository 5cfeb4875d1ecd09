/** `getStatusDistribution` of `AnalyticsService`: status classes "Nxx"
    (the four classes 2xx..5xx always listed), and the five most frequent
    status codes with their descriptions. A missing status code counts as
    code 0. */
module AnalyticsStatus {
  import opened Wrappers
  import opened Seqs
  import opened Grouping
  import opened BigtableRows
  import Sorting
  import Decimal
  import JavaInt

  /** The status code of a log, 0 when absent. */
  function CodeOf(e: LogEntry): int
  {
    e.statusCode.GetOr(0)
  }

  /** "(code / 100)xx" with Java's integer division and `String.valueOf`. */
  function CategoryName(code: int): string
  {
    Decimal.IntToDecimal(JavaInt.TruncDiv(code, 100)) + "xx"
  }

  function CategoryOf(e: LogEntry): string
  {
    CategoryName(CodeOf(e))
  }

  /** Below 1000 the class is the hundreds digit followed by "xx"; a log
      without a code falls in class "0xx". */
  lemma CategoryOfCode(code: int)
    requires 0 <= code < 1000
    ensures CategoryName(code) == [Decimal.DigitChar(code / 100), 'x', 'x']
    ensures 200 <= code < 300 ==> CategoryName(code) == "2xx"
    ensures 300 <= code < 400 ==> CategoryName(code) == "3xx"
    ensures 400 <= code < 500 ==> CategoryName(code) == "4xx"
    ensures 500 <= code < 600 ==> CategoryName(code) == "5xx"
    ensures CategoryName(0) == "0xx"
  {
    assert JavaInt.TruncDiv(code, 100) == code / 100;
    assert JavaInt.TruncDiv(0, 100) == 0;
  }

  /** The classes present before any log is counted. */
  const FIXED_CATEGORIES: seq<string> := ["2xx", "3xx", "4xx", "5xx"]

  /** `StatusCategoryDTO`. */
  datatype CategoryCount = CategoryCount(category: string, count: nat, percentage: real)

  /** `count` as a share of `total`, 0 when there is nothing. */
  function Share(count: nat, total: nat): (r: real)
    ensures total == 0 ==> r == 0.0
    ensures total > 0 ==> r * total as real == count as real * 100.0
  {
    if total > 0 then Percent(count, total) else 0.0
  }

  /** The classes in map order: the four fixed ones, then the others in
      order of first appearance. */
  function CategoryKeys(logs: seq<LogEntry>): (ks: seq<string>)
    ensures FIXED_CATEGORIES <= ks && Distinct(ks)
    ensures forall i :: 0 <= i < |logs| ==> CategoryOf(logs[i]) in ks
  {
    KeysFrom(FIXED_CATEGORIES, logs, CategoryOf)
  }

  /** The per-class counts: every class present, each counting the logs of
      that class. */
  function Categories(logs: seq<LogEntry>): (cs: seq<CategoryCount>)
    ensures |cs| == |CategoryKeys(logs)|
    ensures forall i :: 0 <= i < |cs| ==>
      cs[i].category == CategoryKeys(logs)[i]
      && cs[i].count == Count(logs, KeyIs(CategoryOf, cs[i].category))
      && cs[i].percentage == Share(cs[i].count, |logs|)
  {
    var ks := CategoryKeys(logs);
    var sizes := Sizes(ks, logs, CategoryOf);
    seq(|ks|, i requires 0 <= i < |ks| => CategoryCount(ks[i], sizes[i], Share(sizes[i], |logs|)))
  }

  function CountOf(c: CategoryCount): nat
  {
    c.count
  }

  /** The four fixed classes are always listed, and the class counts add
      up to the number of logs. */
  lemma CategoriesPartition(logs: seq<LogEntry>)
    ensures forall k :: k in FIXED_CATEGORIES ==> exists c :: c in Categories(logs) && c.category == k
    ensures SumNat(Map(Categories(logs), CountOf)) == |logs|
  {
    var ks := CategoryKeys(logs);
    var cs := Categories(logs);
    forall k | k in FIXED_CATEGORIES
      ensures exists c :: c in cs && c.category == k
    {
      var i :| 0 <= i < 4 && FIXED_CATEGORIES[i] == k;
      assert cs[i].category == k;
    }
    assert Map(cs, CountOf) == Sizes(ks, logs, CategoryOf);
    SizesOfCoveringKeys(ks, logs, CategoryOf);
  }

  // ---------------------------------------------------------------------
  // Top codes
  // ---------------------------------------------------------------------

  /** The descriptions `getStatusDescription` knows. */
  const DESCRIPTIONS: map<int, string> := map[
    200 := "OK", 201 := "Created", 204 := "No Content",
    400 := "Bad Request", 401 := "Unauthorized", 403 := "Forbidden", 404 := "Not Found",
    500 := "Internal Server Error", 502 := "Bad Gateway", 503 := "Service Unavailable"]

  /** `getStatusDescription`: "Unknown" exactly for the codes not listed. */
  function StatusDescription(code: int): (d: string)
    ensures d == "Unknown" <==> code !in DESCRIPTIONS
    ensures code in DESCRIPTIONS ==> d == DESCRIPTIONS[code]
  {
    if code in DESCRIPTIONS then DESCRIPTIONS[code] else "Unknown"
  }

  /** `StatusCodeDetailDTO`. */
  datatype CodeCount = CodeCount(statusCode: int, count: nat, percentage: real, description: string)

  function CodeCountKey(c: CodeCount): real
  {
    c.count as real
  }

  /** One entry per distinct code, in order of first appearance. */
  function CodeCounts(logs: seq<LogEntry>): (cs: seq<CodeCount>)
    ensures |cs| == |Keys(logs, CodeOf)|
    ensures forall i :: 0 <= i < |cs| ==>
      cs[i].statusCode == Keys(logs, CodeOf)[i]
      && cs[i].count == Count(logs, KeyIs(CodeOf, cs[i].statusCode)) && cs[i].count > 0
      && cs[i].percentage == Share(cs[i].count, |logs|)
      && cs[i].description == StatusDescription(cs[i].statusCode)
  {
    var ks := Keys(logs, CodeOf);
    seq(|ks|, i requires 0 <= i < |ks| =>
      var n := |Members(logs, CodeOf, ks[i])|;
      CodeCount(ks[i], n, Share(n, |logs|), StatusDescription(ks[i])))
  }

  /** The code counts by decreasing count, ties in first-appearance order. */
  function ByCount(logs: seq<LogEntry>): (sorted: seq<CodeCount>)
    ensures multiset(sorted) == multiset(CodeCounts(logs))
    ensures Sorting.SortedBy(sorted, Sorting.Descending(CodeCountKey))
  {
    Sorting.KeyOrdersArePreorders(CodeCountKey);
    Sorting.SortBy(CodeCounts(logs), Sorting.Descending(CodeCountKey))
  }

  /** `topCodes`: the codes by decreasing count, at most five; each entry
      counts the logs with its code. */
  function TopCodes(logs: seq<LogEntry>): (top: seq<CodeCount>)
    ensures |top| == if |Keys(logs, CodeOf)| < 5 then |Keys(logs, CodeOf)| else 5
    ensures multiset(top) <= multiset(CodeCounts(logs))
    ensures Sorting.SortedBy(top, Sorting.Descending(CodeCountKey))
    ensures forall c :: c in top ==> c.count == Count(logs, KeyIs(CodeOf, c.statusCode)) && c.count > 0
    ensures forall c :: c in top ==> c.percentage == Share(c.count, |logs|)
    ensures forall c :: c in top ==> c.description == StatusDescription(c.statusCode)
  {
    TopFromCounts(logs);
    TakeSubMultiset(ByCount(logs), 5);
    Take(ByCount(logs), 5)
  }

  /** The first five of the sorted counts are code counts. */
  lemma TopFromCounts(logs: seq<LogEntry>)
    ensures |ByCount(logs)| == |CodeCounts(logs)|
    ensures forall c :: c in Take(ByCount(logs), 5) ==>
      c.count == Count(logs, KeyIs(CodeOf, c.statusCode)) && c.count > 0
      && c.percentage == Share(c.count, |logs|)
      && c.description == StatusDescription(c.statusCode)
  {
    var sorted := ByCount(logs);
    var cs := CodeCounts(logs);
    assert |multiset(sorted)| == |multiset(cs)|;
    forall c | c in Take(sorted, 5)
      ensures c.count == Count(logs, KeyIs(CodeOf, c.statusCode)) && c.count > 0
      ensures c.percentage == Share(c.count, |logs|)
      ensures c.description == StatusDescription(c.statusCode)
    {
      assert c in multiset(sorted);
      assert c in cs;
      var i :| 0 <= i < |cs| && cs[i] == c;
    }
  }

  /** No code left out of the top list is more frequent than a listed one. */
  lemma TopCodesAreMostFrequent(logs: seq<LogEntry>, c: CodeCount)
    requires c in CodeCounts(logs) && c !in TopCodes(logs)
    ensures forall t :: t in TopCodes(logs) ==> c.count <= t.count
  {
    var sorted := ByCount(logs);
    assert c in multiset(sorted);
    Sorting.TakeDominates(sorted, Sorting.Descending(CodeCountKey), 5, c);
    forall t | t in TopCodes(logs)
      ensures c.count <= t.count
    {
      assert CodeCountKey(t) >= CodeCountKey(c);
    }
  }

  /** `StatusDistributionDTO`. */
  datatype Distribution = Distribution(categories: seq<CategoryCount>, topCodes: seq<CodeCount>)

  /** `getStatusDistribution`: one entry, keyed by the connector or "all". */
  function StatusDistribution(connector: Option<string>, logs: seq<LogEntry>): (r: map<string, Distribution>)
    ensures r.Keys == {connector.GetOr("all")}
  {
    map[connector.GetOr("all") := Distribution(Categories(logs), TopCodes(logs))]
  }

  /** The one report lists the four fixed classes with counts adding up to
      the number of logs, and the five most frequent codes (all of them when
      fewer than five occur) by decreasing count, each
      counting the logs with its code. */
  lemma StatusDistributionReport(connector: Option<string>, logs: seq<LogEntry>)
    ensures var d := StatusDistribution(connector, logs)[connector.GetOr("all")];
      && (forall k :: k in FIXED_CATEGORIES ==> exists c :: c in d.categories && c.category == k)
      && SumNat(Map(d.categories, CountOf)) == |logs|
      && |d.topCodes| == (if |Keys(logs, CodeOf)| < 5 then |Keys(logs, CodeOf)| else 5)
      && Sorting.SortedBy(d.topCodes, Sorting.Descending(CodeCountKey))
      && (forall c :: c in d.topCodes ==> c.count == Count(logs, KeyIs(CodeOf, c.statusCode)))
      && (forall c :: c in d.topCodes ==> c.percentage == Share(c.count, |logs|))
  {
    var d := StatusDistribution(connector, logs)[connector.GetOr("all")];
    assert d.categories == Categories(logs) && d.topCodes == TopCodes(logs);
    CategoriesPartition(logs);
  }
}
