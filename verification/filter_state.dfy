/** The filter state both log pages keep: a JavaScript object of search
    criteria and pagination, the updates the pages make to it, and the
    query parameters it becomes. */
module FilterState {

  /** The values the filter object holds. */
  datatype JsValue = Str(s: string) | Num(n: int) | Bool(b: bool) | Null

  /** A filter object: its properties by name. */
  type Filters = map<string, JsValue>

  /** The filters a page starts with, and returns to on reset. */
  const INITIAL: Filters := map[
    "query" := Str(""),
    "connector" := Str("all"),
    "type" := Str("all"),
    "status" := Str(""),
    "success" := Null,
    "minLatency" := Str(""),
    "maxLatency" := Str(""),
    "clientIP" := Str(""),
    "service" := Str(""),
    "page" := Num(1),
    "limit" := Num(50),
    "sortBy" := Str("timestamp"),
    "sortOrder" := Str("desc")]

  /** `handleFilterChange(key, value)`: `{ ...prev, [key]: value, page: 1 }`.
      The page is written last, so it is 1 whatever the key. */
  function FilterChange(f: Filters, key: string, value: JsValue): (g: Filters)
    ensures g.Keys == f.Keys + {key, "page"}
    ensures g["page"] == Num(1)
    ensures key != "page" ==> g[key] == value
    ensures forall k :: k in f && k != key && k != "page" ==> g[k] == f[k]
  {
    f[key := value]["page" := Num(1)]
  }

  /** `handlePageChange(newPage)`: `{ ...prev, page: newPage }`. */
  function PageChange(f: Filters, page: int): (g: Filters)
    ensures g.Keys == f.Keys + {"page"}
    ensures g["page"] == Num(page)
    ensures forall k :: k in f && k != "page" ==> g[k] == f[k]
  {
    f["page" := Num(page)]
  }

  /** A value the request leaves out: '', null and 'all' (compared
      strictly, so `false` and `0` are sent). */
  predicate Unset(v: JsValue)
  {
    v == Str("") || v == Null || v == Str("all")
  }

  /** The query parameters of a filter object: every property whose value
      is set, unchanged. */
  function Params(f: Filters): (p: Filters)
    ensures forall k :: k in p <==> k in f && !Unset(f[k])
    ensures forall k :: k in p ==> p[k] == f[k]
  {
    map k | k in f && !Unset(f[k]) :: f[k]
  }

  /** Parameters are already clean: cleaning them again changes nothing. */
  lemma ParamsIdempotent(f: Filters)
    ensures Params(Params(f)) == Params(f)
  {
  }

  /** A fresh page asks for the first 50 entries, newest first, and no
      other criterion. */
  lemma ParamsInitial()
    ensures Params(INITIAL) == map[
      "page" := Num(1), "limit" := Num(50),
      "sortBy" := Str("timestamp"), "sortOrder" := Str("desc")]
  {
    var expected := map[
      "page" := Num(1), "limit" := Num(50),
      "sortBy" := Str("timestamp"), "sortOrder" := Str("desc")];
    assert Params(INITIAL).Keys == expected.Keys;
  }

  /** Choosing 'all' (or clearing a field) for a criterion removes it from
      the request and sends the first page; the other parameters stay. */
  lemma ClearedCriterionDropped(f: Filters, key: string, value: JsValue)
    requires key != "page" && Unset(value)
    ensures Params(FilterChange(f, key, value)) == (Params(f) - {key})["page" := Num(1)]
  {
  }

  /** Setting a criterion sends exactly that value, on the first page. */
  lemma SetCriterionSent(f: Filters, key: string, value: JsValue)
    requires key != "page" && !Unset(value)
    ensures Params(FilterChange(f, key, value)) == Params(f)[key := value]["page" := Num(1)]
  {
  }
}
