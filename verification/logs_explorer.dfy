/** The pagination of the log explorer (`pages/LogsExplorer.jsx`): the
    page count, the window of numbered buttons, and where the previous,
    next and numbered buttons lead. */
module LogsExplorer {
  import opened FilterState

  /** The page sizes the explorer offers. */
  const PAGE_SIZES: set<int> := {25, 50, 100, 200}

  /** `Math.ceil(total / filters.limit)`: the fewest pages of `limit`
      entries that hold `total` entries. */
  function TotalPages(total: nat, limit: int): (pages: nat)
    requires limit > 0
    ensures (pages - 1) * limit < total <= pages * limit || (total == 0 && pages == 0)
  {
    (total + limit - 1) / limit
  }

  /** The page count is the least that holds every entry. */
  lemma TotalPagesLeast(total: nat, limit: int, pages: nat)
    requires limit > 0
    requires total <= pages * limit
    ensures TotalPages(total, limit) <= pages
  {
  }

  function Min(a: int, b: int): int
  {
    if a <= b then a else b
  }

  function Max(a: int, b: int): int
  {
    if a >= b then a else b
  }

  /** The first numbered button: page 1 while the pages fit or the current
      page is near the start, the last five pages near the end, and
      otherwise two pages before the current one. */
  function WindowStart(page: int, totalPages: nat): int
  {
    if totalPages <= 5 then 1
    else if page <= 3 then 1
    else if page >= totalPages - 2 then totalPages - 4
    else page - 2
  }

  /** The numbered buttons: `Array.from({ length: Math.min(5, totalPages) })`
      with the page numbers of the four cases. */
  function PageWindow(page: int, totalPages: nat): (w: seq<int>)
    ensures |w| == Min(5, totalPages)
    ensures forall i :: 0 <= i < |w| ==> 1 <= w[i] <= totalPages
    ensures forall i :: 0 < i < |w| ==> w[i] == w[i - 1] + 1
    ensures 1 <= page <= totalPages ==> page in w
  {
    var start := WindowStart(page, totalPages);
    var w := seq(Min(5, totalPages), i requires 0 <= i => start + i);
    assert 1 <= page <= totalPages ==> w[page - start] == page;
    w
  }

  /** Away from both ends the current page sits in the middle button. */
  lemma PageWindowCentred(page: int, totalPages: nat)
    requires totalPages > 5 && 3 < page < totalPages - 2
    ensures PageWindow(page, totalPages)[2] == page
  {
  }

  /** The previous button's target: one page back, but not before 1. */
  function PrevTarget(page: int): (p: int)
    ensures p >= 1
    ensures page > 1 ==> p == page - 1
  {
    Max(1, page - 1)
  }

  /** The next button's target: one page on, but not past the last. */
  function NextTarget(page: int, totalPages: nat): (p: int)
    ensures p <= totalPages
    ensures page < totalPages ==> p == page + 1
  {
    Min(totalPages, page + 1)
  }

  /** The buttons as written: every one calls `handleFilterChange('page',
      target)`, which writes the target and then `page: 1`. */
  function ClickAsWritten(f: Filters, target: int): (g: Filters)
    ensures g.Keys == f.Keys + {"page"}
    ensures forall k :: k in f && k != "page" ==> g[k] == f[k]
  {
    FilterChange(f, "page", Num(target))
  }

  /** Whatever button is pressed, the explorer ends up on page 1. */
  lemma ButtonsAlwaysGoToFirstPage(f: Filters, target: int)
    ensures ClickAsWritten(f, target)["page"] == Num(1)
  {
  }

  /** From the first of three pages, "next" should show page 2 but shows
      page 1 again. */
  lemma NextFromFirstPageStays()
    ensures NextTarget(1, 3) == 2
    ensures ClickAsWritten(INITIAL, NextTarget(1, 3))["page"] == Num(1)
  {
  }

  /** The buttons as intended: set the page and nothing else, as the log
      table page's `handlePageChange` does. */
  function Click(f: Filters, target: int): (g: Filters)
    ensures g.Keys == f.Keys + {"page"}
    ensures forall k :: k in f && k != "page" ==> g[k] == f[k]
    ensures g["page"] == Num(target)
  {
    PageChange(f, target)
  }

  /** With the intended click, "next" then "previous" from any page but
      the last returns to the same page, a numbered button lands on its
      number, and the criteria are kept. */
  lemma ClickNavigates(f: Filters, page: int, totalPages: nat, i: nat)
    requires 1 <= page < totalPages
    requires i < |PageWindow(page, totalPages)|
    ensures Click(f, NextTarget(page, totalPages))["page"] == Num(page + 1)
    ensures Click(Click(f, NextTarget(page, totalPages)), PrevTarget(page + 1))["page"] == Num(page)
    ensures Click(f, PageWindow(page, totalPages)[i])["page"] == Num(PageWindow(page, totalPages)[i])
    ensures Params(Click(f, PageWindow(page, totalPages)[i])) - {"page"} == Params(f) - {"page"}
  {
  }

  /** The page size is one the select offers, so the page count is
      always defined. */
  predicate SizeOffered(f: Filters)
  {
    "limit" in f && f["limit"].Num? && f["limit"].n in PAGE_SIZES
  }

  /** The initial (and cleared) filters use an offered size, and every
      update the page makes keeps one: the select only sends offered
      sizes, other criteria leave the size alone, and page buttons touch
      only the page. */
  lemma SizeAlwaysOffered(f: Filters, key: string, value: JsValue, target: int)
    requires SizeOffered(f)
    requires key == "limit" ==> value.Num? && value.n in PAGE_SIZES
    ensures SizeOffered(INITIAL)
    ensures SizeOffered(FilterChange(f, key, value))
    ensures SizeOffered(Click(f, target))
    ensures SizeOffered(ClickAsWritten(f, target))
    ensures f["limit"].n > 0
  {
  }
}
