/** The client's pagination helpers: the list of page buttons, with "..."
    markers for the pages it leaves out, and the range of item positions
    shown on the current page. */
module PaginationUtils {
  import opened Pagination

  /** A page button, or the "..." marker. */
  datatype PageItem = Page(number: int) | Ellipsis

  /** At most this many pages are listed without markers. */
  const MAX_PAGES_TO_SHOW := 5

  /** The buttons for pages `lo` to `hi`, in order; none when `lo > hi`. */
  function Run(lo: int, hi: int): seq<PageItem> {
    seq(if lo <= hi then hi - lo + 1 else 0, i => Page(lo + i))
  }

  /** The numbered buttons strictly increase from left to right. */
  predicate Increasing(pages: seq<PageItem>) {
    forall i, j :: 0 <= i < j < |pages| && pages[i].Page? && pages[j].Page? ==> pages[i].number < pages[j].number
  }

  /** Two neighbouring numbered buttons are consecutive pages. */
  predicate NeighboursConsecutive(pages: seq<PageItem>) {
    forall i :: 0 <= i < |pages| - 1 && pages[i].Page? && pages[i + 1].Page? ==>
      pages[i + 1].number == pages[i].number + 1
  }

  /** Every "..." sits between two numbered buttons and stands for at least
      one page left out. */
  predicate MarkersStandForGaps(pages: seq<PageItem>) {
    forall i :: 0 <= i < |pages| && pages[i].Ellipsis? ==>
      && 0 < i < |pages| - 1
      && pages[i - 1].Page? && pages[i + 1].Page?
      && pages[i + 1].number - pages[i - 1].number >= 2
  }

  /** The shape of a page list: a run of buttons from page 1 to the last
      page, in order, where every jump is marked with "..." and nothing else
      is. */
  predicate WellFormed(pages: seq<PageItem>, totalPages: int) {
    && Increasing(pages)
    && NeighboursConsecutive(pages)
    && MarkersStandForGaps(pages)
    && (totalPages >= 1 ==> |pages| >= 1 && pages[0] == Page(1) && pages[|pages| - 1] == Page(totalPages))
    && (totalPages < 1 ==> pages == [])
  }

  /** With at most 5 pages, every page is listed. */
  lemma AllPagesShape(total: int)
    requires total <= MAX_PAGES_TO_SHOW
    ensures WellFormed(Run(1, total), total) && |Run(1, total)| <= 7
    ensures forall c :: 1 <= c <= total ==> Page(c) in Run(1, total)
  {
    var pages := Run(1, total);
    forall c | 1 <= c <= total ensures Page(c) in pages {
      assert pages[c - 1] == Page(c);
    }
  }

  /** Near the first page: pages 1 to 4, "...", the last page. */
  lemma StartShape(current: int, total: int)
    requires total > MAX_PAGES_TO_SHOW && current <= 3
    ensures Run(1, 4) + [Ellipsis, Page(total)] == [Page(1), Page(2), Page(3), Page(4), Ellipsis, Page(total)]
    ensures WellFormed(Run(1, 4) + [Ellipsis, Page(total)], total)
    ensures 1 <= current ==> Page(current) in Run(1, 4) + [Ellipsis, Page(total)]
  {
    var pages := Run(1, 4) + [Ellipsis, Page(total)];
    assert pages == [Page(1), Page(2), Page(3), Page(4), Ellipsis, Page(total)];
  }

  /** Near the last page: page 1, "...", the last four pages. */
  lemma EndShape(current: int, total: int)
    requires total > MAX_PAGES_TO_SHOW && 3 < current && current >= total - 2
    ensures |[Page(1), Ellipsis] + Run(total - 3, total)| == 6
    ensures WellFormed([Page(1), Ellipsis] + Run(total - 3, total), total)
    ensures current <= total ==> Page(current) in [Page(1), Ellipsis] + Run(total - 3, total)
  {
    var pages := [Page(1), Ellipsis] + Run(total - 3, total);
    assert pages == [Page(1), Ellipsis, Page(total - 3), Page(total - 2), Page(total - 1), Page(total)];
  }

  /** In the middle: page 1, "...", the current page and its neighbours,
      "...", the last page. */
  lemma MiddleShape(current: int, total: int)
    requires total > MAX_PAGES_TO_SHOW && 3 < current < total - 2
    ensures [Page(1), Ellipsis] + Run(current - 1, current + 1) + [Ellipsis, Page(total)]
              == [Page(1), Ellipsis, Page(current - 1), Page(current), Page(current + 1), Ellipsis, Page(total)]
    ensures WellFormed([Page(1), Ellipsis] + Run(current - 1, current + 1) + [Ellipsis, Page(total)], total)
    ensures Page(current) in [Page(1), Ellipsis] + Run(current - 1, current + 1) + [Ellipsis, Page(total)]
  {
    var pages := [Page(1), Ellipsis, Page(current - 1), Page(current), Page(current + 1), Ellipsis, Page(total)];
    assert [Page(1), Ellipsis] + Run(current - 1, current + 1) + [Ellipsis, Page(total)] == pages;
    assert Increasing(pages);
    assert NeighboursConsecutive(pages);
    assert MarkersStandForGaps(pages);
    assert pages[3] == Page(current);
  }

  /** The page list for `current` of `total` pages: every page when there
      are at most 5; otherwise the first page, the last page and a window
      around the current page, with "..." for the pages in between. */
  function PageNumbers(current: int, total: int): seq<PageItem> {
    if total <= MAX_PAGES_TO_SHOW then Run(1, total)
    else if current <= 3 then Run(1, 4) + [Ellipsis, Page(total)]
    else if current >= total - 2 then [Page(1), Ellipsis] + Run(total - 3, total)
    else [Page(1), Ellipsis] + Run(current - 1, current + 1) + [Ellipsis, Page(total)]
  }

  /** Every page list is well formed, has at most 7 entries, and lists the
      current page whenever that page exists. */
  lemma PageNumbersShape(current: int, total: int)
    ensures |PageNumbers(current, total)| <= 7
    ensures WellFormed(PageNumbers(current, total), total)
    ensures 1 <= current <= total ==> Page(current) in PageNumbers(current, total)
  {
    if total <= MAX_PAGES_TO_SHOW {
      AllPagesShape(total);
    } else if current <= 3 {
      StartShape(current, total);
    } else if current >= total - 2 {
      EndShape(current, total);
    } else {
      MiddleShape(current, total);
    }
  }

  /** `getPageNumbers`: builds the list of `PageNumbers`, whose shape
      `PageNumbersShape` states. */
  method GetPageNumbers(pagination: PaginationInfo) returns (pages: seq<PageItem>)
    ensures pages == PageNumbers(pagination.currentPage, pagination.totalPages)
  {
    var currentPage, totalPages := pagination.currentPage, pagination.totalPages;
    pages := [];

    if totalPages <= MAX_PAGES_TO_SHOW {
      var page := 1;
      while page <= totalPages
        invariant 1 <= page <= if totalPages >= 1 then totalPages + 1 else 1
        invariant pages == Run(1, page - 1)
      {
        pages := pages + [Page(page)];
        page := page + 1;
      }
      assert pages == Run(1, totalPages);
      return;
    }

    if currentPage <= 3 {
      pages := pages + [Page(1), Page(2), Page(3), Page(4), Ellipsis, Page(totalPages)];
      StartShape(currentPage, totalPages);
      return;
    }

    if currentPage >= totalPages - 2 {
      pages := pages + [Page(1), Ellipsis];
      var page := totalPages - 3;
      while page <= totalPages
        invariant totalPages - 3 <= page <= totalPages + 1
        invariant pages == [Page(1), Ellipsis] + Run(totalPages - 3, page - 1)
      {
        pages := pages + [Page(page)];
        page := page + 1;
      }
      return;
    }

    pages := pages + [Page(1), Ellipsis, Page(currentPage - 1), Page(currentPage), Page(currentPage + 1), Ellipsis, Page(totalPages)];
    MiddleShape(currentPage, totalPages);
  }

  /** What `getPaginationRange` shows: "0" when nothing matched, otherwise
      the 1-based positions of the first and last items of the page. */
  datatype ItemRange = NoItems | Span(start: int, end: int)

  /** `getPaginationRange`: `start = (currentPage - 1) * itemsPerPage + 1`
      and `end = min(currentPage * itemsPerPage, totalItems)`. */
  function GetPaginationRange(pagination: PaginationInfo): (r: ItemRange)
    ensures r.NoItems? <==> pagination.totalItems == 0
    ensures r.Span? ==> r.end <= pagination.totalItems && r.end <= pagination.currentPage * pagination.itemsPerPage
    ensures r.Span? ==> r.start - 1 == (pagination.currentPage - 1) * pagination.itemsPerPage
    ensures r.Span? ==> r.end == pagination.totalItems || r.end == pagination.currentPage * pagination.itemsPerPage
  {
    var p := pagination;
    if p.totalItems == 0 then NoItems
    else Span((p.currentPage - 1) * p.itemsPerPage + 1, Min(p.currentPage * p.itemsPerPage, p.totalItems))
  }

  /** For the metadata the server sends with a non-empty page, the range
      names exactly the positions of the items on that page. */
  lemma RangeMatchesPage<T>(matches: seq<T>, page: int, limit: int)
    requires page >= 1 && limit >= 1
    requires 1 <= page <= PageCount(|matches|, limit)
    ensures var skip := Skip(page, limit);
            GetPaginationRange(PageMetadata(page, limit, |matches|))
              == Span(skip + 1, skip + |Window(matches, skip, limit)|)
  {
    PageNonEmptyIff(matches, page, limit);
    var skip := Skip(page, limit);
    assert skip == (page - 1) * limit;
    assert skip + limit == page * limit;
  }

  /** On a page past the last one the range is reversed: it starts after
      the last item and ends at the last item. */
  lemma RangePastLastPageIsReversed<T>(matches: seq<T>, page: int, limit: int)
    requires limit >= 1 && |matches| > 0
    requires page > PageCount(|matches|, limit)
    ensures var r := GetPaginationRange(PageMetadata(page, limit, |matches|));
            r.Span? && r.end == |matches| < r.start
  {
    PageNonEmptyIff(matches, page, limit);
    var skip := Skip(page, limit);
    assert skip == (page - 1) * limit;
    assert skip + limit == page * limit;
  }
}
