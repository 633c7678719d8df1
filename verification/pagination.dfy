/** Page-based pagination of the transaction query: the normalisation of
    `page` and `limit`, the offset, the `skip`/`take` window of the fetch,
    and the page metadata returned beside the items. */
module Pagination {

  /** The largest page size a caller can obtain. */
  const MAX_LIMIT := 100

  function Max(a: int, b: int): int { if a >= b then a else b }
  function Min(a: int, b: int): int { if a <= b then a else b }

  /** The page actually served: `Math.max(1, page)`. */
  function ValidPage(page: int): (p: int)
    ensures p >= 1
    ensures page >= 1 ==> p == page
    ensures page < 1 ==> p == 1
  {
    Max(1, page)
  }

  /** The page size actually used: `Math.min(100, Math.max(1, limit))`. */
  function ValidLimit(limit: int): (l: int)
    ensures 1 <= l <= MAX_LIMIT
    ensures 1 <= limit <= MAX_LIMIT ==> l == limit
    ensures limit < 1 ==> l == 1
    ensures limit > MAX_LIMIT ==> l == MAX_LIMIT
  {
    Min(MAX_LIMIT, Max(1, limit))
  }

  /** How many matches precede page `page`: `(page - 1) * limit`. Only page
      1 starts at the first match, and page `page` ends after the first
      `page * limit` matches. */
  function Skip(page: int, limit: int): (skip: nat)
    requires page >= 1 && limit >= 1
    ensures skip == 0 <==> page == 1
    ensures skip + limit == page * limit
  {
    MulMonotonic(1, page, limit);
    (page - 1) * limit
  }

  /** Each page starts where the one before it ended. */
  lemma PagesTile(page: int, limit: int)
    requires page >= 1 && limit >= 1
    ensures Skip(page + 1, limit) == Skip(page, limit) + limit
  {
  }

  /** `Math.ceil(totalItems / limit)`: the fewest pages of `limit` items that
      hold `totalItems` items. */
  function PageCount(totalItems: nat, limit: int): (pages: nat)
    requires limit >= 1
    ensures pages * limit >= totalItems
    ensures pages > 0 ==> (pages - 1) * limit < totalItems
    ensures pages == 0 <==> totalItems == 0
  {
    var q := (totalItems + limit - 1) / limit;
    var r := (totalItems + limit - 1) % limit;
    assert totalItems + limit - 1 == q * limit + r && 0 <= r < limit;
    assert (q - 1) * limit == q * limit - limit;
    q
  }

  lemma MulMonotonic(a: int, b: int, l: nat)
    requires a <= b
    ensures a * l <= b * l
  {
  }

  /** A page comes before the last one exactly when matches remain after it. */
  lemma BeforeLastPageIff(page: int, limit: int, totalItems: nat)
    requires page >= 1 && limit >= 1
    ensures page < PageCount(totalItems, limit) <==> page * limit < totalItems
  {
    var pages := PageCount(totalItems, limit);
    if page < pages {
      MulMonotonic(page, pages - 1, limit);
    } else {
      MulMonotonic(pages, page, limit);
    }
  }

  /** The metadata of a page (`PaginationInfo`). All fields are integers
      except the two flags. */
  datatype PaginationInfo = PaginationInfo(
    currentPage: int,
    totalPages: int,
    totalItems: int,
    itemsPerPage: int,
    hasNextPage: bool,
    hasPreviousPage: bool)

  /** The metadata for page `page` of `limit` items over `totalItems` matches:
      `totalPages` is the ceiling, `hasNextPage` is `page < totalPages` and
      `hasPreviousPage` is `page > 1`. The flags say whether matches remain
      after this page and whether any come before it. */
  function PageMetadata(page: int, limit: int, totalItems: nat): (info: PaginationInfo)
    requires page >= 1 && limit >= 1
    ensures info.currentPage == page && info.itemsPerPage == limit && info.totalItems == totalItems
    ensures info.totalPages == PageCount(totalItems, limit)
    ensures info.hasNextPage <==> Skip(page, limit) + limit < totalItems
    ensures info.hasPreviousPage <==> Skip(page, limit) > 0
  {
    var totalPages := PageCount(totalItems, limit);
    BeforeLastPageIff(page, limit, totalItems);
    PaginationInfo(page, totalPages, totalItems, limit, page < totalPages, page > 1)
  }

  /** The rows a `findMany` with `skip` and `take` returns from the ordered
      matches `s`: at most `take` of them, starting at position `skip`, and
      none when `skip` is past the end. */
  function Window<T>(s: seq<T>, skip: nat, take: nat): (w: seq<T>)
    ensures |w| == if skip >= |s| then 0 else Min(take, |s| - skip)
    ensures forall i :: 0 <= i < |w| ==> skip + i < |s| && w[i] == s[skip + i]
  {
    if skip >= |s| then [] else s[skip..Min(skip + take, |s|)]
  }

  /** A page holds items exactly when it is one of the first `totalPages`
      pages; a page past the end is empty, not an error. */
  lemma PageNonEmptyIff<T>(s: seq<T>, page: int, limit: int)
    requires page >= 1 && limit >= 1
    ensures |Window(s, Skip(page, limit), limit)| > 0 <==> page <= PageCount(|s|, limit)
  {
    var n, pages, skip := |s|, PageCount(|s|, limit), Skip(page, limit);
    assert skip == (page - 1) * limit;
    if page <= pages {
      MulMonotonic(page - 1, pages - 1, limit);
      assert skip < n;
    } else {
      MulMonotonic(pages, page - 1, limit);
      assert skip >= n;
    }
  }

  /** Every page but the last is full; the last holds the remainder. */
  lemma PageSize<T>(s: seq<T>, page: int, limit: int)
    requires page >= 1 && limit >= 1
    ensures page < PageCount(|s|, limit) ==> |Window(s, Skip(page, limit), limit)| == limit
    ensures page == PageCount(|s|, limit) ==>
              |Window(s, Skip(page, limit), limit)| == |s| - (page - 1) * limit
  {
    var pages, skip := PageCount(|s|, limit), Skip(page, limit);
    assert skip == (page - 1) * limit;
    if page < pages {
      MulMonotonic(page, pages - 1, limit);
      assert skip + limit < |s|;
    } else if page == pages {
      assert skip < |s|;
    }
  }

  /** The scenario of 27 matches at 10 per page: pages 1 and 3 hold 10 and 7
      items, page 4 is empty, and only the middle pages have both flags. */
  lemma TwentySevenItemsAtTenPerPage(s: seq<int>)
    requires |s| == 27
    ensures PageCount(27, 10) == 3
    ensures |Window(s, Skip(1, 10), 10)| == 10 && |Window(s, Skip(3, 10), 10)| == 7
    ensures |Window(s, Skip(4, 10), 10)| == 0
    ensures PageMetadata(1, 10, 27).hasNextPage && !PageMetadata(1, 10, 27).hasPreviousPage
    ensures !PageMetadata(3, 10, 27).hasNextPage && PageMetadata(3, 10, 27).hasPreviousPage
    ensures !PageMetadata(4, 10, 27).hasNextPage
  {
  }
}
