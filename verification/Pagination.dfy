/** app/repositories/base.py: `PaginatedResult` and `paginate`. */
module Pagination {
  import opened Wrappers

  const MAX_PAGE_SIZE := 100

  function Min(a: int, b: int): int {
    if a <= b then a else b
  }

  /** The rows a query with an offset and a limit returns. */
  function Slice<T>(items: seq<T>, skip: nat, limit: nat): (r: seq<T>)
    ensures |r| <= limit
  {
    if skip >= |items| then [] else items[skip..Min(skip + limit, |items|)]
  }

  lemma SliceIs<T>(items: seq<T>, skip: nat, limit: nat)
    ensures Slice(items, skip, limit)
         == if skip > |items| then [] else if skip + limit > |items| then items[skip..] else items[skip..skip + limit]
  {
  }

  datatype PaginatedResult<T> = PaginatedResult(items: seq<T>, total: nat, page: int, pageSize: int) {
    function TotalPages(): int
      requires pageSize != 0
    {
      if total > 0 then (total + pageSize - 1) / pageSize else 0
    }

    predicate HasNext()
      requires pageSize != 0
    {
      page < TotalPages()
    }

    predicate HasPrev() {
      page > 1
    }
  }

  /** `None` stands for PaginationError. */
  function Paginate<T>(items: seq<T>, page: int, pageSize: int): Option<PaginatedResult<T>> {
    if page < 1 || pageSize > MAX_PAGE_SIZE || pageSize < 1 then None
    else
      assert (page - 1) * pageSize >= 0;
      Some(PaginatedResult(Slice(items, (page - 1) * pageSize, pageSize), |items|, page, pageSize))
  }

  predicate ValidSize(pageSize: int) {
    1 <= pageSize <= MAX_PAGE_SIZE
  }

  /** The result of asking for a page that exists as a request. */
  function PageAt<T>(items: seq<T>, page: int, pageSize: int): PaginatedResult<T>
    requires page >= 1 && ValidSize(pageSize)
  {
    Paginate(items, page, pageSize).value
  }

  /** The items of pages 1 to n, one after the other. */
  function FirstPages<T>(items: seq<T>, pageSize: int, n: nat): seq<T>
    requires ValidSize(pageSize)
  {
    if n == 0 then [] else FirstPages(items, pageSize, n - 1) + PageAt(items, n, pageSize).items
  }

  lemma {:induction false} FirstPagesArePrefix<T>(items: seq<T>, pageSize: int, n: nat)
    requires ValidSize(pageSize)
    ensures 0 <= n * pageSize
    ensures FirstPages(items, pageSize, n) == items[..Min(n * pageSize, |items|)]
  {
    if n > 0 {
      FirstPagesArePrefix(items, pageSize, n - 1);
      assert n * pageSize == (n - 1) * pageSize + pageSize;
    }
  }

  /** `total_pages` is the number of pages of this size that cover the total. */
  lemma TotalPagesCover(total: nat, pageSize: int, pages: int)
    requires pageSize >= 1
    requires pages == if total > 0 then (total + pageSize - 1) / pageSize else 0
    ensures pages >= 0 && total <= pages * pageSize < total + pageSize
  {
    if total > 0 {
      var q := (total + pageSize - 1) / pageSize;
      assert total + pageSize - 1 == q * pageSize + (total + pageSize - 1) % pageSize;
    }
  }

  lemma MulMonotone(a: int, b: int, c: int)
    requires a <= b && 0 <= c
    ensures a * c <= b * c
  {
  }

  /** Reading every page yields every row exactly once, in order. */
  lemma PagesPartition<T>(items: seq<T>, pageSize: int)
    requires ValidSize(pageSize)
    ensures var pages := PageAt(items, 1, pageSize).TotalPages();
      pages >= 0 && FirstPages(items, pageSize, pages) == items
  {
    var pages := PageAt(items, 1, pageSize).TotalPages();
    TotalPagesCover(|items|, pageSize, pages);
    FirstPagesArePrefix(items, pageSize, pages);
  }

  lemma OffsetOfPage(total: nat, page: int, pageSize: int)
    requires pageSize >= 1 && page >= 1
    ensures (page - 1) * pageSize == page * pageSize - pageSize >= 0
    ensures var pages := if total > 0 then (total + pageSize - 1) / pageSize else 0;
      page < pages <==> page * pageSize < total
  {
    var pages := if total > 0 then (total + pageSize - 1) / pageSize else 0;
    TotalPagesCover(total, pageSize, pages);
    if page < pages {
      MulMonotone(page, pages - 1, pageSize);
    } else {
      MulMonotone(pages, page, pageSize);
    }
  }

  /** `has_next` is true exactly when the next page holds something, and every
      page before the last is full; `has_prev` exactly when the previous page can
      be asked for. */
  lemma HasNextIffMore<T>(items: seq<T>, page: int, pageSize: int)
    requires ValidSize(pageSize) && page >= 1
    ensures PageAt(items, page, pageSize).HasNext() <==> PageAt(items, page + 1, pageSize).items != []
    ensures PageAt(items, page, pageSize).HasNext() ==> |PageAt(items, page, pageSize).items| == pageSize
    ensures PageAt(items, page, pageSize).HasPrev() <==> Paginate(items, page - 1, pageSize).Some?
  {
    OffsetOfPage(|items|, page, pageSize);
  }

  /** Past the last page there is nothing. */
  lemma LaterPagesEmpty<T>(items: seq<T>, page: int, pageSize: int)
    requires ValidSize(pageSize) && page > PageAt(items, 1, pageSize).TotalPages() && page >= 1
    ensures PageAt(items, page, pageSize).items == []
  {
    var pages := PageAt(items, 1, pageSize).TotalPages();
    TotalPagesCover(|items|, pageSize, pages);
    MulMonotone(pages, page - 1, pageSize);
  }
}
