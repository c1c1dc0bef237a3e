/**
 * The state behind every paginated list of the frontend: the current page,
 * the page size, the row count and page count the server reported, and the
 * rows of the current page, with the navigation that keeps the page inside
 * the known page range.
 */
module PagedList {
  import opened Common

  /**
   * One response of the fetch function. The rows may come as `data`,
   * `rows` or `items`, and the page count as `totalPages` or
   * `total_pages` (here `snakeTotalPages`); `None` is a member left out or null.
   */
  datatype Response<T> = Response(data: Option<seq<T>>, rows: Option<seq<T>>, items: Option<seq<T>>,
                                  total: Option<int>, totalPages: Option<int>, snakeTotalPages: Option<int>)

  /** `result.data || result.rows || result.items || []`: an array, even an empty one, is truthy. */
  function Items<T>(r: Response<T>): seq<T> {
    if r.data.Some? then r.data.value
    else if r.rows.Some? then r.rows.value
    else if r.items.Some? then r.items.value
    else []
  }

  /** `Math.ceil(n / d)` for a positive page size. */
  function CeilDiv(n: int, d: int): (q: int)
    requires d > 0
    ensures d * (q - 1) < n <= d * q
  {
    CeilDivBounds(n, d);
    (n + d - 1) / d
  }

  lemma CeilDivBounds(n: int, d: int)
    requires d > 0
    ensures d * ((n + d - 1) / d - 1) < n <= d * ((n + d - 1) / d)
  {
    var q := (n + d - 1) / d;
    var m := (n + d - 1) % d;
    assert n + d - 1 == d * q + m && 0 <= m < d;
  }

  /** `result.totalPages || result.total_pages || Math.ceil(total / limit)`. */
  function PageCount<T>(r: Response<T>, limit: int): int
    requires limit > 0
  {
    if TruthyInt(r.totalPages) then r.totalPages.value
    else if TruthyInt(r.snakeTotalPages) then r.snakeTotalPages.value
    else CeilDiv(IntOr(r.total, 0), limit)
  }

  /** The three shapes of response carry their rows the same way. */
  lemma ShapesAgree<T>(rows: seq<T>, total: Option<int>)
    ensures Items(Response(Some(rows), None, None, total, None, None)) == rows
    ensures Items(Response(None, Some(rows), None, total, None, None)) == rows
    ensures Items(Response(None, None, Some(rows), total, None, None)) == rows
    ensures Items<T>(Response(None, None, None, total, None, None)) == []
  {
  }

  /**
   * Without a page count from the server, the page count is the least
   * number of pages of `limit` rows that hold every row; a response
   * without any count gives no pages at all.
   */
  lemma PageCountCovers<T>(r: Response<T>, limit: int)
    requires limit > 0 && !TruthyInt(r.totalPages) && !TruthyInt(r.snakeTotalPages)
    ensures var n := IntOr(r.total, 0);
      limit * (PageCount(r, limit) - 1) < n <= limit * PageCount(r, limit)
    ensures r.total.None? ==> PageCount(r, limit) == 0
  {
    assert CeilDiv(0, limit) == 0 by {
      assert (0 + limit - 1) / limit == 0;
    }
  }

  /** The hook's state. The page size never changes after the first render. */
  class Pager<T> {
    var page: int
    const limit: int
    var total: int
    var totalPages: int
    var data: seq<T>
    var loading: bool

    /** The first render: page 1, no rows, loading. */
    constructor (initialLimit: int)
      requires initialLimit > 0
      ensures page == 1 && limit == initialLimit
      ensures total == 0 && totalPages == 0 && data == [] && loading
    {
      page := 1;
      limit := initialLimit;
      total := 0;
      totalPages := 0;
      data := [];
      loading := true;
    }

    /** `totalPages || 1`: the last page navigation may reach. */
    function LastPage(): int
      reads this
    {
      if totalPages != 0 then totalPages else 1
    }

    /**
     * `goToPage`: a page inside `1..LastPage()` is taken as it is; one
     * before it gives page 1 and one after it the last page (never below 1).
     */
    method GoToPage(newPage: int)
      modifies this`page
      ensures 1 <= newPage <= LastPage() ==> page == newPage
      ensures newPage < 1 ==> page == 1
      ensures newPage > LastPage() ==> page == Max(1, LastPage())
      ensures 1 <= page && (LastPage() >= 1 ==> page <= LastPage())
    {
      page := Max(1, Min(newPage, LastPage()));
    }

    /**
     * `nextPage`: one page on, but never past the last page; a page already
     * past the end (the count shrank) is pulled back to the last page.
     */
    method NextPage()
      modifies this`page
      ensures old(page) < LastPage() ==> page == old(page) + 1
      ensures old(page) >= LastPage() ==> page == LastPage()
      ensures 1 <= old(page) && LastPage() >= 1 ==> 1 <= page <= LastPage()
    {
      page := Min(page + 1, LastPage());
    }

    /** `prevPage`: one page back, but never before page 1. */
    method PrevPage()
      modifies this`page
      ensures old(page) > 1 ==> page == old(page) - 1
      ensures old(page) <= 1 ==> page == 1
    {
      page := Max(page - 1, 1);
    }

    /** `fetchData` once it starts: the list is loading. */
    method StartFetch()
      modifies this`loading
      ensures loading
    {
      loading := true;
    }

    /**
     * `fetchData` when the fetch function answers: the rows, the row count
     * (missing counts as 0) and the page count of the response replace the
     * old ones, and loading ends. The page itself is not touched.
     */
    method Loaded(r: Response<T>)
      requires limit > 0
      modifies this`data, this`total, this`totalPages, this`loading
      ensures data == Items(r) && total == IntOr(r.total, 0) && totalPages == PageCount(r, limit)
      ensures !loading
    {
      data := Items(r);
      total := IntOr(r.total, 0);
      totalPages := PageCount(r, limit);
      loading := false;
    }

    /** `fetchData` when the fetch function throws: no rows, the counts stay, and loading ends. */
    method Failed()
      modifies this`data, this`loading
      ensures data == [] && !loading
    {
      data := [];
      loading := false;
    }
  }
}
