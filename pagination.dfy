// The pagination plugin: `page_count`, the page number taken from the
// request, and the window of the page index it keeps, with Python 2
// integer division and Python slice bounds written out.
module Pagination {
  import opened Wrappers
  import opened PageIndex
  import opened Context

  const DefaultPaginationLimit: int := 10

  // `sys.maxint` of a 64-bit Python 2: `int()` of a larger number gives a
  // `long`, which `isinstance(current_page, int)` rejects.
  const MaxInt: int := 0x7fff_ffff_ffff_ffff

  function Max(a: int, b: int): int {
    if a >= b then a else b
  }

  function Min(a: int, b: int): int {
    if a <= b then a else b
  }

  // Python 2 `a / b` on two ints: the floor of the quotient, for either sign
  // of `b`.
  function FloorDiv(a: int, b: int): (q: int)
    requires b != 0
    ensures b > 0 ==> q * b <= a < q * b + b
    ensures b < 0 ==> q * b + b < a <= q * b
  {
    if b > 0 then a / b else (-a) / (-b)
  }

  // `page_count(pagination_limit, total)`; a zero limit is a division by zero.
  function PageCount(limit: int, total: int): (n: int)
    requires limit != 0
    ensures n >= 1
  {
    Max(FloorDiv(total + limit - 1, limit), 1)
  }

  // For a positive limit and some pages, the count is the ceiling of
  // `total / limit`: the last page is the first one that reaches `total`.
  lemma PageCountIsCeiling(limit: int, total: int)
    requires limit > 0 && total > 0
    ensures (PageCount(limit, total) - 1) * limit < total <= PageCount(limit, total) * limit
  {
    var q := FloorDiv(total + limit - 1, limit);
    assert q >= 1 by {
      assert q * limit + limit > limit;
      assert (q - 1) * limit >= 0 ==> q >= 1;
    }
    assert PageCount(limit, total) == q;
    assert (q - 1) * limit == q * limit - limit;
  }

  // An empty index still has one page.
  lemma PageCountOfEmpty(limit: int)
    requires limit > 0
    ensures PageCount(limit, 0) == 1
  {
    var q := FloorDiv(limit - 1, limit);
    assert q <= 0 by {
      assert q * limit <= limit - 1 < limit;
    }
  }

  // The page number `request_url` stores: `max(int(arg), 1)`, or 1 when the
  // argument is missing or is not a number (both are `None` here).
  function RequestedPage(arg: Option<int>): (p: int)
    ensures p >= 1
    ensures arg.Some? && arg.value >= 1 ==> p == arg.value
    ensures arg.None? || arg.value < 1 ==> p == 1
  {
    match arg
    case None => 1
    case Some(n) => Max(n, 1)
  }

  // `g.config.get("PAGINATION_LIMIT", DEFAULT_PAGINATION_LIMIT)`
  function Limit(configured: Option<int>): int {
    match configured
    case None => DefaultPaginationLimit
    case Some(n) => n
  }

  // One bound of a Python slice: a negative bound counts from the end, and
  // the result is clamped to `0..n`.
  function SliceBound(i: int, n: nat): (k: nat)
    ensures k <= n
    ensures 0 <= i ==> k == Min(i, n)
    ensures i < 0 ==> k == Max(i + n, 0)
  {
    if i < 0 then (if i + n < 0 then 0 else i + n) else if i > n then n else i
  }

  // `s[i:j]`
  function PySlice<T>(s: seq<T>, i: int, j: int): (r: seq<T>)
    ensures 0 <= i <= j ==> r == s[Min(i, |s|)..Min(j, |s|)]
  {
    var lo, hi := SliceBound(i, |s|), SliceBound(j, |s|);
    if lo <= hi then s[lo..hi] else []
  }

  // What the plugin keeps of the page index and what it reports.
  datatype Window = Window(pages: seq<Page>, info: PaginationInfo)

  // The body of `get_pages` once a page number is set: clamp it to the
  // page count, slice out its pages, and set the two flags.
  function Paginate(pages: seq<Page>, requested: int, limit: int): (w: Window)
    requires limit != 0
    ensures w.info.currentPage == Min(requested, PageCount(limit, |pages|))
    ensures w.info.currentPage <= PageCount(limit, |pages|) && w.info.currentPage <= requested
    ensures w.info.currentPage == requested || w.info.currentPage == PageCount(limit, |pages|)
    ensures requested >= 1 ==> w.info.currentPage >= 1
    ensures w.info.hasPrevPage <==> w.info.currentPage > 1
    ensures w.info.hasNextPage <==> w.info.currentPage < PageCount(limit, |pages|)
  {
    var total := PageCount(limit, |pages|);
    var current := Min(requested, total);
    Window(PySlice(pages, (current - 1) * limit, current * limit),
           PaginationInfo(current, current > 1, current < total))
  }

  // The first index page window `c` shows, for a positive limit.
  lemma WindowStart(c: int, limit: int)
    requires c >= 1 && limit > 0
    ensures 0 <= (c - 1) * limit && (c - 1) * limit + limit == c * limit
  {
  }

  lemma MulMonotone(a: int, b: int, limit: int)
    requires a <= b && limit > 0
    ensures a * limit <= b * limit
  {
    assert b * limit - a * limit == (b - a) * limit;
  }

  // With a positive limit and a page number of at least 1, the window is
  // the contiguous run of at most `limit` pages starting at
  // `(current - 1) * limit`; it is empty exactly when the index is.
  lemma PaginateSlice(pages: seq<Page>, requested: int, limit: int)
    requires limit > 0 && requested >= 1
    ensures var c := Paginate(pages, requested, limit).info.currentPage; 0 <= (c - 1) * limit <= c * limit
    ensures var c := Paginate(pages, requested, limit).info.currentPage;
      Paginate(pages, requested, limit).pages == pages[Min((c - 1) * limit, |pages|)..Min(c * limit, |pages|)]
    ensures |Paginate(pages, requested, limit).pages| <= limit
    ensures Paginate(pages, requested, limit).pages == [] <==> pages == []
  {
    var w := Paginate(pages, requested, limit);
    var c := w.info.currentPage;
    var n := |pages|;
    var start, end := (c - 1) * limit, c * limit;
    WindowStart(c, limit);
    assert w.pages == PySlice(pages, start, end);
    if n > 0 {
      var total := PageCount(limit, n);
      PageCountIsCeiling(limit, n);
      MulMonotone(c - 1, total - 1, limit);
      assert start < n;
    } else {
      PageCountOfEmpty(limit);
    }
  }

  // The pages of windows 1 to k, in order.
  ghost function PagesThrough(pages: seq<Page>, limit: int, k: nat): seq<Page>
    requires limit > 0
  {
    if k == 0 then [] else PagesThrough(pages, limit, k - 1) + Paginate(pages, k, limit).pages
  }

  lemma {:induction false} PagesThroughPrefix(pages: seq<Page>, limit: int, k: nat)
    requires limit > 0 && k <= PageCount(limit, |pages|)
    ensures PagesThrough(pages, limit, k) == pages[..Min(k * limit, |pages|)]
  {
    if k > 0 {
      PagesThroughPrefix(pages, limit, k - 1);
      var lo, hi := WindowOf(pages, limit, k);
      PrefixThenSlice(pages, lo, hi);
    }
  }

  // Window `k`, for a page number the clamp leaves alone, lies between the
  // ends of windows `k - 1` and `k`.
  lemma WindowOf(pages: seq<Page>, limit: int, k: nat) returns (lo: nat, hi: nat)
    requires limit > 0 && 1 <= k <= PageCount(limit, |pages|)
    ensures lo == Min((k - 1) * limit, |pages|) && hi == Min(k * limit, |pages|)
    ensures lo <= hi <= |pages|
    ensures Paginate(pages, k, limit).pages == pages[lo..hi]
  {
    PaginateSlice(pages, k, limit);
    WindowStart(k, limit);
    assert Paginate(pages, k, limit).info.currentPage == k;
    lo, hi := Min((k - 1) * limit, |pages|), Min(k * limit, |pages|);
  }

  lemma PrefixThenSlice<T>(s: seq<T>, lo: nat, hi: nat)
    requires lo <= hi <= |s|
    ensures s[..lo] + s[lo..hi] == s[..hi]
  {
  }

  // The windows of pages 1 to `page_count` split the index: together they
  // are the whole index, in order, so every page is shown on exactly one
  // of them.
  lemma WindowsPartition(pages: seq<Page>, limit: int)
    requires limit > 0
    ensures PagesThrough(pages, limit, PageCount(limit, |pages|)) == pages
  {
    var total := PageCount(limit, |pages|);
    PagesThroughPrefix(pages, limit, total);
    if |pages| > 0 {
      PageCountIsCeiling(limit, |pages|);
    }
    assert pages[..|pages|] == pages;
  }

  // The `request_url` hook: only on the site index does it record the page
  // number of the request.
  method RequestUrl(ctx: ViewContext, pageArg: Option<int>)
    modifies ctx`paginationCurrentPage
    ensures ctx.isSiteIndex ==> ctx.paginationCurrentPage == Some(RequestedPage(pageArg))
    ensures !ctx.isSiteIndex ==> ctx.paginationCurrentPage == old(ctx.paginationCurrentPage)
  {
    if ctx.isSiteIndex {
      var currentPage := RequestedPage(pageArg);
      ctx.paginationCurrentPage := Some(currentPage);
    }
  }

  // `if current_page and isinstance(current_page, int)`: set, non-zero and
  // not a `long`.
  predicate Active(currentPage: Option<int>) {
    currentPage.Some? && currentPage.value != 0 && currentPage.value <= MaxInt
  }

  // The `get_pages` hook: with a page number set, keep only its window of
  // the page index and record the pagination flags; otherwise change
  // nothing.
  method GetPages(ctx: ViewContext, configuredLimit: Option<int>)
    requires Active(ctx.paginationCurrentPage) ==> Limit(configuredLimit) != 0
    modifies ctx`pages, ctx`pagination
    ensures Active(ctx.paginationCurrentPage) ==>
      var w := Paginate(old(ctx.pages), ctx.paginationCurrentPage.value, Limit(configuredLimit));
      ctx.pages == w.pages && ctx.pagination == Some(w.info)
    ensures !Active(ctx.paginationCurrentPage) ==>
      ctx.pages == old(ctx.pages) && ctx.pagination == old(ctx.pagination)
  {
    var currentPage := ctx.paginationCurrentPage;
    if currentPage.Some? && currentPage.value != 0 && currentPage.value <= MaxInt {
      var paginationLimit := Limit(configuredLimit);
      var total := PageCount(paginationLimit, |ctx.pages|);
      var current := Min(currentPage.value, total);
      var start := (current - 1) * paginationLimit;
      var end := current * paginationLimit;
      ctx.pages := PySlice(ctx.pages, start, end);
      ctx.pagination := Some(PaginationInfo(current, current > 1, current < total));
    }
  }
}
