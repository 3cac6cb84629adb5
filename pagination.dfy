/**
 * The pagination bar: whether it shows, the window of at most five page
 * numbers around the current page, and when Prev and Next are disabled.
 */
module PaginationBar {
  import opened Wrappers
  import opened EventController

  const MaxVisible := 5

  function Max(a: int, b: int): int
  {
    if a >= b then a else b
  }

  /** The bar renders nothing without pagination data or with at most one page. */
  predicate Renders(p: Option<PageMeta>)
  {
    p.Some? && p.value.totalPages > 1
  }

  /**
   * With the listing's own answer, the bar shows exactly when the page was
   * served and the events do not fit on one page.
   */
  lemma RendersIffMoreThanOnePage(page: int, limit: int, total: nat)
    requires limit >= 1
    ensures Renders(Paginate(page, limit, total)) <==> page >= 1 && total > limit
  {
    var r := Paginate(page, limit, total);
    if r.Some? {
      var m := r.value;
      if m.totalPages > 1 {
        MulMonotonic(1, m.totalPages - 1, limit);
      } else {
        MulMonotonic(m.totalPages, 1, limit);
      }
    }
  }

  /**
   * `getPageNumbers`: a run of consecutive page numbers, all real pages, as
   * many as five or the page count allow, and holding the current page
   * whenever that is a real page.
   */
  method PageNumbers(currentPage: int, totalPages: int) returns (pages: seq<int>)
    ensures |pages| == if totalPages <= 0 then 0 else Min(MaxVisible, totalPages)
    ensures forall k :: 0 <= k < |pages| ==> pages[k] == pages[0] + k
    ensures forall k :: 0 <= k < |pages| ==> 1 <= pages[k] <= totalPages
    ensures 1 <= currentPage <= totalPages ==> currentPage in pages
  {
    pages := [];
    var start := Max(1, currentPage - MaxVisible / 2);
    var end := Min(totalPages, start + MaxVisible - 1);
    if end - start + 1 < MaxVisible {
      start := Max(1, end - MaxVisible + 1);
    }
    var i := start;
    while i <= end
      invariant start <= i <= Max(start, end + 1)
      invariant |pages| == i - start
      invariant forall k :: 0 <= k < |pages| ==> pages[k] == start + k
    {
      pages := pages + [i];
      i := i + 1;
    }
    if 1 <= currentPage <= totalPages {
      assert pages[currentPage - start] == currentPage;
    }
  }

  predicate PrevDisabled(currentPage: int)
  {
    currentPage <= 1
  }

  predicate NextDisabled(currentPage: int, totalPages: int)
  {
    currentPage >= totalPages
  }

  /** An enabled Prev or Next button leads from a real page to a real page. */
  lemma EnabledButtonsStayOnPages(currentPage: int, totalPages: int)
    requires 1 <= currentPage <= totalPages
    ensures !PrevDisabled(currentPage) ==> 1 <= currentPage - 1 <= totalPages
    ensures !NextDisabled(currentPage, totalPages) ==> 1 <= currentPage + 1 <= totalPages
    ensures totalPages > 1 ==> !PrevDisabled(currentPage) || !NextDisabled(currentPage, totalPages)
  {
  }

  /** The buttons are disabled exactly when the listing says there is no previous or next page. */
  lemma ButtonsAgreeWithListing(page: int, limit: int, total: nat)
    requires limit >= 1
    ensures var r := Paginate(page, limit, total);
            r.Some? ==>
              && (PrevDisabled(r.value.currentPage) <==> !r.value.hasPrevPage)
              && (NextDisabled(r.value.currentPage, r.value.totalPages) <==> !r.value.hasNextPage)
  {
  }
}
