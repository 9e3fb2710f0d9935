/**
 * The catalog page's pagination: the list of products last received from
 * the server, the current page number, and the operations that move
 * between pages, render one page and describe the pager.
 *
 * The page number is not re-clamped when a reload replaces the list, so a
 * reload that shrinks the list can leave the page beyond the last one; the
 * model keeps that behaviour.
 */
module Catalog {
  import opened Wrappers
  import opened Models

  /** `itemsPerPage`. */
  const ItemsPerPage: nat := 10

  /** `Math.ceil(n / itemsPerPage)`: the fewest pages that hold `n` rows. */
  function TotalPages(n: nat): (t: nat)
    ensures t * ItemsPerPage >= n
    ensures t > 0 ==> (t - 1) * ItemsPerPage < n
    ensures t == 0 <==> n == 0
  {
    (n + ItemsPerPage - 1) / ItemsPerPage
  }

  /** How `Array.prototype.slice` turns an argument into an index of a list of length `n`. */
  function ClampIndex(i: int, n: nat): (k: nat)
    ensures k <= n
  {
    if i < 0 then (if n + i < 0 then 0 else n + i)
    else if i > n then n
    else i
  }

  /**
   * `s.slice(start, end)`: the elements from `start` up to `end` when both
   * lie within the list, and never more than `end - start` of them when
   * `start <= end`. (Negative indices count from the end, so `end < start`
   * can still select elements.)
   */
  function JsSlice<T>(s: seq<T>, start: int, end: int): (r: seq<T>)
    ensures |r| <= |s|
    ensures 0 <= start <= end <= |s| ==> r == s[start..end]
    ensures start <= end ==> |r| <= end - start
  {
    var lo := ClampIndex(start, |s|);
    var hi := ClampIndex(end, |s|);
    ClampSpread(start, end, |s|);
    if lo < hi then s[lo..hi] else []
  }

  /** Clamping never moves two ordered indices further apart. */
  lemma {:induction false} ClampSpread(i: int, j: int, n: nat)
    ensures i <= j ==> ClampIndex(j, n) - ClampIndex(i, n) <= j - i
  {
  }

  /** The rows `renderProducts` shows for `page`: never more than ten. */
  function PageRows<T>(s: seq<T>, page: int): (r: seq<T>)
    ensures |r| <= ItemsPerPage
  {
    var startIndex := (page - 1) * ItemsPerPage;
    var endIndex := startIndex + ItemsPerPage;
    JsSlice(s, startIndex, endIndex)
  }

  /**
   * Page `p` shows the rows from `(p - 1) * 10` up to `p * 10`, cut at the
   * end of the list; it is empty exactly when `p` is past the last page.
   */
  lemma {:induction false} PageRowsWindow<T>(s: seq<T>, page: int)
    requires page >= 1
    ensures (page - 1) * ItemsPerPage <= |s| ==>
              PageRows(s, page) == s[(page - 1) * ItemsPerPage .. Min(page * ItemsPerPage, |s|)]
    ensures |PageRows(s, page)| <= ItemsPerPage
    ensures PageRows(s, page) == [] <==> page > TotalPages(|s|)
  {
  }

  /** Pages 1 to `count`, one after the other. */
  function FirstPages<T>(s: seq<T>, count: nat): seq<T> {
    if count == 0 then [] else FirstPages(s, count - 1) + PageRows(s, count)
  }

  lemma {:induction false} FirstPagesArePrefix<T>(s: seq<T>, count: nat)
    ensures FirstPages(s, count) == s[..Min(count * ItemsPerPage, |s|)]
  {
    if count > 0 {
      FirstPagesArePrefix(s, count - 1);
      PageRowsWindow(s, count);
      var a := Min((count - 1) * ItemsPerPage, |s|);
      var b := Min(count * ItemsPerPage, |s|);
      if (count - 1) * ItemsPerPage <= |s| {
        assert s[..a] + s[a..b] == s[..b];
      } else {
        assert PageRows(s, count) == [];
      }
    }
  }

  /**
   * Turning through every page from the first to the last shows each row of
   * the list exactly once, in list order.
   */
  lemma {:induction false} AllPagesShowTheList<T>(s: seq<T>)
    ensures FirstPages(s, TotalPages(|s|)) == s
  {
    FirstPagesArePrefix(s, TotalPages(|s|));
  }

  /** The guard of `changePage`: the new page is a real page. */
  predicate CanTurn(page: int, delta: int, n: nat) {
    1 <= page + delta <= TotalPages(n)
  }

  /** What the table body shows: the rows of the page, or the "not found" banner. */
  datatype PageView = Rows(rows: seq<Product>) | NotFound

  /** The pager: the "page X of Y" text and the two button states. */
  datatype PagerState = PagerState(displayPage: int, totalPages: nat, prevDisabled: bool, nextDisabled: bool)

  /** The values of the four filter inputs, sent with each reload. */
  datatype FilterInputs = FilterInputs(category: string, minPrice: string, maxPrice: string, sortBy: string)

  const NoFilters := FilterInputs("", "", "", "")

  class CatalogPage {
    var currentPage: int
    var filteredProducts: seq<Product>
    var filters: FilterInputs

    /** The page number never drops below 1. */
    ghost predicate Valid()
      reads this
    {
      currentPage >= 1
    }

    /** The page as first loaded: page 1 of an empty list. */
    constructor (inputs: FilterInputs)
      ensures Valid()
      ensures currentPage == 1 && filteredProducts == [] && filters == inputs
    {
      currentPage := 1;
      filteredProducts := [];
      filters := inputs;
    }

    /**
     * `loadProducts` once the response is in: a successful response replaces
     * the list wholesale, a failed one leaves it; the page number is kept
     * either way.
     */
    method LoadProducts(response: Option<seq<Product>>)
      requires Valid()
      modifies this`filteredProducts
      ensures Valid()
      ensures filteredProducts == if response.Some? then response.value else old(filteredProducts)
    {
      if response.Some? {
        filteredProducts := response.value;
      }
    }

    /**
     * `renderProducts`: the rows of the current page, at most ten, or the
     * "not found" banner exactly when the current page holds no row.
     */
    method RenderProducts() returns (view: PageView)
      requires Valid()
      ensures view == NotFound <==> currentPage > TotalPages(|filteredProducts|)
      ensures view.Rows? ==>
                && 1 <= |view.rows| <= ItemsPerPage
                && view.rows == filteredProducts[(currentPage - 1) * ItemsPerPage
                                                 .. Min(currentPage * ItemsPerPage, |filteredProducts|)]
    {
      var startIndex := (currentPage - 1) * ItemsPerPage;
      var endIndex := startIndex + ItemsPerPage;
      var pageProducts := JsSlice(filteredProducts, startIndex, endIndex);
      PageRowsWindow(filteredProducts, currentPage);
      if |pageProducts| == 0 {
        view := NotFound;
      } else {
        view := Rows(pageProducts);
      }
    }

    /**
     * `updatePagination`: page 0 is displayed exactly when there are no
     * pages; "Next" is disabled exactly when `changePage(1)` would not move;
     * "Prev" is disabled exactly on page 1, and then `changePage(-1)` would
     * not move either.
     */
    method UpdatePagination() returns (pager: PagerState)
      requires Valid()
      ensures pager.totalPages == TotalPages(|filteredProducts|)
      ensures pager.displayPage == 0 <==> pager.totalPages == 0
      ensures pager.totalPages > 0 ==> pager.displayPage == currentPage
      ensures pager.prevDisabled <==> currentPage == 1
      ensures pager.prevDisabled ==> !CanTurn(currentPage, -1, |filteredProducts|)
      ensures pager.nextDisabled <==> !CanTurn(currentPage, 1, |filteredProducts|)
    {
      var totalPages := TotalPages(|filteredProducts|);
      var displayPage := if totalPages == 0 then 0 else currentPage;
      pager := PagerState(displayPage, totalPages, currentPage <= 1,
                          currentPage >= totalPages || totalPages == 0);
    }

    /**
     * `changePage(delta)`: moves to `currentPage + delta` when that is a
     * page of the list, and otherwise changes nothing.
     */
    method ChangePage(delta: int) returns (moved: bool)
      requires Valid()
      modifies this`currentPage
      ensures Valid()
      ensures moved == CanTurn(old(currentPage), delta, |filteredProducts|)
      ensures currentPage == if moved then old(currentPage) + delta else old(currentPage)
      ensures moved ==> 1 <= currentPage <= TotalPages(|filteredProducts|)
    {
      var newPage := currentPage + delta;
      var totalPages := TotalPages(|filteredProducts|);
      moved := newPage >= 1 && newPage <= totalPages;
      if moved {
        currentPage := newPage;
      }
    }

    /** `applyFilters`: back to page 1; the reload then arrives through `LoadProducts`. */
    method ApplyFilters()
      modifies this`currentPage
      ensures Valid() && currentPage == 1
    {
      currentPage := 1;
    }

    /** `resetFilters`: all four filter inputs cleared and back to page 1. */
    method ResetFilters()
      modifies this`currentPage, this`filters
      ensures Valid() && currentPage == 1 && filters == NoFilters
    {
      filters := NoFilters;
      currentPage := 1;
    }
  }

  /**
   * Thirty rows make three pages; stepping forward stops at page 3. A reload
   * that returns five rows keeps page 3, so the table shows the "not found"
   * banner, the pager reads "3 of 1", and "Prev" is enabled but does not move.
   */
  method ShrinkingReloadStrandsThePage(rows: seq<Product>) returns (view: PageView, pager: PagerState, backed: bool)
    requires |rows| == 30
    ensures view == NotFound
    ensures pager == PagerState(3, 1, false, true)
    ensures !backed
  {
    var page := new CatalogPage(NoFilters);
    page.LoadProducts(Some(rows));
    var moved := page.ChangePage(1);
    assert moved && page.currentPage == 2;
    moved := page.ChangePage(1);
    assert moved && page.currentPage == 3;
    moved := page.ChangePage(1);
    assert !moved && page.currentPage == 3;
    page.LoadProducts(Some(rows[..5]));
    view := page.RenderProducts();
    pager := page.UpdatePagination();
    backed := page.ChangePage(-1);
  }
}
