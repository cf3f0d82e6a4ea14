/**
 * Pagination of the meal grid (src/components/meal/MealGrid.tsx): the page
 * count, the slice shown for the current page, and the next/previous
 * buttons. The grid only reads its list, so the model is generic in the
 * element type.
 */
module MealGrid {

  /** The page size when the caller passes none. */
  const DefaultItemsPerPage: nat := 6

  /** `Math.ceil(n / perPage)`. */
  function TotalPages(n: nat, perPage: nat): (pages: nat)
    requires perPage > 0
    ensures n <= pages * perPage
    ensures pages == 0 || (pages - 1) * perPage < n
  {
    (n + perPage - 1) / perPage
  }

  /**
   * `s.slice(start, end)` for non-negative bounds: both are clamped to the
   * length, and a start at or past the end gives the empty list.
   */
  function Slice<T>(s: seq<T>, start: nat, end: nat): (r: seq<T>)
    ensures start <= end && end <= |s| ==> r == s[start..end]
    ensures |r| <= end - start || (start >= end && r == [])
    ensures start >= |s| ==> r == []
  {
    var e := if end <= |s| then end else |s|;
    if start >= e then [] else s[start..e]
  }

  /** The meals shown on page `page` (counted from one). */
  function Page<T>(meals: seq<T>, page: nat, perPage: nat): (r: seq<T>)
    requires page >= 1 && perPage > 0
    ensures |r| <= perPage
    ensures page <= TotalPages(|meals|, perPage) ==> |r| > 0
    ensures page > TotalPages(|meals|, perPage) ==> r == []
  {
    PageStartBounds(|meals|, page, perPage);
    Slice(meals, (page - 1) * perPage, page * perPage)
  }

  /** A page within the page count starts inside the list; a later one starts past its end. */
  lemma PageStartBounds(n: nat, page: nat, perPage: nat)
    requires page >= 1 && perPage > 0
    ensures page * perPage - (page - 1) * perPage == perPage
    ensures page <= TotalPages(n, perPage) ==> (page - 1) * perPage < n
    ensures page > TotalPages(n, perPage) ==> (page - 1) * perPage >= n
  {
    var t := TotalPages(n, perPage);
    if page <= t {
      MulMonotone(page - 1, t - 1, perPage);
    } else {
      MulMonotone(t, page - 1, perPage);
    }
  }

  /** Multiplying by a natural number keeps the order. */
  lemma MulMonotone(a: nat, b: nat, c: nat)
    requires a <= b
    ensures a * c <= b * c
  {
  }

  /** Pages one through `k`, laid end to end. */
  function PagesUpTo<T>(meals: seq<T>, k: nat, perPage: nat): seq<T>
    requires perPage > 0
  {
    if k == 0 then [] else PagesUpTo(meals, k - 1, perPage) + Page(meals, k, perPage)
  }

  /** The smaller of two numbers. */
  function Min(a: nat, b: nat): nat {
    if a <= b then a else b
  }

  /** Page `k` is the stretch of the list between the ends of pages `k - 1` and `k`. */
  lemma PageIsSlice<T>(meals: seq<T>, k: nat, perPage: nat)
    requires k >= 1 && perPage > 0
    ensures Min((k - 1) * perPage, |meals|) <= Min(k * perPage, |meals|)
    ensures Page(meals, k, perPage) == meals[Min((k - 1) * perPage, |meals|)..Min(k * perPage, |meals|)]
  {
    assert (k - 1) * perPage <= k * perPage;
  }

  /** The first `k` pages are exactly the first `k * perPage` meals (or all of them). */
  lemma {:induction false} PagesUpToIsPrefix<T>(meals: seq<T>, k: nat, perPage: nat)
    requires perPage > 0
    ensures PagesUpTo(meals, k, perPage) == meals[..Min(k * perPage, |meals|)]
  {
    if k > 0 {
      PagesUpToIsPrefix(meals, k - 1, perPage);
      PageIsSlice(meals, k, perPage);
      var lo := Min((k - 1) * perPage, |meals|);
      var hi := Min(k * perPage, |meals|);
      assert meals[..hi] == meals[..lo] + meals[lo..hi];
    }
  }

  /** Laying every page end to end reproduces the meal list exactly. */
  lemma PagesCoverMeals<T>(meals: seq<T>, perPage: nat)
    requires perPage > 0
    ensures PagesUpTo(meals, TotalPages(|meals|, perPage), perPage) == meals
  {
    PagesUpToIsPrefix(meals, TotalPages(|meals|, perPage), perPage);
  }

  /** `nextPage`: advance only while a later page exists. */
  function NextPage(page: nat, totalPages: nat): (p: nat)
    ensures page < totalPages ==> p == page + 1
    ensures page >= totalPages ==> p == page
  {
    if page < totalPages then page + 1 else page
  }

  /** `prevPage`: go back only from a page after the first. */
  function PrevPage(page: nat): (p: nat)
    ensures page > 1 ==> p == page - 1
    ensures page <= 1 ==> p == page
  {
    if page > 1 then page - 1 else page
  }

  /** The range the current page stays in: from one up to the page count, or one when there are no pages. */
  predicate PageInRange(page: nat, totalPages: nat) {
    1 <= page <= (if totalPages > 1 then totalPages else 1)
  }

  /** The buttons the grid offers. */
  datatype Click = Next | Prev

  /** The page reached by a sequence of clicks while the meal list stays fixed. */
  function Navigate(page: nat, totalPages: nat, clicks: seq<Click>): nat
    decreases |clicks|
  {
    if |clicks| == 0 then page
    else
      var p := if clicks[0] == Next then NextPage(page, totalPages) else PrevPage(page);
      Navigate(p, totalPages, clicks[1..])
  }

  /** Starting in range (the grid starts on page one), every sequence of clicks stays in range. */
  lemma {:induction false} NavigateStaysInRange(page: nat, totalPages: nat, clicks: seq<Click>)
    requires PageInRange(page, totalPages)
    ensures PageInRange(Navigate(page, totalPages, clicks), totalPages)
    decreases |clicks|
  {
    if |clicks| > 0 {
      var p := if clicks[0] == Next then NextPage(page, totalPages) else PrevPage(page);
      assert PageInRange(p, totalPages);
      NavigateStaysInRange(p, totalPages, clicks[1..]);
    }
  }

  /** The pagination controls are rendered only when there is more than one page: exactly when "next" leaves the first page. */
  function ShowsControls(totalPages: nat): (b: bool)
    ensures b <==> NextPage(1, totalPages) == 2
  {
    totalPages > 1
  }

  /**
   * With a single page (or none) the controls are hidden, and the one page
   * shown holds the whole list.
   */
  lemma SinglePageShowsAll<T>(meals: seq<T>, perPage: nat)
    requires perPage > 0 && !ShowsControls(TotalPages(|meals|, perPage))
    ensures Page(meals, 1, perPage) == meals
  {
  }

  /** The default nine sample meals at six per page make two pages: six, then three. */
  lemma DefaultGridHasTwoPages<T>(meals: seq<T>)
    requires |meals| == 9
    ensures TotalPages(|meals|, DefaultItemsPerPage) == 2
    ensures |Page(meals, 1, DefaultItemsPerPage)| == 6 && |Page(meals, 2, DefaultItemsPerPage)| == 3
  {
  }
}
