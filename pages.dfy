/**
 * Page arithmetic shared by the PDF readers: the rounded reading percentage, the
 * clamped previous/next page, the validated jump target and the start page chosen
 * from a saved location string.
 */
module Pages {
  import opened Wrappers
  import Js

  /**
   * `Math.round((page / numPages) * 100)`, in exact arithmetic: the integer nearest
   * to `100 * page / numPages`, halves rounded up (both sides scaled by `2 * numPages`).
   */
  function Percent(page: int, numPages: int): (pct: int)
    requires numPages > 0
    ensures 0 <= page <= numPages ==> 0 <= pct <= 100
    ensures page == numPages ==> pct == 100
  {
    var q := (200 * page + numPages) / (2 * numPages);
    PercentBounds(page, numPages, q);
    q
  }

  /** `Percent` is the integer nearest to `100 * page / numPages`, halves rounded up. */
  lemma PercentIsNearest(page: int, numPages: int)
    requires numPages > 0
    ensures 2 * numPages * Percent(page, numPages) - numPages <= 200 * page < 2 * numPages * Percent(page, numPages) + numPages
  {
    PercentBounds(page, numPages, (200 * page + numPages) / (2 * numPages));
  }

  lemma PercentBounds(page: int, n: int, q: int)
    requires n > 0 && q == (200 * page + n) / (2 * n)
    ensures 2 * n * q - n <= 200 * page < 2 * n * q + n
    ensures 0 <= page <= n ==> 0 <= q <= 100
    ensures page == n ==> q == 100
  {
    var m := (200 * page + n) % (2 * n);
    assert 200 * page + n == (2 * n) * q + m && 0 <= m < 2 * n;
    assert 2 * n * q == (2 * n) * q;
    if 0 <= page <= n {
      // 2n(q - 1/2) <= 200 page <= 200n, so q < 101; and 200 page >= 0 > 2n(q + 1/2) fails for q < 0
      SignOfProduct(n, 2 * q - 201);
      SignOfProduct(n, -(2 * q + 1));
      assert n * (2 * q - 201) == 2 * n * q - 201 * n;
      assert n * (-(2 * q + 1)) == -(2 * n * q) - n;
    }
    if page == n {
      SignOfProduct(n, 2 * q - 201);
      SignOfProduct(n, 199 - 2 * q);
      assert n * (2 * q - 201) == 2 * n * q - 201 * n;
      assert n * (199 - 2 * q) == 199 * n - 2 * n * q;
    }
  }

  /** A product with a positive factor has the other factor's sign. */
  lemma SignOfProduct(n: int, k: int)
    requires n > 0
    ensures k > 0 ==> n * k > 0
    ensures k < 0 ==> n * k < 0
  {
  }

  /** `prev ? Math.max(1, prev - 1) : 1`: an unset or zero page becomes 1. */
  function PrevPage(prev: Option<int>): (p: int)
    ensures prev.None? || prev.value == 0 ==> p == 1
    ensures prev.Some? && prev.value != 0 ==> p == if prev.value - 1 < 1 then 1 else prev.value - 1
    ensures p >= 1
  {
    if prev.None? || prev.value == 0 then 1
    else if prev.value - 1 < 1 then 1 else prev.value - 1
  }

  /** `prev ? Math.min(numPages, prev + 1) : 1`. */
  function NextPage(prev: Option<int>, numPages: int): (p: int)
    ensures prev.None? || prev.value == 0 ==> p == 1
    ensures prev.Some? && prev.value != 0 ==> p == if numPages < prev.value + 1 then numPages else prev.value + 1
  {
    if prev.None? || prev.value == 0 then 1
    else if numPages < prev.value + 1 then numPages else prev.value + 1
  }

  /** Previous and next keep a page inside `[1, numPages]`. */
  lemma {:induction false} NavigationStaysInRange(page: int, numPages: int)
    requires 1 <= page <= numPages
    ensures 1 <= PrevPage(Some(page)) <= numPages && 1 <= NextPage(Some(page), numPages) <= numPages
    ensures PrevPage(Some(page)) == (if page == 1 then 1 else page - 1)
    ensures NextPage(Some(page), numPages) == (if page == numPages then numPages else page + 1)
  {
  }

  /** The jump target of `goToPage(text)`: the parsed integer when it is a page of the document. */
  function JumpTarget(text: string, numPages: int): (r: Option<int>)
    ensures r.Some? <==> Js.ParseInt(text).Some? && 1 <= Js.ParseInt(text).value <= numPages
    ensures r.Some? ==> r.value == Js.ParseInt(text).value
    ensures r.Some? ==> 1 <= r.value <= numPages
  {
    match Js.ParseInt(text)
    case Some(k) => if 1 <= k <= numPages then Some(k) else None
    case None => None
  }

  /**
   * The page the newer reader opens at: the saved location parsed as an integer
   * when it names a page of the document, else page 1. An empty location counts
   * as none.
   */
  function StartPage(saved: Option<string>, numPages: int): (p: int)
    ensures p >= 1
    ensures numPages >= 1 ==> p <= numPages
    ensures saved.Some? && saved.value != [] && JumpTarget(saved.value, numPages).Some? ==>
              p == JumpTarget(saved.value, numPages).value
    ensures saved.None? || saved.value == [] || JumpTarget(saved.value, numPages).None? ==> p == 1
  {
    if saved.Some? && saved.value != [] then
      match JumpTarget(saved.value, numPages)
      case Some(k) => k
      case None => 1
    else 1
  }

  /** Reopening restores the page that was saved as `String(page)`. */
  lemma {:induction false} StartPageRestoresSavedPage(page: int, numPages: int)
    requires 1 <= page <= numPages
    ensures StartPage(Some(Js.IntToString(page)), numPages) == page
  {
    Js.ParseIntOfIntToString(page);
    assert Js.IntToString(page) != [] by {
      Js.ParseIntOfIntToString(page);
    }
  }

  /** A progress write: the location text and the percentage. */
  datatype Write = Write(location: string, percentage: int)

  /** `!currentPage`: unset (or NaN) or 0. */
  predicate Unset(page: Option<int>) {
    page.None? || page.value == 0
  }

  /** What the save effect schedules for these dependencies: nothing unless both page and page count are set. */
  function SaveRequest(page: Option<int>, numPages: nat): (r: Option<Write>)
    ensures r.Some? <==> !Unset(page) && numPages != 0
    ensures r.Some? ==> r.value == Write(Js.IntToString(page.value), Percent(page.value, numPages))
  {
    if Unset(page) || numPages == 0 then None
    else Some(Write(Js.IntToString(page.value), Percent(page.value, numPages)))
  }
}
