/**
 * The older application's PDF page controller. The page is a JavaScript number that
 * starts at 1; `None` stands for NaN, which a failed `parseInt` of the saved location
 * brings in and which `Math.max`/`Math.min` carry along. The start page is set once,
 * by the loader that runs when the document arrives; navigation clamps without a
 * page-count guard, and a bookmark flag is recomputed by an effect.
 */
module SrcPdfReader {
  import opened Wrappers
  import Js
  import Pages
  import Debounce
  import opened Bookmarks

  /** `String(currentPage)`. */
  function PageText(page: Option<int>): (s: string)
    ensures page.Some? ==> s == Js.IntToString(page.value)
    ensures page.None? ==> s == "NaN"
  {
    if page.Some? then Js.IntToString(page.value) else "NaN"
  }

  /** `Math.min(start, numPages)`. */
  function MinPage(start: Option<int>, numPages: int): (r: Option<int>)
    ensures start.None? <==> r.None?
    ensures start.Some? ==> r.value <= numPages && r.value <= start.value && (r.value == numPages || r.value == start.value)
  {
    if start.None? then None else if numPages < start.value then Some(numPages) else start
  }

  /**
   * The loader's start page for the progress it sees: the saved location parsed as an
   * integer (NaN when it does not parse; 1 when there is no saved location or it is
   * empty), capped at the page count. There is no lower bound.
   */
  function StartPage(saved: Option<string>, numPages: int): (r: Option<int>)
    ensures saved.None? || saved.value == [] ==> r == Some(if numPages < 1 then numPages else 1)
    ensures saved.Some? && saved.value != [] ==> r == MinPage(Js.ParseInt(saved.value), numPages)
  {
    if saved.None? || saved.value == [] then MinPage(Some(1), numPages)
    else MinPage(Js.ParseInt(saved.value), numPages)
  }

  /** A page written as `String(page)` is the start page when it lies in `[1, numPages]`. */
  lemma {:induction false} StartPageRestoresSavedPage(page: int, numPages: int)
    requires 1 <= page <= numPages
    ensures StartPage(Some(Js.IntToString(page)), numPages) == Some(page)
  {
    Js.ParseIntOfIntToString(page);
  }

  /** With no lower bound, a saved "-3" opens at page -3. */
  lemma NoLowerBound()
    ensures StartPage(Some("-3"), 10) == Some(-3)
  {
    assert Js.NatToString(3) == "3";
    assert Js.IntToString(-3) == "-3";
    Js.ParseIntOfIntToString(-3);
  }

  /**
   * The loader as written reads `progress` from the closure of the render that mounted
   * the reader. The progress hook starts with no progress, so that is always none and
   * the start page is `min(1, numPages)`, whatever `saved` holds when the document arrives.
   */
  function StartPageAsWritten(saved: Option<string>, numPages: int): (r: Option<int>)
    ensures r == Some(if numPages < 1 then numPages else 1)
  {
    var mountProgress: Option<string> := None;
    StartPage(mountProgress, numPages)
  }

  /** A book saved at page 5 of 10 reopens at page 1 as written, and at page 5 with the current progress. */
  lemma SavedPageIsLostAsWritten()
    ensures StartPageAsWritten(Some("5"), 10) == Some(1)
    ensures StartPage(Some("5"), 10) == Some(5)
  {
    StartPageRestoresSavedPage(5, 10);
    assert Js.IntToString(5) == "5";
  }

  /** `prev => Math.max(1, prev - 1)`. */
  function PrevPage(prev: Option<int>): (r: Option<int>)
    ensures prev.None? <==> r.None?
    ensures prev.Some? ==> r.value == if prev.value - 1 < 1 then 1 else prev.value - 1
  {
    if prev.None? then None else if prev.value - 1 < 1 then Some(1) else Some(prev.value - 1)
  }

  /** `prev => Math.min(numPages, prev + 1)`. */
  function NextPage(prev: Option<int>, numPages: int): (r: Option<int>)
    ensures prev.None? <==> r.None?
    ensures prev.Some? ==> r.value == if numPages < prev.value + 1 then numPages else prev.value + 1
  {
    if prev.None? then None else if numPages < prev.value + 1 then Some(numPages) else Some(prev.value + 1)
  }

  /** Inside the document, previous and next stay inside it, and agree with the newer reader. */
  lemma {:induction false} NavigationStaysInRange(page: int, numPages: int)
    requires 1 <= page <= numPages
    ensures PrevPage(Some(page)) == Some(Pages.PrevPage(Some(page)))
    ensures NextPage(Some(page), numPages) == Some(Pages.NextPage(Some(page), numPages))
    ensures 1 <= PrevPage(Some(page)).value <= numPages && 1 <= NextPage(Some(page), numPages).value <= numPages
  {
    Pages.NavigationStaysInRange(page, numPages);
  }

  class PdfReader {
    var loading: bool
    var numPages: nat
    var currentPage: Option<int>
    var showSidebar: bool
    var savedLocation: Option<string>
    var bookmarks: seq<Bookmark>
    var pageBookmarked: bool
    var saveTimer: Debounce.Timer<Pages.Write>
    var saveDeps: (Option<int>, nat)

    /** The bookmark flag and the pending write are those the effects computed for the current state. */
    predicate Valid()
      reads this
    {
      pageBookmarked == IsBookmarked(bookmarks, PageText(currentPage)) &&
      saveDeps == (currentPage, numPages) &&
      (saveTimer.Armed? ==> Pages.SaveRequest(currentPage, numPages) == Some(saveTimer.payload))
    }

    /** The timer after the effects: re-armed when page or page count changed, kept otherwise. */
    predicate Rescheduled(prevTimer: Debounce.Timer<Pages.Write>, prevPage: Option<int>, prevNumPages: nat, now: int)
      reads this
    {
      saveTimer == if (currentPage, numPages) != (prevPage, prevNumPages)
                   then Debounce.Rearm(Pages.SaveRequest(currentPage, numPages), now)
                   else prevTimer
    }

    /** Mounting: loading, page 1 of 0, no bookmarks, nothing pending. */
    constructor()
      ensures Valid()
      ensures loading && numPages == 0 && currentPage == Some(1) && !showSidebar
      ensures savedLocation == None && bookmarks == [] && !pageBookmarked && saveTimer == Debounce.Idle
    {
      loading, numPages, currentPage, showSidebar := true, 0, Some(1), false;
      savedLocation, bookmarks, pageBookmarked := None, [], false;
      saveTimer, saveDeps := Debounce.Idle, (Some(1), 0);
    }

    /** The bookmark effect and the save effect after a render. */
    method RunEffects(now: int)
      requires saveTimer.Armed? ==> Pages.SaveRequest(saveDeps.0, saveDeps.1) == Some(saveTimer.payload)
      modifies this`pageBookmarked, this`saveTimer, this`saveDeps
      ensures Valid()
      ensures saveTimer == if (currentPage, numPages) != old(saveDeps)
                           then Debounce.Rearm(Pages.SaveRequest(currentPage, numPages), now)
                           else old(saveTimer)
    {
      pageBookmarked := IsBookmarked(bookmarks, PageText(currentPage));
      if (currentPage, numPages) != saveDeps {
        saveTimer := Debounce.Rearm(Pages.SaveRequest(currentPage, numPages), now);
        saveDeps := (currentPage, numPages);
      }
    }

    /**
     * The document is parsed with `n` pages: the loader sets the page count and awaits the
     * outline. That render runs the effects with the page still at its initial value, so
     * the save is re-armed for that page before any start page is chosen.
     */
    method PageCountKnown(n: nat, now: int)
      requires Valid()
      modifies this`numPages, this`pageBookmarked, this`saveTimer, this`saveDeps
      ensures Valid()
      ensures numPages == n && currentPage == old(currentPage) && loading == old(loading)
      ensures Rescheduled(old(saveTimer), old(currentPage), old(numPages), now)
      ensures old(currentPage) == Some(1) && n > 0 && n != old(numPages) ==>
                saveTimer == Debounce.Armed(Pages.Write("1", Pages.Percent(1, n)), now + Debounce.QuietPeriod)
    {
      numPages := n;
      RunEffects(now);
    }

    /**
     * The outline is settled: the loader sets the start page from the progress the hook
     * holds now, and loading ends. A later progress change does not move the page.
     */
    method DocumentLoaded(now: int)
      requires Valid()
      modifies this`currentPage, this`loading, this`pageBookmarked, this`saveTimer, this`saveDeps
      ensures Valid()
      ensures !loading && currentPage == StartPage(savedLocation, numPages) && numPages == old(numPages)
      ensures savedLocation == old(savedLocation) && bookmarks == old(bookmarks) && showSidebar == old(showSidebar)
      ensures Rescheduled(old(saveTimer), old(currentPage), old(numPages), now)
    {
      ShowDocument(StartPage(savedLocation, numPages), now);
    }

    /** The loader's last state updates once the start page is known, followed by the effects. */
    method ShowDocument(start: Option<int>, now: int)
      requires Valid()
      modifies this`currentPage, this`loading, this`pageBookmarked, this`saveTimer, this`saveDeps
      ensures Valid()
      ensures !loading && currentPage == start && numPages == old(numPages)
      ensures Rescheduled(old(saveTimer), old(currentPage), old(numPages), now)
    {
      currentPage, loading := start, false;
      RunEffects(now);
    }

    /** The document could not be opened: loading ends, nothing else changes. */
    method DocumentFailed()
      requires Valid()
      modifies this`loading
      ensures Valid() && !loading
    {
      loading := false;
    }

    /** The progress hook's value changes; no effect depends on it, so the page stays. */
    method ProgressChanged(location: Option<string>)
      requires Valid()
      modifies this`savedLocation
      ensures Valid() && savedLocation == location
    {
      savedLocation := location;
    }

    /** The bookmark list changes; the flag follows. */
    method BookmarksChanged(list: seq<Bookmark>, now: int)
      requires Valid()
      modifies this`bookmarks, this`pageBookmarked, this`saveTimer, this`saveDeps
      ensures Valid() && bookmarks == list && saveTimer == old(saveTimer)
      ensures pageBookmarked == IsBookmarked(list, PageText(currentPage))
    {
      bookmarks := list;
      RunEffects(now);
    }

    /** A page change by a handler, followed by the effects. */
    method SetPage(page: Option<int>, now: int)
      requires Valid()
      modifies this`currentPage, this`pageBookmarked, this`saveTimer, this`saveDeps
      ensures Valid() && currentPage == page
      ensures Rescheduled(old(saveTimer), old(currentPage), numPages, now)
    {
      currentPage := page;
      RunEffects(now);
    }

    /** `goToPrev`, also ArrowLeft and PageUp. */
    method GoToPrev(now: int)
      requires Valid()
      modifies this`currentPage, this`pageBookmarked, this`saveTimer, this`saveDeps
      ensures Valid() && currentPage == PrevPage(old(currentPage))
      ensures Rescheduled(old(saveTimer), old(currentPage), numPages, now)
    {
      SetPage(PrevPage(currentPage), now);
    }

    /** `goToNext`, also ArrowRight and PageDown. */
    method GoToNext(now: int)
      requires Valid()
      modifies this`currentPage, this`pageBookmarked, this`saveTimer, this`saveDeps
      ensures Valid() && currentPage == NextPage(old(currentPage), numPages)
      ensures Rescheduled(old(saveTimer), old(currentPage), numPages, now)
    {
      SetPage(NextPage(currentPage, numPages), now);
    }

    /** `goToPage(text)`: only a page of the document is accepted, and the sidebar then closes. */
    method GoToPage(text: string, now: int)
      requires Valid()
      modifies this`currentPage, this`pageBookmarked, this`saveTimer, this`saveDeps, this`showSidebar
      ensures Valid()
      ensures Pages.JumpTarget(text, numPages).None? ==>
        currentPage == old(currentPage) && showSidebar == old(showSidebar) && saveTimer == old(saveTimer)
      ensures Pages.JumpTarget(text, numPages).Some? ==>
        currentPage == Pages.JumpTarget(text, numPages) && !showSidebar
      ensures Rescheduled(old(saveTimer), old(currentPage), numPages, now)
    {
      var target := Pages.JumpTarget(text, numPages);
      if target.Some? {
        SetPage(target, now);
        showSidebar := false;
      }
    }

    /** A key press; the listener is there whatever the page count. */
    method KeyDown(key: string, now: int)
      requires Valid()
      modifies this`currentPage, this`pageBookmarked, this`saveTimer, this`saveDeps
      ensures Valid()
      ensures key == "ArrowLeft" || key == "PageUp" ==> currentPage == PrevPage(old(currentPage))
      ensures key == "ArrowRight" || key == "PageDown" ==> currentPage == NextPage(old(currentPage), numPages)
      ensures key !in {"ArrowLeft", "PageUp", "ArrowRight", "PageDown"} ==>
        currentPage == old(currentPage) && saveTimer == old(saveTimer)
      ensures Rescheduled(old(saveTimer), old(currentPage), numPages, now)
    {
      if key == "ArrowLeft" || key == "PageUp" {
        GoToPrev(now);
      } else if key == "ArrowRight" || key == "PageDown" {
        GoToNext(now);
      }
    }

    /** The clock reaches `now`: a due write fires once. */
    method Tick(now: int) returns (write: Option<Pages.Write>)
      requires Valid()
      modifies this`saveTimer
      ensures Valid()
      ensures write.Some? <==> old(saveTimer).Armed? && old(saveTimer).deadline <= now
      ensures write.Some? ==> saveTimer == Debounce.Idle && Pages.SaveRequest(currentPage, numPages) == write
      ensures write.None? ==> saveTimer == old(saveTimer)
    {
      var fired := Debounce.Tick(saveTimer, now);
      saveTimer := fired.0;
      write := fired.1;
    }

    /**
     * `toggleBookmark`, as the request it makes: it reads the effect-maintained flag, and when
     * that is set removes the first match if it has an id.
     */
    function ToggleRequest(): (t: Toggle)
      reads this
      requires Valid()
      ensures t == ToggleAt(bookmarks, PageText(currentPage), "Page " + PageText(currentPage))
      ensures t.Create? <==> !IsBookmarked(bookmarks, PageText(currentPage))
    {
      if !pageBookmarked then Create(PageText(currentPage), "Page " + PageText(currentPage))
      else ToggleAt(bookmarks, PageText(currentPage), "Page " + PageText(currentPage))
    }

    /** `percentage`: NaN (`None`) when the page is NaN and the count is set; 0 when the count is 0. */
    function Percentage(): (pct: Option<int>)
      reads this
      ensures numPages == 0 ==> pct == Some(0)
      ensures numPages > 0 && currentPage.None? ==> pct.None?
      ensures numPages > 0 && currentPage.Some? ==> pct == Some(Pages.Percent(currentPage.value, numPages))
      ensures numPages > 0 && currentPage.Some? && 1 <= currentPage.value <= numPages ==> 0 <= pct.value <= 100
      ensures numPages > 0 && currentPage == Some(numPages) ==> pct == Some(100)
    {
      if numPages == 0 then Some(0)
      else if currentPage.None? then None
      else Some(Pages.Percent(currentPage.value, numPages))
    }
  }
}
