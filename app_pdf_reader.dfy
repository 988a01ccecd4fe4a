/**
 * The newer application's PDF page controller: the page shown (unset until the
 * document is ready), a one-shot choice of the start page from the saved
 * progress, clamped navigation from buttons, keys and swipes, a validated jump,
 * bookmark membership of the shown page and the debounced progress write.
 * React's effects are run explicitly after each change: an effect re-runs only
 * when one of its dependencies changed.
 */
module AppPdfReader {
  import opened Wrappers
  import Js
  import Pages
  import Debounce
  import Swipe
  import opened Bookmarks

  /** The progress live query: no result yet, or its result (the saved location, if any). */
  datatype ProgressQuery = Pending | Settled(location: Option<string>)

  /** `progress?.location` as the component sees it: nothing while pending, as with no saved row. */
  function VisibleLocation(q: ProgressQuery): (r: Option<string>)
    ensures q.Pending? ==> r.None?
    ensures q.Settled? ==> r == q.location
  {
    if q.Settled? then q.location else None
  }

  /**
   * The start-page decision of the initial-page effect as written: it fires as soon
   * as the document is there and no page was chosen yet, reading the location the
   * component sees, which is absent while the progress query is still pending.
   */
  function InitialPageAsWritten(docReady: bool, initialPageSet: bool, q: ProgressQuery, numPages: nat): (r: Option<int>)
    ensures r.Some? <==> docReady && !initialPageSet
    ensures r.Some? ==> r.value == Pages.StartPage(VisibleLocation(q), numPages)
  {
    if !docReady || initialPageSet then None else Some(Pages.StartPage(VisibleLocation(q), numPages))
  }

  /** The corrected decision: the effect also waits for the progress query's result. */
  function InitialPage(docReady: bool, initialPageSet: bool, q: ProgressQuery, numPages: nat): (r: Option<int>)
    ensures r.Some? <==> docReady && !initialPageSet && q.Settled?
    ensures r.Some? ==> r.value == Pages.StartPage(q.location, numPages)
  {
    if !docReady || initialPageSet || q.Pending? then None else Some(Pages.StartPage(q.location, numPages))
  }

  /**
   * As written, a document that is ready before the progress query answers (a
   * reopened book whose parsed document is still cached) opens at page 1, and the
   * saved page that arrives next is ignored: the choice was already made.
   */
  lemma DocumentBeforeProgressOpensAtPageOne()
    ensures InitialPageAsWritten(true, false, Pending, 10) == Some(1)
    ensures InitialPageAsWritten(true, true, Settled(Some("5")), 10) == None
    ensures InitialPage(true, false, Pending, 10) == None
    ensures InitialPage(true, false, Settled(Some("5")), 10) == Some(5)
  {
    assert Js.IntToString(5) == "5";
    Pages.StartPageRestoresSavedPage(5, 10);
  }

  /** Once the query answered, both decisions agree. */
  lemma {:induction false} DecisionsAgreeOnceSettled(docReady: bool, initialPageSet: bool, location: Option<string>, numPages: nat)
    ensures InitialPage(docReady, initialPageSet, Settled(location), numPages) ==
            InitialPageAsWritten(docReady, initialPageSet, Settled(location), numPages)
  {
  }

  class PdfReader {
    var docReady: bool
    var failed: bool
    var numPages: nat
    var progress: ProgressQuery
    var initialPageSet: bool
    var currentPage: Option<int>
    var showSidebar: bool
    var bookmarks: seq<Bookmark>
    var saveTimer: Debounce.Timer<Pages.Write>
    var saveDeps: (Option<int>, nat)

    /** The page facts every handler keeps. */
    predicate PageInvariant()
      reads this
    {
      (initialPageSet ==> docReady && currentPage.Some?) &&
      (!docReady ==> numPages == 0) &&
      (docReady && progress.Settled? ==> initialPageSet) &&
      (initialPageSet && numPages >= 1 ==> 1 <= currentPage.value <= numPages)
    }

    /** A pending write is the one the save effect scheduled for its last dependencies. */
    predicate TimerMatchesDeps()
      reads this
    {
      saveTimer.Armed? ==> Pages.SaveRequest(saveDeps.0, saveDeps.1) == Some(saveTimer.payload)
    }

    predicate Valid()
      reads this
    {
      PageInvariant() && TimerMatchesDeps() && saveDeps == (currentPage, numPages)
    }

    /** After the effects: the timer was re-armed when page or page count changed, and kept otherwise. */
    predicate Rescheduled(prevTimer: Debounce.Timer<Pages.Write>, prevPage: Option<int>, prevNumPages: nat, now: int)
      reads this
    {
      saveTimer == if (currentPage, numPages) != (prevPage, prevNumPages)
                   then Debounce.Rearm(Pages.SaveRequest(currentPage, numPages), now)
                   else prevTimer
    }

    /** Mounting: no document, no page, nothing pending. */
    constructor()
      ensures Valid()
      ensures !docReady && !failed && numPages == 0 && progress == Pending && !initialPageSet
      ensures currentPage == None && !showSidebar && bookmarks == [] && saveTimer == Debounce.Idle
    {
      docReady, failed, numPages, progress, initialPageSet := false, false, 0, Pending, false;
      currentPage, showSidebar, bookmarks, saveTimer := None, false, [], Debounce.Idle;
      saveDeps := (None, 0);
    }

    /** The effects after a render: the initial-page effect, then the save effect. */
    method RunEffects(now: int)
      requires initialPageSet ==> docReady && currentPage.Some?
      requires !docReady ==> numPages == 0
      requires initialPageSet && numPages >= 1 ==> 1 <= currentPage.value <= numPages
      requires TimerMatchesDeps()
      modifies this`currentPage, this`initialPageSet, this`saveTimer, this`saveDeps
      ensures Valid()
      ensures var start := InitialPage(docReady, old(initialPageSet), progress, numPages);
              currentPage == (if start.Some? then start else old(currentPage)) &&
              initialPageSet == (old(initialPageSet) || start.Some?)
      ensures saveTimer == if (currentPage, numPages) != old(saveDeps)
                           then Debounce.Rearm(Pages.SaveRequest(currentPage, numPages), now)
                           else old(saveTimer)
    {
      var start := InitialPage(docReady, initialPageSet, progress, numPages);
      if start.Some? {
        currentPage := start;
        initialPageSet := true;
      }
      if (currentPage, numPages) != saveDeps {
        saveTimer := Debounce.Rearm(Pages.SaveRequest(currentPage, numPages), now);
        saveDeps := (currentPage, numPages);
      }
    }

    /** The parsed document arrives with `n` pages. */
    method DocumentLoaded(n: nat, now: int)
      requires Valid() && !docReady && !failed
      modifies this
      ensures Valid()
      ensures docReady && numPages == n && !failed && progress == old(progress)
      ensures showSidebar == old(showSidebar) && bookmarks == old(bookmarks)
      ensures var start := InitialPage(true, old(initialPageSet), progress, n);
              currentPage == (if start.Some? then start else old(currentPage)) &&
              initialPageSet == (old(initialPageSet) || start.Some?)
      ensures Rescheduled(old(saveTimer), old(currentPage), old(numPages), now)
    {
      docReady := true;
      numPages := n;
      RunEffects(now);
    }

    /** The document could not be loaded: the error screen replaces the reader. */
    method DocumentFailed()
      requires Valid() && !docReady
      modifies this`failed
      ensures Valid() && failed
    {
      failed := true;
    }

    /**
     * The progress query yields `location` (first answer or a later change). Once the
     * start page was chosen, no answer moves the page.
     */
    method ProgressChanged(location: Option<string>, now: int)
      requires Valid()
      modifies this
      ensures Valid()
      ensures progress == Settled(location)
      ensures docReady == old(docReady) && numPages == old(numPages) && failed == old(failed)
      ensures showSidebar == old(showSidebar) && bookmarks == old(bookmarks)
      ensures old(initialPageSet) ==> currentPage == old(currentPage) && initialPageSet && saveTimer == old(saveTimer)
      ensures !old(initialPageSet) && docReady ==> initialPageSet && currentPage == Some(Pages.StartPage(location, numPages))
      ensures Rescheduled(old(saveTimer), old(currentPage), old(numPages), now)
    {
      progress := Settled(location);
      RunEffects(now);
    }

    /** The bookmark query yields a new list. */
    method BookmarksChanged(list: seq<Bookmark>)
      requires Valid()
      modifies this`bookmarks
      ensures Valid() && bookmarks == list
    {
      bookmarks := list;
    }

    /** A page change made by a handler, followed by the effects. */
    method SetPage(page: int, now: int)
      requires Valid()
      requires initialPageSet && numPages >= 1 ==> 1 <= page <= numPages
      modifies this`currentPage, this`initialPageSet, this`saveTimer, this`saveDeps
      ensures Valid()
      ensures currentPage == Some(page) && initialPageSet == old(initialPageSet)
      ensures Rescheduled(old(saveTimer), old(currentPage), numPages, now)
    {
      currentPage := Some(page);
      RunEffects(now);
    }

    /** `goToPrev`. */
    method GoToPrev(now: int)
      requires Valid()
      modifies this`currentPage, this`initialPageSet, this`saveTimer, this`saveDeps
      ensures Valid()
      ensures currentPage == Some(Pages.PrevPage(old(currentPage))) && initialPageSet == old(initialPageSet)
      ensures Rescheduled(old(saveTimer), old(currentPage), numPages, now)
    {
      SetPage(Pages.PrevPage(currentPage), now);
    }

    /** `goToNext`. */
    method GoToNext(now: int)
      requires Valid()
      modifies this`currentPage, this`initialPageSet, this`saveTimer, this`saveDeps
      ensures Valid()
      ensures currentPage == Some(Pages.NextPage(old(currentPage), numPages)) && initialPageSet == old(initialPageSet)
      ensures Rescheduled(old(saveTimer), old(currentPage), numPages, now)
    {
      SetPage(Pages.NextPage(currentPage, numPages), now);
    }

    /** `goToPage(text)`: a page of the document is shown and the sidebar closes; anything else changes nothing. */
    method GoToPage(text: string, now: int)
      requires Valid()
      modifies this`currentPage, this`initialPageSet, this`saveTimer, this`saveDeps, this`showSidebar
      ensures Valid()
      ensures Pages.JumpTarget(text, numPages).None? ==>
        currentPage == old(currentPage) && showSidebar == old(showSidebar) && saveTimer == old(saveTimer)
      ensures Pages.JumpTarget(text, numPages).Some? ==>
        currentPage == Pages.JumpTarget(text, numPages) && !showSidebar
      ensures initialPageSet == old(initialPageSet)
      ensures Rescheduled(old(saveTimer), old(currentPage), numPages, now)
    {
      var target := Pages.JumpTarget(text, numPages);
      if target.None? {
        return;
      }
      JumpTo(target.value, now);
    }

    /** The accepted branch of `goToPage`: the page is shown and the sidebar closes. */
    method JumpTo(page: int, now: int)
      requires Valid() && 1 <= page <= numPages
      modifies this`currentPage, this`initialPageSet, this`saveTimer, this`saveDeps, this`showSidebar
      ensures Valid()
      ensures currentPage == Some(page) && !showSidebar && initialPageSet == old(initialPageSet)
      ensures Rescheduled(old(saveTimer), old(currentPage), numPages, now)
    {
      showSidebar := false;
      SetPage(page, now);
    }

    /** A key press: the listener exists only while the page count is non-zero. */
    method KeyDown(key: string, now: int)
      requires Valid()
      modifies this`currentPage, this`initialPageSet, this`saveTimer, this`saveDeps
      ensures Valid()
      ensures numPages != 0 && (key == "ArrowLeft" || key == "PageUp") ==>
        currentPage == Some(Pages.PrevPage(old(currentPage)))
      ensures numPages != 0 && (key == "ArrowRight" || key == "PageDown") ==>
        currentPage == Some(Pages.NextPage(old(currentPage), numPages))
      ensures numPages == 0 || key !in {"ArrowLeft", "PageUp", "ArrowRight", "PageDown"} ==>
        currentPage == old(currentPage) && saveTimer == old(saveTimer)
      ensures initialPageSet == old(initialPageSet)
      ensures Rescheduled(old(saveTimer), old(currentPage), numPages, now)
    {
      if numPages == 0 {
        return;
      }
      if key == "ArrowLeft" || key == "PageUp" {
        GoToPrev(now);
      } else if key == "ArrowRight" || key == "PageDown" {
        GoToNext(now);
      }
    }

    /** A swipe: left shows the next page, right the previous one. */
    method Swiped(d: Swipe.Direction, now: int)
      requires Valid()
      modifies this`currentPage, this`initialPageSet, this`saveTimer, this`saveDeps
      ensures Valid()
      ensures d == Swipe.Left ==> currentPage == Some(Pages.NextPage(old(currentPage), numPages))
      ensures d == Swipe.Right ==> currentPage == Some(Pages.PrevPage(old(currentPage)))
      ensures Rescheduled(old(saveTimer), old(currentPage), numPages, now)
    {
      if d == Swipe.Left {
        GoToNext(now);
      } else {
        GoToPrev(now);
      }
    }

    /** The clock reaches `now`: a due write fires once. */
    method Tick(now: int) returns (write: Option<Pages.Write>)
      requires Valid()
      modifies this`saveTimer
      ensures Valid()
      ensures write.Some? <==> old(saveTimer).Armed? && old(saveTimer).deadline <= now
      ensures write.Some? ==> saveTimer == Debounce.Idle && Pages.SaveRequest(currentPage, numPages) == write
      ensures write.None? ==> saveTimer == old(saveTimer)
    {
      var fired := Debounce.Tick(saveTimer, now);
      saveTimer := fired.0;
      write := fired.1;
    }

    /** `percentage`: 0 unless both the page count and the page are set. */
    function Percentage(): (pct: int)
      reads this
      ensures numPages == 0 || Pages.Unset(currentPage) ==> pct == 0
      ensures numPages > 0 && !Pages.Unset(currentPage) ==> pct == Pages.Percent(currentPage.value, numPages)
      ensures Valid() && initialPageSet && numPages > 0 ==> 0 <= pct <= 100
      ensures Valid() && initialPageSet && currentPage == Some(numPages) && numPages > 0 ==> pct == 100
    {
      if numPages > 0 && !Pages.Unset(currentPage) then Pages.Percent(currentPage.value, numPages) else 0
    }

    /** `isCurrentPageBookmarked`. */
    function IsCurrentPageBookmarked(): (b: bool)
      reads this
      ensures Pages.Unset(currentPage) ==> !b
      ensures b ==> exists i :: 0 <= i < |bookmarks| && Js.ParseInt(bookmarks[i].location) == currentPage
    {
      if Pages.Unset(currentPage) then false
      else
        Js.ParseIntOfIntToString(currentPage.value);
        IsBookmarked(bookmarks, Js.IntToString(currentPage.value))
    }

    /** `toggleBookmark`, as the request it makes of the bookmark store; `caption` is the translated label. */
    function ToggleRequest(caption: string): (t: Toggle)
      reads this
      ensures Pages.Unset(currentPage) ==> t == NoChange
      ensures !Pages.Unset(currentPage) ==> t == ToggleAt(bookmarks, Js.IntToString(currentPage.value), caption)
      ensures t.Create? <==> !Pages.Unset(currentPage) && !IsCurrentPageBookmarked()
    {
      if Pages.Unset(currentPage) then NoChange else ToggleAt(bookmarks, Js.IntToString(currentPage.value), caption)
    }

    /** `isLoading`: the document is still loading or no page is chosen yet. */
    function IsLoading(): (b: bool)
      reads this
      ensures !docReady && !failed ==> b
      ensures !b ==> currentPage.Some?
      ensures Valid() && initialPageSet ==> !b
    {
      (!docReady && !failed) || currentPage.None?
    }
  }

  /** Bookmarking a page and then asking about that page finds the bookmark, and no other page does. */
  lemma {:induction false} PageBookmarkIsExact(bms: seq<Bookmark>, page: int, other: int, id: nat, bookId: int, caption: string, now: int)
    requires page != other
    requires !IsBookmarked(bms, Js.IntToString(other))
    ensures IsBookmarked(bms + [Bookmark(id, bookId, Js.IntToString(page), caption, now)], Js.IntToString(page))
    ensures !IsBookmarked(bms + [Bookmark(id, bookId, Js.IntToString(page), caption, now)], Js.IntToString(other))
  {
    var after := bms + [Bookmark(id, bookId, Js.IntToString(page), caption, now)];
    assert after[|bms|].location == Js.IntToString(page);
    Js.IntToStringInjective(page, other);
    forall i | 0 <= i < |after| ensures after[i].location != Js.IntToString(other) {
      if i < |bms| {
        assert after[i] == bms[i];
      }
    }
  }
}
