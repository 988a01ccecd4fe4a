/**
 * The older application's EPUB reader. Unlike the newer session hook it has no
 * one-shot guard: after the locations are generated it shows the saved location, and
 * every later change of the progress object seeks to the saved location again once
 * locations exist. The rendition's calls are appended to `log`.
 */
module SrcEpubReader {
  import opened Wrappers
  import Js
  import Debounce
  import opened Bookmarks
  import EpubReaderHook
  import opened EpubProgress

  /** What a call asks of the rendition. */
  datatype Command =
    | Display(target: Option<string>)
    | Prev
    | Next
    | Theme(body: Option<EpubReaderHook.Colors>, fontSize: string)
    | Destroy

  /** `themes[settings.theme]`: the body colours of the three known themes, nothing for any other name. */
  function ThemeBody(theme: string): (b: Option<EpubReaderHook.Colors>)
    ensures b.Some? <==> theme in {"light", "sepia", "dark"}
    ensures b.Some? ==> b.value == EpubReaderHook.ThemeColors(theme)
  {
    if theme in {"light", "sepia", "dark"} then Some(EpubReaderHook.ThemeColors(theme)) else None
  }

  /** `isCurrentPageBookmarked`: false without a location or with no bookmarks, else an exact match. */
  predicate IsLocationBookmarked(location: Option<string>, bms: seq<Bookmark>) {
    if !HasLocation(location) || |bms| == 0 then false else IsBookmarked(bms, location.value)
  }

  /** The empty-list shortcut changes nothing: the older test is the plain exact match. */
  lemma {:induction false} EmptyListShortcutIsHarmless(location: Option<string>, bms: seq<Bookmark>)
    ensures IsLocationBookmarked(location, bms) <==> HasLocation(location) && IsBookmarked(bms, location.value)
  {
    if |bms| == 0 && HasLocation(location) {
      assert !IsBookmarked(bms, location.value);
    }
  }

  /** The bookmark caption: `Page at P%`. */
  function Caption(percentage: int): (c: string)
    ensures c == "Page at " + Js.IntToString(percentage) + "%"
  {
    "Page at " + Js.IntToString(percentage) + "%"
  }

  /** `toggleBookmark` as the request it makes. */
  function ToggleRequest(location: Option<string>, bms: seq<Bookmark>, percentage: int): (t: Toggle)
    ensures !HasLocation(location) ==> t == NoChange
    ensures HasLocation(location) ==> t == ToggleAt(bms, location.value, Caption(percentage))
    ensures t.Create? <==> HasLocation(location) && !IsLocationBookmarked(location, bms)
  {
    EmptyListShortcutIsHarmless(location, bms);
    if !HasLocation(location) then NoChange
    else if IsLocationBookmarked(location, bms) then ToggleAt(bms, location.value, Caption(percentage))
    else Create(location.value, Caption(percentage))
  }

  /**
   * What the progress effect seeks to: the saved location, when there is one, a
   * rendition, and generated locations.
   */
  function ProgressEffectTarget(saved: Option<string>, hasRendition: bool, locationCount: nat): (t: Option<string>)
    ensures t.Some? <==> HasLocation(saved) && hasRendition && locationCount > 0
    ensures t.Some? ==> t == saved
  {
    if HasLocation(saved) && hasRendition && locationCount > 0 then saved else None
  }

  /**
   * What is shown after the locations are generated, as written: the step reads the
   * progress of the render that mounted the reader, which the progress hook starts as
   * null, so it always shows the start whatever `saved` is by then.
   */
  function GeneratedTargetAsWritten(saved: Option<string>): (t: Option<string>)
    ensures t.None?
  {
    var mountProgress: Option<string> := None;
    EpubReaderHook.RestoreTarget(mountProgress)
  }

  /** The corrected step shows the progress held when the locations are ready. */
  function GeneratedTarget(saved: Option<string>): (t: Option<string>)
    ensures t.Some? <==> HasLocation(saved)
    ensures t.Some? ==> t == saved
  {
    EpubReaderHook.RestoreTarget(saved)
  }

  /**
   * The usual order loses the position as written: the saved progress arrives while the
   * locations are being generated, so the progress effect does not seek, and the step
   * after generation shows the start. The corrected step shows the saved location.
   */
  lemma ProgressBeforeLocationsIsLostAsWritten(saved: string)
    requires saved != ""
    ensures ProgressEffectTarget(Some(saved), true, 0).None?
    ensures GeneratedTargetAsWritten(Some(saved)).None?
    ensures GeneratedTarget(Some(saved)) == Some(saved)
  {
  }

  /**
   * The contrast with the newer session hook: once that hook restored, no location
   * reaches the rendition, while this reader seeks to every saved location it is given.
   */
  lemma {:induction false} ReseeksUnlikeSessionHook(saved: Option<string>, locationsReady: bool, locationCount: nat)
    requires HasLocation(saved) && locationCount > 0
    ensures EpubReaderHook.RestoreDecision(true, true, locationsReady, saved) == EpubReaderHook.Skip
    ensures ProgressEffectTarget(saved, true, locationCount) == saved
  {
  }

  class EpubReader {
    /** Whether the rendition ref is set (at mount, when the initialization effect got past its guard; kept after teardown). */
    var hasRendition: bool
    var listening: bool
    var locationCount: nat
    var isReady: bool
    var toc: seq<EpubReaderHook.TocItem>
    var currentLocation: Option<string>
    var percentage: int
    /** The progress the progress hook holds now. */
    var saved: Option<string>
    var showSidebar: bool
    var bookmarks: seq<Bookmark>
    var saveTimer: Debounce.Timer<Write>
    var saveDeps: (Option<string>, int)
    var themeDeps: (string, int, bool)
    var log: seq<Command>

    predicate Valid()
      reads this
    {
      (listening ==> hasRendition) &&
      saveDeps == (currentLocation, percentage) &&
      (saveTimer.Armed? ==> SaveRequest(saveDeps.0, saveDeps.1) == Some(saveTimer.payload))
    }

    /**
     * Mounting: when the viewer element and the file bytes are both there (`canOpen`), the
     * initialization effect creates the book and rendition and starts listening for keys;
     * otherwise it returns early and neither exists.
     */
    constructor(canOpen: bool, theme: string, fontSize: int)
      ensures Valid() && hasRendition == canOpen && listening == canOpen && locationCount == 0 && !isReady
      ensures toc == [] && currentLocation == None && percentage == 0 && saved == None
      ensures !showSidebar && bookmarks == [] && saveTimer == Debounce.Idle && log == []
    {
      hasRendition, listening, locationCount, isReady := canOpen, canOpen, 0, false;
      toc, currentLocation, percentage, saved := [], None, 0, None;
      showSidebar, bookmarks, saveTimer, saveDeps := false, [], Debounce.Idle, (None, 0);
      themeDeps := (theme, fontSize, false);
      log := [];
    }

    /** The save effect after a render. */
    method SaveEffect(now: int)
      requires saveTimer.Armed? ==> SaveRequest(saveDeps.0, saveDeps.1) == Some(saveTimer.payload)
      requires listening ==> hasRendition
      modifies this`saveTimer, this`saveDeps
      ensures Valid()
      ensures saveTimer == if (currentLocation, percentage) != old(saveDeps)
                           then Debounce.Rearm(SaveRequest(currentLocation, percentage), now)
                           else old(saveTimer)
    {
      if (currentLocation, percentage) != saveDeps {
        saveTimer := Debounce.Rearm(SaveRequest(currentLocation, percentage), now);
        saveDeps := (currentLocation, percentage);
      }
    }

    /** The theme effect: on a change of theme, size or readiness, the theme is applied when ready. */
    method ThemeEffect(theme: string, fontSize: int, accepted: bool)
      requires Valid()
      modifies this`themeDeps, this`log
      ensures Valid() && themeDeps == (theme, fontSize, isReady)
      ensures (theme, fontSize, isReady) != old(themeDeps) && hasRendition && isReady && accepted ==>
                log == old(log) + [Theme(ThemeBody(theme), Js.IntToString(fontSize) + "px")]
      ensures (theme, fontSize, isReady) == old(themeDeps) || !hasRendition || !isReady || !accepted ==>
                log == old(log)
    {
      if (theme, fontSize, isReady) != themeDeps {
        themeDeps := (theme, fontSize, isReady);
        if hasRendition && isReady && accepted {
          log := log + [Theme(ThemeBody(theme), Js.IntToString(fontSize) + "px")];
        }
      }
    }

    /**
     * A new progress object (loaded, or set by a save): seek to its location when the
     * locations exist, whatever was shown before.
     */
    method ProgressChanged(location: Option<string>)
      requires Valid()
      modifies this`saved, this`log
      ensures Valid() && saved == location
      ensures var t := ProgressEffectTarget(location, hasRendition, locationCount);
              log == old(log) + (if t.Some? then [Display(t)] else [])
    {
      saved := location;
      var t := ProgressEffectTarget(location, hasRendition, locationCount);
      if t.Some? {
        log := log + [Display(t)];
      }
    }

    /** The locations are generated (`count` of them); then the saved location or the start is shown. */
    method LocationsGenerated(count: nat)
      requires Valid() && hasRendition
      modifies this`locationCount, this`log
      ensures Valid() && locationCount == count
      ensures log == old(log) + [Display(GeneratedTarget(saved))]
    {
      locationCount := count;
      log := log + [Display(GeneratedTarget(saved))];
    }

    /** The table of contents is loaded. */
    method NavigationLoaded(items: seq<EpubReaderHook.TocItem>)
      requires Valid() && hasRendition
      modifies this`toc
      ensures Valid() && toc == items
    {
      toc := items;
    }

    /** The rendition relocated; the save effect re-runs. */
    method Relocated(cfi: string, fraction: Option<real>, now: int)
      requires Valid() && hasRendition
      modifies this`currentLocation, this`percentage, this`saveTimer, this`saveDeps
      ensures Valid()
      ensures currentLocation == Some(cfi) && percentage == EpubReaderHook.RelocatedPercentage(fraction)
      ensures saveTimer == if (currentLocation, percentage) != old(saveDeps)
                           then Debounce.Rearm(SaveRequest(currentLocation, percentage), now)
                           else old(saveTimer)
    {
      currentLocation := Some(cfi);
      percentage := EpubReaderHook.RelocatedPercentage(fraction);
      SaveEffect(now);
    }

    /** The rendition rendered: ready, and the theme effect re-runs. */
    method Rendered(theme: string, fontSize: int, accepted: bool)
      requires Valid() && hasRendition
      modifies this`isReady, this`themeDeps, this`log
      ensures Valid() && isReady && themeDeps == (theme, fontSize, true)
      ensures old(themeDeps) != (theme, fontSize, true) && accepted ==>
                log == old(log) + [Theme(ThemeBody(theme), Js.IntToString(fontSize) + "px")]
    {
      isReady := true;
      ThemeEffect(theme, fontSize, accepted);
    }

    /** The bookmark list changes. */
    method BookmarksChanged(list: seq<Bookmark>)
      requires Valid()
      modifies this`bookmarks
      ensures Valid() && bookmarks == list
    {
      bookmarks := list;
    }

    /** `goToLocation(cfi)`: with a rendition, seek and close the sidebar; otherwise nothing. */
    method GoToLocation(cfi: string)
      requires Valid()
      modifies this`log, this`showSidebar
      ensures Valid()
      ensures hasRendition ==> log == old(log) + [Display(Some(cfi))] && !showSidebar
      ensures !hasRendition ==> log == old(log) && showSidebar == old(showSidebar)
    {
      if hasRendition {
        log := log + [Display(Some(cfi))];
        showSidebar := false;
      }
    }

    /** Previous and next page buttons. */
    method Turn(forward: bool)
      requires Valid()
      modifies this`log
      ensures Valid()
      ensures log == old(log) + (if hasRendition then [if forward then Next else Prev] else [])
    {
      if hasRendition {
        log := log + [if forward then Next else Prev];
      }
    }

    /** A key press while the listener is attached: only ArrowLeft and ArrowRight turn the page. */
    method KeyDown(key: string)
      requires Valid()
      modifies this`log
      ensures Valid()
      ensures listening && key == "ArrowLeft" ==> log == old(log) + [Prev]
      ensures listening && key == "ArrowRight" ==> log == old(log) + [Next]
      ensures !listening || (key != "ArrowLeft" && key != "ArrowRight") ==> log == old(log)
    {
      if listening {
        if key == "ArrowLeft" {
          log := log + [Prev];
        } else if key == "ArrowRight" {
          log := log + [Next];
        }
      }
    }

    /** The clock reaches `now`: a due progress write fires once. */
    method Tick(now: int) returns (write: Option<Write>)
      requires Valid()
      modifies this`saveTimer
      ensures Valid()
      ensures write.Some? <==> old(saveTimer).Armed? && old(saveTimer).deadline <= now
      ensures write.Some? ==> saveTimer == Debounce.Idle && write == SaveRequest(currentLocation, percentage)
      ensures write.None? ==> saveTimer == old(saveTimer)
    {
      var fired := Debounce.Tick(saveTimer, now);
      saveTimer := fired.0;
      write := fired.1;
    }

    /** Teardown: the key listener is removed, not ready, rendition and book destroyed; the refs are not cleared. */
    method Teardown()
      requires Valid()
      modifies this`listening, this`isReady, this`log
      ensures Valid() && !listening && !isReady && hasRendition == old(hasRendition)
      ensures log == old(log) + [Destroy]
    {
      listening, isReady := false, false;
      log := log + [Destroy];
    }
  }
}
