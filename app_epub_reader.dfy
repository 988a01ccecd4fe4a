/**
 * The newer application's EPUB reader component around the session hook: it asks to
 * be restored to the saved location, applies the reader settings once the rendition
 * is ready, writes the position one second after it last changed, and toggles a
 * bookmark at the current location.
 */
module AppEpubReader {
  import opened Wrappers
  import Js
  import Debounce
  import AppDb
  import AppSettings
  import opened Bookmarks
  import EpubReaderHook
  import opened EpubProgress

  /** `progress?.location`: the location the session is asked to restore. */
  function InitialLocationOf(progress: Option<AppDb.Progress>): (r: Option<string>)
    ensures progress.None? <==> r.None?
    ensures progress.Some? ==> r == Some(progress.value.location)
  {
    if progress.Some? then Some(progress.value.location) else None
  }

  /** The CSS font stack for the chosen family: `sans` is the system sans-serif, anything else Georgia. */
  function FontFamilyCss(family: string): (css: string)
    ensures family == "sans" ==> css == "system-ui, sans-serif"
    ensures family != "sans" ==> css == "Georgia, serif"
  {
    if family == "sans" then "system-ui, sans-serif" else "Georgia, serif"
  }

  /** `isCurrentPageBookmarked`: never without a location; otherwise an exact match. */
  function IsLocationBookmarked(location: Option<string>, bms: seq<Bookmark>): (b: bool)
    ensures !HasLocation(location) ==> !b
    ensures HasLocation(location) ==> (b <==> FirstMatch(bms, location.value).Some?)
    ensures b ==> exists i :: 0 <= i < |bms| && Some(bms[i].location) == location
  {
    HasLocation(location) && IsBookmarked(bms, location.value)
  }

  /** `toggleBookmark` as the request it makes; `caption` is the translated label. */
  function ToggleRequest(location: Option<string>, bms: seq<Bookmark>, caption: string): (t: Toggle)
    ensures !HasLocation(location) ==> t == NoChange
    ensures HasLocation(location) ==> t == ToggleAt(bms, location.value, caption)
    ensures t.Create? <==> HasLocation(location) && !IsLocationBookmarked(location, bms)
    ensures t.Remove? ==> IsLocationBookmarked(location, bms)
  {
    if !HasLocation(location) then NoChange else ToggleAt(bms, location.value, caption)
  }

  /** What the component shows: the error screen alone, or the reader with or without the loading cover. */
  datatype Screen = ErrorScreen | ReaderScreen(loadingCover: bool)

  class EpubReader {
    const session: EpubReaderHook.Session
    var showSidebar: bool
    var bookmarks: seq<Bookmark>
    var saveTimer: Debounce.Timer<Write>
    var saveDeps: (Option<string>, int)
    /** The theme effect's last dependencies: the settings and readiness. */
    var themeDeps: (AppSettings.Settings, bool)

    predicate Valid()
      reads this, session
    {
      session.Valid() &&
      saveDeps == (session.currentLocation, session.percentage) &&
      (saveTimer.Armed? ==> SaveRequest(saveDeps.0, saveDeps.1) == Some(saveTimer.payload))
    }

    /** Mounting with the progress and settings at hand; the session restores `progress?.location`. */
    constructor(progress: Option<AppDb.Progress>, settings: AppSettings.Settings, outcome: Js.Outcome, now: int)
      ensures Valid() && fresh(session)
      ensures session.initialLocation == InitialLocationOf(progress) && session.log == []
      ensures !showSidebar && bookmarks == [] && saveTimer == Debounce.Idle
    {
      session := new EpubReaderHook.Session(InitialLocationOf(progress), outcome, now);
      showSidebar, bookmarks, saveTimer := false, [], Debounce.Idle;
      saveDeps := (None, 0);
      themeDeps := (settings, false);
    }

    /** The save effect after a render. */
    method SaveEffect(now: int)
      requires session.Valid()
      requires saveTimer.Armed? ==> SaveRequest(saveDeps.0, saveDeps.1) == Some(saveTimer.payload)
      modifies this`saveTimer, this`saveDeps
      ensures Valid()
      ensures saveTimer == if (session.currentLocation, session.percentage) != old(saveDeps)
                           then Debounce.Rearm(SaveRequest(session.currentLocation, session.percentage), now)
                           else old(saveTimer)
    {
      if (session.currentLocation, session.percentage) != saveDeps {
        saveTimer := Debounce.Rearm(SaveRequest(session.currentLocation, session.percentage), now);
        saveDeps := (session.currentLocation, session.percentage);
      }
    }

    /** The theme effect after a render: a change of settings or readiness re-applies them when ready. */
    method ThemeEffect(settings: AppSettings.Settings, accepted: bool)
      requires Valid()
      modifies this`themeDeps, session`log
      ensures Valid() && themeDeps == (settings, session.isReady)
      ensures (settings, session.isReady) != old(themeDeps) && session.isReady && session.rendition != 0 && accepted ==>
        session.log == old(session.log) + [EpubReaderHook.Call(session.rendition,
          EpubReaderHook.ThemeCommand(settings.theme, settings.fontSize, FontFamilyCss(settings.fontFamily), settings.lineHeight))]
      ensures (settings, session.isReady) == old(themeDeps) || !session.isReady ==> session.log == old(session.log)
    {
      if (settings, session.isReady) != themeDeps {
        themeDeps := (settings, session.isReady);
        if session.isReady {
          session.ApplyTheme(settings.theme, settings.fontSize, FontFamilyCss(settings.fontFamily), settings.lineHeight, accepted);
        }
      }
    }

    /**
     * The book's file or id changes. The viewer element is rendered only while no error is
     * shown, so with an error on screen the session effect finds no viewer and only cleans up.
     * The save and theme effects then re-run on the reset position and readiness.
     */
    method BookChanged(outcome: Js.Outcome, settings: AppSettings.Settings, now: int)
      requires Valid()
      modifies session`isReady, session`rendition, session`renditions, session`log, session`restored,
               session`locationsReady, session`error, session`toc, session`currentLocation, session`percentage,
               this`saveTimer, this`saveDeps, this`themeDeps
      ensures Valid() && themeDeps == (settings, session.isReady)
      ensures old(session.error).None? && outcome.Ok? ==>
                session.rendition == old(session.renditions) + 1 && session.error == None && !session.restored
      ensures old(session.error).Some? ==>
                session.rendition == 0 && session.error == old(session.error) && Screen() == ErrorScreen
      ensures saveTimer == if (session.currentLocation, session.percentage) != old(saveDeps)
                           then Debounce.Rearm(SaveRequest(session.currentLocation, session.percentage), now)
                           else old(saveTimer)
    {
      session.BookChanged(session.error.None?, outcome);
      SaveEffect(now);
      ThemeEffect(settings, true);
    }

    /** The progress query yields a new row (or none): a new location to restore. */
    method ProgressChanged(progress: Option<AppDb.Progress>, now: int)
      requires Valid()
      modifies session`initialLocation, session`pollArmed, session`timeoutArmed, session`timeoutDeadline,
               session`armedFor, session`restored, session`log
      ensures Valid() && session.initialLocation == InitialLocationOf(progress)
      ensures old(session.restored) ==> session.restored && session.log == old(session.log)
    {
      session.InitialLocationChanged(InitialLocationOf(progress), now);
    }

    /** The rendition relocated: the position changes and the save effect re-runs. */
    method Relocated(cfi: string, fraction: Option<real>, now: int)
      requires Valid() && session.rendition != 0
      modifies session`currentLocation, session`percentage, this`saveTimer, this`saveDeps
      ensures Valid()
      ensures session.currentLocation == Some(cfi) && session.percentage == EpubReaderHook.RelocatedPercentage(fraction)
      ensures saveTimer == if (Some(cfi), session.percentage) != old(saveDeps)
                           then Debounce.Rearm(SaveRequest(Some(cfi), session.percentage), now)
                           else old(saveTimer)
    {
      session.Relocated(cfi, fraction);
      SaveEffect(now);
    }

    /** The rendition rendered: the session is ready and the settings are applied. */
    method Rendered(settings: AppSettings.Settings, accepted: bool)
      requires Valid() && session.rendition != 0
      modifies session`isReady, this`themeDeps, session`log
      ensures Valid() && session.isReady && themeDeps == (settings, true)
      ensures old(themeDeps) != (settings, true) && accepted ==>
        session.log == old(session.log) + [EpubReaderHook.Call(session.rendition,
          EpubReaderHook.ThemeCommand(settings.theme, settings.fontSize, FontFamilyCss(settings.fontFamily), settings.lineHeight))]
    {
      session.Rendered();
      ThemeEffect(settings, accepted);
    }

    /** The settings prop changes. */
    method SettingsChanged(settings: AppSettings.Settings, accepted: bool)
      requires Valid()
      modifies this`themeDeps, session`log
      ensures Valid() && themeDeps == (settings, session.isReady)
      ensures !session.isReady ==> session.log == old(session.log)
    {
      ThemeEffect(settings, accepted);
    }

    /** The bookmark query yields a new list. */
    method BookmarksChanged(list: seq<Bookmark>)
      requires Valid()
      modifies this`bookmarks
      ensures Valid() && bookmarks == list
    {
      bookmarks := list;
    }

    /** `handleNavigate(cfi)`: seek and close the sidebar. */
    method Navigate(cfi: string)
      requires Valid()
      modifies this`showSidebar, session`log
      ensures Valid() && !showSidebar
      ensures session.log == old(session.log) +
        (if session.rendition != 0 then [EpubReaderHook.Call(session.rendition, EpubReaderHook.Display(Some(cfi)))] else [])
    {
      session.GoToLocation(cfi);
      showSidebar := false;
    }

    /** The menu button flips the sidebar. */
    method ToggleSidebar()
      requires Valid()
      modifies this`showSidebar
      ensures Valid() && showSidebar == !old(showSidebar)
    {
      showSidebar := !showSidebar;
    }

    /** The clock reaches `now`: a due progress write fires once. */
    method Tick(now: int) returns (write: Option<Write>)
      requires Valid()
      modifies this`saveTimer
      ensures Valid()
      ensures write.Some? <==> old(saveTimer).Armed? && old(saveTimer).deadline <= now
      ensures write.Some? ==> saveTimer == Debounce.Idle &&
                              write == SaveRequest(session.currentLocation, session.percentage)
      ensures write.None? ==> saveTimer == old(saveTimer)
    {
      var fired := Debounce.Tick(saveTimer, now);
      saveTimer := fired.0;
      write := fired.1;
    }

    /** The screen for the current state. */
    function Screen(): (s: Screen)
      reads this, session
      ensures session.error.Some? <==> s == ErrorScreen
      ensures s.ReaderScreen? ==> s.loadingCover == !session.isReady
    {
      if session.error.Some? then ErrorScreen else ReaderScreen(!session.isReady)
    }
  }

  /** With a location, a toggle flips whether it is bookmarked, on a list with one bookmark per location and real ids. */
  lemma {:induction false} ToggleAtLocationFlips(location: Option<string>, bms: seq<Bookmark>, caption: string, bookId: int, newId: nat, now: int)
    requires WellFormed(bms) && HasLocation(location)
    ensures IsLocationBookmarked(location, Apply(bms, ToggleRequest(location, bms, caption), bookId, newId, now)) ==
            !IsLocationBookmarked(location, bms)
  {
    ToggleFlips(bms, location.value, caption, bookId, newId, now);
  }
}
