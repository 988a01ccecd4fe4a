/**
 * The newer application's EPUB session hook. It owns one epub.js book and rendition
 * per opened file, and it restores the saved reading position exactly once: as soon as
 * the position is known and the book's locations are generated, polling every 50 ms
 * while they are not, and giving up after 10 s by showing the start. The engine is
 * seen only through the calls made to it, which are appended to `log`, and through
 * the events it raises, which are methods here.
 */
module EpubReaderHook {
  import opened Wrappers
  import Js

  /** The period of the readiness poll, in milliseconds. */
  const PollInterval: int := 50
  /** How long the restore waits for the locations, in milliseconds. */
  const RestoreTimeout: int := 10000

  /** A nested table-of-contents entry and a top-level one (`title` is the entry's label). */
  datatype TocEntry = TocEntry(title: string, href: string)
  datatype TocItem = TocItem(title: string, href: string, subitems: Option<seq<TocEntry>>)

  /** Text and background colours; `None` is a colour that resolves to `undefined`. */
  datatype Colors = Colors(background: Option<string>, color: Option<string>)

  /** What a call asks of a rendition. */
  datatype Command =
    | Display(target: Option<string>)
    | Prev
    | Next
    | Theme(colors: Colors, fontFamily: string, lineHeight: real, fontSize: string)
    | Destroy

  /** One call to the rendition numbered `rendition`. */
  datatype Call = Call(rendition: nat, command: Command)

  /** `if (initialLocation) display(initialLocation) else display()`: the target of a restore. */
  function RestoreTarget(location: Option<string>): (t: Option<string>)
    ensures t.Some? <==> location.Some? && location.value != ""
    ensures t.Some? ==> t == location
  {
    if location.Some? && location.value != "" then location else None
  }

  /** `Math.round((fraction || 0) * 100)`: a missing (or NaN) fraction is 0. */
  function RelocatedPercentage(fraction: Option<real>): (pct: int)
    ensures fraction.None? ==> pct == 0
    ensures fraction.Some? ==> pct as real - 0.5 <= fraction.value * 100.0 < pct as real + 0.5
    ensures fraction.Some? && 0.0 <= fraction.value <= 1.0 ==> 0 <= pct <= 100
  {
    match fraction
    case None => Js.Round(0.0)
    case Some(f) => Js.Round(f * 100.0)
  }

  const LightColors: Colors := Colors(Some("#ffffff"), Some("#1f2937"))

  /**
   * `themeColors[theme] ?? themeColors.light`: the three known themes, light for any
   * other name, except names found on `Object.prototype`: those look up an inherited
   * member (never nullish) that has no colours.
   */
  function ThemeColors(theme: string): (c: Colors)
    ensures theme == "light" ==> c == LightColors
    ensures theme == "sepia" ==> c == Colors(Some("#f4ecd8"), Some("#433422"))
    ensures theme == "dark" ==> c == Colors(Some("#1a1a1a"), Some("#e5e5e5"))
    ensures theme in Js.ObjectPrototypeKeys ==> c == Colors(None, None)
    ensures theme !in {"light", "sepia", "dark"} && theme !in Js.ObjectPrototypeKeys ==> c == LightColors
  {
    if theme == "light" then LightColors
    else if theme == "sepia" then Colors(Some("#f4ecd8"), Some("#433422"))
    else if theme == "dark" then Colors(Some("#1a1a1a"), Some("#e5e5e5"))
    else if theme in Js.ObjectPrototypeKeys then Colors(None, None)
    else LightColors
  }

  /** The theme call `applyTheme` makes: colours, `${fontFamily} !important`, line height and `${fontSize}px`. */
  function ThemeCommand(theme: string, fontSize: int, fontFamily: string, lineHeight: real): (c: Command)
    ensures c.Theme? && c.colors == ThemeColors(theme) && c.lineHeight == lineHeight
    ensures c.fontFamily == fontFamily + " !important" && c.fontSize == Js.IntToString(fontSize) + "px"
  {
    Theme(ThemeColors(theme), fontFamily + " !important", lineHeight, Js.IntToString(fontSize) + "px")
  }

  /** What one run of the restore effect does. */
  datatype RestoreStep = Skip | StartPolling | DisplayNow(target: Option<string>)

  /** The restore effect's decision: nothing without a rendition or once restored; else show now or poll. */
  function RestoreDecision(hasRendition: bool, restored: bool, locationsReady: bool, location: Option<string>): (s: RestoreStep)
    ensures s.Skip? <==> !hasRendition || restored
    ensures s.StartPolling? <==> hasRendition && !restored && !locationsReady
    ensures s.DisplayNow? ==> s.target == RestoreTarget(location)
  {
    if !hasRendition || restored then Skip
    else if !locationsReady then StartPolling
    else DisplayNow(RestoreTarget(location))
  }

  class Session {
    /** The live rendition's number; 0 when there is none. */
    var rendition: nat
    /** How many renditions were created. */
    var renditions: nat
    var restored: bool
    var locationsReady: bool
    var isReady: bool
    var error: Option<string>
    var toc: seq<TocItem>
    var currentLocation: Option<string>
    var percentage: int
    var initialLocation: Option<string>
    /** The restore effect's interval and timeout, and the rendition they captured. */
    var pollArmed: bool
    var timeoutArmed: bool
    var timeoutDeadline: int
    var armedFor: nat
    var log: seq<Call>

    predicate Valid()
      reads this
    {
      rendition <= renditions && armedFor <= renditions &&
      (pollArmed ==> timeoutArmed && !restored) &&
      (timeoutArmed ==> armedFor != 0)
    }

    /**
     * Mounting with `location` requested: no error is on display, so the viewer element is
     * mounted; the session effect opens the book, then the restore effect runs.
     */
    constructor(location: Option<string>, outcome: Js.Outcome, now: int)
      ensures Valid() && initialLocation == location
      ensures outcome.Ok? ==> rendition == 1 && error == None
      ensures !outcome.Ok? ==> rendition == 0 && error == Js.ErrorMessage(outcome, "Failed to create EPUB book")
      ensures !restored && !locationsReady && !isReady && toc == [] && currentLocation == None && percentage == 0
      ensures pollArmed == outcome.Ok? && timeoutArmed == outcome.Ok? && log == []
      ensures outcome.Ok? ==> timeoutDeadline == now + RestoreTimeout && armedFor == 1
    {
      rendition, renditions := 0, 0;
      restored, locationsReady, isReady := false, false, false;
      error, toc, currentLocation, percentage := None, [], None, 0;
      initialLocation := location;
      pollArmed, timeoutArmed, timeoutDeadline, armedFor := false, false, 0, 0;
      log := [];
      new;
      OpenBook(true, outcome);
      RestoreEffect(now);
    }

    /** The session effect's cleanup: listeners detached, not ready, rendition and book destroyed and dropped. */
    method Teardown()
      requires Valid()
      modifies this`isReady, this`rendition, this`log
      ensures Valid() && rendition == 0
      ensures old(rendition) != 0 ==> !isReady && log == old(log) + [Call(old(rendition), Destroy)]
      ensures old(rendition) == 0 ==> isReady == old(isReady) && log == old(log)
    {
      if rendition != 0 {
        isReady := false;
        log := log + [Call(rendition, Destroy)];
        rendition := 0;
      }
    }

    /**
     * One run of the session effect: the previous run's cleanup, then, when the viewer element
     * is mounted (`viewerPresent`), the reset and a new book and rendition. Without a viewer the
     * effect returns right after the cleanup, so the flags, the error and the position stay.
     */
    method OpenBook(viewerPresent: bool, outcome: Js.Outcome)
      requires Valid()
      modifies this`isReady, this`rendition, this`renditions, this`log, this`restored, this`locationsReady,
               this`error, this`toc, this`currentLocation, this`percentage
      ensures Valid()
      ensures log == old(log) + (if old(rendition) != 0 then [Call(old(rendition), Destroy)] else [])
      ensures !viewerPresent ==>
        rendition == 0 && renditions == old(renditions) && isReady == (old(isReady) && old(rendition) == 0) &&
        restored == old(restored) && locationsReady == old(locationsReady) && error == old(error) &&
        toc == old(toc) && currentLocation == old(currentLocation) && percentage == old(percentage)
      ensures viewerPresent ==>
        !restored && !locationsReady && !isReady && toc == [] && currentLocation == None && percentage == 0
      ensures viewerPresent && outcome.Ok? ==> rendition == renditions == old(renditions) + 1 && error == None
      ensures viewerPresent && !outcome.Ok? ==>
        rendition == 0 && renditions == old(renditions) && error == Js.ErrorMessage(outcome, "Failed to create EPUB book")
    {
      Teardown();
      if viewerPresent {
        Reopen(outcome);
      }
    }

    /** The session effect past its viewer guard: reset the state, then create the book and rendition. */
    method Reopen(outcome: Js.Outcome)
      requires Valid() && rendition == 0
      modifies this`isReady, this`rendition, this`renditions, this`restored, this`locationsReady,
               this`error, this`toc, this`currentLocation, this`percentage
      ensures Valid()
      ensures !restored && !locationsReady && !isReady && toc == [] && currentLocation == None && percentage == 0
      ensures outcome.Ok? ==> rendition == renditions == old(renditions) + 1 && error == None
      ensures !outcome.Ok? ==>
        rendition == 0 && renditions == old(renditions) && error == Js.ErrorMessage(outcome, "Failed to create EPUB book")
    {
      restored, locationsReady := false, false;
      isReady, error, toc, currentLocation, percentage := false, None, [], None, 0;
      if outcome.Ok? {
        renditions := renditions + 1;
        rendition := renditions;
      } else {
        error := Js.ErrorMessage(outcome, "Failed to create EPUB book");
      }
    }

    /** One run of the restore effect, after its previous run's cleanup cleared the interval and the timeout. */
    method RestoreEffect(now: int)
      requires Valid()
      modifies this`pollArmed, this`timeoutArmed, this`timeoutDeadline, this`armedFor, this`restored, this`log
      ensures Valid()
      ensures var step := RestoreDecision(rendition != 0, old(restored), locationsReady, initialLocation);
              match step
              case Skip => !pollArmed && !timeoutArmed && restored == old(restored) && log == old(log)
              case StartPolling =>
                pollArmed && timeoutArmed && timeoutDeadline == now + RestoreTimeout && armedFor == rendition &&
                !restored && log == old(log)
              case DisplayNow(target) =>
                !pollArmed && !timeoutArmed && restored && log == old(log) + [Call(rendition, Display(target))]
    {
      pollArmed, timeoutArmed := false, false;
      var step := RestoreDecision(rendition != 0, restored, locationsReady, initialLocation);
      match step
      case Skip =>
      case StartPolling =>
        pollArmed, timeoutArmed := true, true;
        timeoutDeadline, armedFor := now + RestoreTimeout, rendition;
      case DisplayNow(target) =>
        restored := true;
        log := log + [Call(rendition, Display(target))];
    }

    /**
     * A new file or book id: the session effect re-runs; the restore effect does not. With no
     * viewer mounted only the old rendition is destroyed, and an error on display stays.
     */
    method BookChanged(viewerPresent: bool, outcome: Js.Outcome)
      requires Valid()
      modifies this`isReady, this`rendition, this`renditions, this`log, this`restored, this`locationsReady,
               this`error, this`toc, this`currentLocation, this`percentage
      ensures Valid()
      ensures log == old(log) + (if old(rendition) != 0 then [Call(old(rendition), Destroy)] else [])
      ensures viewerPresent ==> !restored && !locationsReady && currentLocation == None && percentage == 0
      ensures viewerPresent && outcome.Ok? ==> rendition == old(renditions) + 1 && error == None
      ensures !viewerPresent ==> rendition == 0 && error == old(error) && restored == old(restored) &&
                                 currentLocation == old(currentLocation) && percentage == old(percentage)
    {
      OpenBook(viewerPresent, outcome);
    }

    /**
     * The requested location changes. Once restored, no value reaches the rendition;
     * before that, it is shown at once if the locations are ready, and otherwise polled for.
     */
    method InitialLocationChanged(location: Option<string>, now: int)
      requires Valid()
      modifies this`initialLocation, this`pollArmed, this`timeoutArmed, this`timeoutDeadline, this`armedFor,
               this`restored, this`log
      ensures Valid() && initialLocation == location
      ensures location == old(initialLocation) ==> unchanged(this)
      ensures old(restored) ==> restored && log == old(log)
      ensures location != old(initialLocation) && !old(restored) && rendition != 0 && locationsReady ==>
                restored && log == old(log) + [Call(rendition, Display(RestoreTarget(location)))]
      ensures location != old(initialLocation) && !old(restored) && rendition != 0 && !locationsReady ==>
                !restored && pollArmed && timeoutArmed && armedFor == rendition &&
                timeoutDeadline == now + RestoreTimeout && log == old(log)
    {
      if location != initialLocation {
        initialLocation := location;
        RestoreEffect(now);
      }
    }

    /** The interval fires: once the locations are ready, the requested location (or the start) is shown, once. */
    method PollTick()
      requires Valid()
      modifies this`pollArmed, this`restored, this`log
      ensures Valid()
      ensures old(pollArmed) && locationsReady ==>
                restored && !pollArmed && log == old(log) + [Call(armedFor, Display(RestoreTarget(initialLocation)))]
      ensures !(old(pollArmed) && locationsReady) ==> unchanged(this)
    {
      if pollArmed && locationsReady && !restored {
        pollArmed := false;
        restored := true;
        log := log + [Call(armedFor, Display(RestoreTarget(initialLocation)))];
      }
    }

    /** The clock reaches `now`: a due timeout stops the poll and, if nothing was restored, shows the start. */
    method Tick(now: int)
      requires Valid()
      modifies this`pollArmed, this`timeoutArmed, this`restored, this`log
      ensures Valid()
      ensures old(timeoutArmed) && timeoutDeadline <= now ==> !pollArmed && !timeoutArmed && restored
      ensures old(timeoutArmed) && timeoutDeadline <= now && !old(restored) ==>
                log == old(log) + [Call(armedFor, Display(None))]
      ensures old(restored) || !(old(timeoutArmed) && timeoutDeadline <= now) ==> log == old(log)
      ensures !(old(timeoutArmed) && timeoutDeadline <= now) ==> unchanged(this)
    {
      if timeoutArmed && timeoutDeadline <= now {
        timeoutArmed, pollArmed := false, false;
        if !restored {
          restored := true;
          log := log + [Call(armedFor, Display(None))];
        }
      }
    }

    /** The locations of the open book are generated; nothing is displayed yet. */
    method LocationsGenerated()
      requires Valid() && rendition != 0
      modifies this`locationsReady
      ensures Valid() && locationsReady
    {
      locationsReady := true;
    }

    /** Opening or generating the locations failed; the error is recorded and nothing else changes. */
    method LocationsFailed(thrown: Js.Outcome)
      requires Valid() && rendition != 0 && !thrown.Ok?
      modifies this`error
      ensures Valid() && error == Js.ErrorMessage(thrown, "Failed to load EPUB")
    {
      error := Js.ErrorMessage(thrown, "Failed to load EPUB");
    }

    /** The table of contents is loaded. */
    method NavigationLoaded(items: seq<TocItem>)
      requires Valid() && rendition != 0
      modifies this`toc
      ensures Valid() && toc == items
    {
      toc := items;
    }

    /** The rendition moved to `cfi`, `fraction` of the way through the book (absent when unknown). */
    method Relocated(cfi: string, fraction: Option<real>)
      requires Valid() && rendition != 0
      modifies this`currentLocation, this`percentage
      ensures Valid() && currentLocation == Some(cfi) && percentage == RelocatedPercentage(fraction)
    {
      currentLocation := Some(cfi);
      percentage := RelocatedPercentage(fraction);
    }

    /** The rendition rendered content. */
    method Rendered()
      requires Valid() && rendition != 0
      modifies this`isReady
      ensures Valid() && isReady
    {
      isReady := true;
    }

    /** A call that needs a rendition: made when there is one, dropped otherwise. */
    method Send(c: Command)
      requires Valid()
      modifies this`log
      ensures Valid()
      ensures rendition != 0 ==> log == old(log) + [Call(rendition, c)]
      ensures rendition == 0 ==> log == old(log)
    {
      if rendition != 0 {
        log := log + [Call(rendition, c)];
      }
    }

    /** `goToLocation(cfi)`. */
    method GoToLocation(cfi: string)
      requires Valid()
      modifies this`log
      ensures Valid()
      ensures log == old(log) + (if rendition != 0 then [Call(rendition, Display(Some(cfi)))] else [])
    {
      Send(Display(Some(cfi)));
    }

    /** `goToPrev`. */
    method GoToPrev()
      requires Valid()
      modifies this`log
      ensures Valid()
      ensures log == old(log) + (if rendition != 0 then [Call(rendition, Prev)] else [])
    {
      Send(Prev);
    }

    /** `goToNext`. */
    method GoToNext()
      requires Valid()
      modifies this`log
      ensures Valid()
      ensures log == old(log) + (if rendition != 0 then [Call(rendition, Next)] else [])
    {
      Send(Next);
    }

    /** A key press; the listener lives as long as the rendition. */
    method KeyDown(key: string)
      requires Valid()
      modifies this`log
      ensures Valid()
      ensures key == "ArrowLeft" ==> log == old(log) + (if rendition != 0 then [Call(rendition, Prev)] else [])
      ensures key == "ArrowRight" ==> log == old(log) + (if rendition != 0 then [Call(rendition, Next)] else [])
      ensures key != "ArrowLeft" && key != "ArrowRight" ==> log == old(log)
    {
      if key == "ArrowLeft" {
        GoToPrev();
      } else if key == "ArrowRight" {
        GoToNext();
      }
    }

    /**
     * `applyTheme`: nothing without a rendition; `accepted` is false when the theme calls
     * throw, which is swallowed and leaves everything as it was.
     */
    method ApplyTheme(theme: string, fontSize: int, fontFamily: string, lineHeight: real, accepted: bool)
      requires Valid()
      modifies this`log
      ensures Valid()
      ensures rendition != 0 && accepted ==>
                log == old(log) + [Call(rendition, ThemeCommand(theme, fontSize, fontFamily, lineHeight))]
      ensures rendition == 0 || !accepted ==> log == old(log)
    {
      if accepted {
        Send(ThemeCommand(theme, fontSize, fontFamily, lineHeight));
      }
    }

    /** Unmounting: both effects' cleanups. */
    method Unmount()
      requires Valid()
      modifies this`isReady, this`rendition, this`log, this`pollArmed, this`timeoutArmed
      ensures Valid() && rendition == 0 && !pollArmed && !timeoutArmed
      ensures log == old(log) + (if old(rendition) != 0 then [Call(old(rendition), Destroy)] else [])
    {
      Teardown();
      pollArmed, timeoutArmed := false, false;
    }
  }
}
