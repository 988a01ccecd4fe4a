/**
 * Horizontal swipe detection on touch screens: a touch start records where and
 * when the finger went down, and a touch end decides whether the gesture was a
 * swipe and in which direction.
 */
module Swipe {
  import opened Wrappers

  const DefaultThreshold: int := 50
  const DefaultAllowedTime: int := 300

  /** Options as passed; an absent option takes its default. */
  datatype Options = Options(threshold: Option<int>, allowedTime: Option<int>)

  /** Which handler a swipe calls: `onSwipeLeft` or `onSwipeRight`. */
  datatype Direction = Left | Right

  function Abs(x: int): (r: int)
    ensures r >= 0 && (r == x || r == -x)
  {
    if x < 0 then -x else x
  }

  /** Fast enough, long enough, and more horizontal than vertical. */
  function IsSwipe(dx: int, dy: int, elapsed: int, threshold: int, allowedTime: int): (b: bool)
    ensures b ==> dx != 0
    ensures b ==> elapsed <= allowedTime && Abs(dx) >= threshold
    ensures elapsed > allowedTime || Abs(dx) <= Abs(dy) ==> !b
  {
    elapsed <= allowedTime && Abs(dx) >= threshold && Abs(dx) > Abs(dy)
  }

  /**
   * The handler a touch end calls, given the movement, the elapsed time and which
   * handlers are present: at most one, and none when the matching one is missing.
   */
  function Classify(dx: int, dy: int, elapsed: int, threshold: int, allowedTime: int, hasLeft: bool, hasRight: bool): (r: Option<Direction>)
    ensures r == Some(Right) <==> IsSwipe(dx, dy, elapsed, threshold, allowedTime) && dx > 0 && hasRight
    ensures r == Some(Left) <==> IsSwipe(dx, dy, elapsed, threshold, allowedTime) && dx < 0 && hasLeft
  {
    if IsSwipe(dx, dy, elapsed, threshold, allowedTime) then
      if dx > 0 && hasRight then Some(Right)
      else if dx < 0 && hasLeft then Some(Left)
      else None
    else None
  }

  /** The touch handlers of one component, with its start-of-touch refs. */
  class Tracker {
    const threshold: int
    const allowedTime: int
    const hasLeft: bool
    const hasRight: bool
    var startX: int
    var startY: int
    var startTime: int

    constructor(options: Options, hasLeft: bool, hasRight: bool)
      ensures threshold == options.threshold.GetOr(DefaultThreshold)
      ensures allowedTime == options.allowedTime.GetOr(DefaultAllowedTime)
      ensures this.hasLeft == hasLeft && this.hasRight == hasRight
      ensures startX == 0 && startY == 0 && startTime == 0
    {
      threshold := options.threshold.GetOr(DefaultThreshold);
      allowedTime := options.allowedTime.GetOr(DefaultAllowedTime);
      this.hasLeft := hasLeft;
      this.hasRight := hasRight;
      startX, startY, startTime := 0, 0, 0;
    }

    /** `onTouchStart`: the first touch's position, at time `now`. */
    method TouchStart(x: int, y: int, now: int)
      modifies this
      ensures startX == x && startY == y && startTime == now
    {
      startX, startY, startTime := x, y, now;
    }

    /** `onTouchEnd`: the handler called for a touch lifted at `(x, y)` at time `now`. */
    method TouchEnd(x: int, y: int, now: int) returns (fired: Option<Direction>)
      ensures fired.Some? ==> IsSwipe(x - startX, y - startY, now - startTime, threshold, allowedTime)
      ensures fired == Some(Right) <==> IsSwipe(x - startX, y - startY, now - startTime, threshold, allowedTime) && x > startX && hasRight
      ensures fired == Some(Left) <==> IsSwipe(x - startX, y - startY, now - startTime, threshold, allowedTime) && x < startX && hasLeft
    {
      var dx := x - startX;
      var dy := y - startY;
      var elapsed := now - startTime;
      fired := Classify(dx, dy, elapsed, threshold, allowedTime, hasLeft, hasRight);
    }
  }

  /** With the defaults, a 50-pixel flick to the left within 300 ms calls `onSwipeLeft`; a slower one nothing. */
  lemma DefaultsExample()
    ensures Classify(-50, 10, 300, DefaultThreshold, DefaultAllowedTime, true, true) == Some(Left)
    ensures Classify(-50, 10, 301, DefaultThreshold, DefaultAllowedTime, true, true) == None
    ensures Classify(50, 50, 100, DefaultThreshold, DefaultAllowedTime, true, true) == None
  {
  }
}
