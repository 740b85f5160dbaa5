/**
 * The gesture part of handleInteraction in src/App.js: how the displacement and duration
 * between a pointer's start and end are read as a tap or a swipe, and which block kinds
 * a swipe resolves. Coordinates are real screen offsets; durations are milliseconds.
 */
module Gestures {
  import opened Blocks

  datatype Direction = Left | Right | Up | Down

  /** What an end event amounts to: a tap, a swipe in one direction, or nothing. */
  datatype Gesture = TapLike | Swipe(dir: Direction) | NoGesture

  /** Both offsets must stay below this for a tap. */
  const TapRadius: real := 10.0
  /** A swipe must travel further than this along its axis. */
  const SwipeDistance: real := 30.0
  /** A swipe must end before this many milliseconds. */
  const SwipeWindow: int := 5000
  /** The second tap of a double tap must come within this many milliseconds. */
  const DoubleTapWindow: int := 300

  function Abs(x: real): (r: real)
    ensures r >= 0.0 && (r == x || r == -x)
  {
    if x < 0.0 then -x else x
  }

  predicate IsTap(dx: real, dy: real) {
    Abs(dx) < TapRadius && Abs(dy) < TapRadius
  }

  /** The swipe a movement of (dx, dy) in `dt` ms makes, when it is one. */
  predicate IsSwipe(dx: real, dy: real, dt: int, dir: Direction) {
    !IsTap(dx, dy) && dt < SwipeWindow &&
    match dir
    case Right => Abs(dx) > Abs(dy) && Abs(dx) > SwipeDistance && dx > 0.0
    case Left => Abs(dx) > Abs(dy) && Abs(dx) > SwipeDistance && dx < 0.0
    case Down => Abs(dy) > Abs(dx) && Abs(dy) > SwipeDistance && dy > 0.0
    case Up => Abs(dy) > Abs(dx) && Abs(dy) > SwipeDistance && dy < 0.0
  }

  /**
   * The branches of the end handler: tap-class first, then (within the swipe window) the
   * strictly dominant axis with enough travel; anything else is no gesture.
   */
  function Classify(dx: real, dy: real, dt: int): (g: Gesture)
    ensures g == TapLike <==> IsTap(dx, dy)
    ensures forall dir :: g == Swipe(dir) <==> IsSwipe(dx, dy, dt, dir)
    ensures g == NoGesture <==> !IsTap(dx, dy) && forall dir :: !IsSwipe(dx, dy, dt, dir)
  {
    if IsTap(dx, dy) then TapLike
    else if dt < SwipeWindow then
      if Abs(dx) > Abs(dy) && Abs(dx) > SwipeDistance then
        Swipe(if dx > 0.0 then Right else Left)
      else if Abs(dy) > Abs(dx) && Abs(dy) > SwipeDistance then
        Swipe(if dy > 0.0 then Down else Up)
      else NoGesture
    else NoGesture
  }

  /** The block kind a swipe in `dir` resolves. */
  function SwipeKind(dir: Direction): (k: Kind)
    ensures !IsSpecial(k) && k != Tap && k != DoubleTap
  {
    match dir
    case Left => SwipeLeft
    case Right => SwipeRight
    case Up => SwipeUp
    case Down => SwipeDown
  }

  function Mirror(dir: Direction): Direction {
    match dir
    case Left => Right
    case Right => Left
    case Up => Down
    case Down => Up
  }

  /** Reversing the movement reverses the swipe and keeps a tap a tap. */
  lemma ClassifyMirror(dx: real, dy: real, dt: int)
    ensures Classify(-dx, -dy, dt) ==
              match Classify(dx, dy, dt)
              case Swipe(dir) => Swipe(Mirror(dir))
              case g => g
  {
  }

  /** Only a movement longer than the swipe distance along some axis is a swipe. */
  lemma SwipeNeedsTravel(dx: real, dy: real, dt: int)
    requires Abs(dx) <= SwipeDistance && Abs(dy) <= SwipeDistance
    ensures !Classify(dx, dy, dt).Swipe?
  {
  }

  /** A movement along a diagonal (equal offsets) is never a swipe. */
  lemma DiagonalIsNoSwipe(d: real, dt: int)
    ensures !Classify(d, d, dt).Swipe? && !Classify(d, -d, dt).Swipe?
  {
  }
}
