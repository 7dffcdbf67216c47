/** The settle animator: an abstraction of Android's `Scroller` as both
    layouts use it (`startScroll`, `abortAnimation`, `computeScrollOffset`,
    `getCurrY`). The interpolation curve and the clock are outside the model:
    each poll receives a `Frame` saying either which value the curve yields
    now or that the duration has elapsed. On the elapsed poll the animator
    yields its final value and marks itself finished; every later poll
    reports "not running". That last-yield-is-the-target behaviour is an
    assumption about Android's `Scroller`, whose source is not modelled. */
module Animator {

  datatype Scroller = Scroller(startY: int, finalY: int, currY: int, finished: bool)

  /** What the clock and the interpolator give one poll. */
  datatype Frame = Between(y: int) | Elapsed

  /** A freshly constructed `Scroller` is finished. */
  function NewScroller(): (s: Scroller)
    ensures s.finished
  {
    Scroller(0, 0, 0, true)
  }

  /** `startScroll(0, startY, 0, dy, duration)`. */
  function StartScroll(s: Scroller, startY: int, dy: int): (r: Scroller)
    ensures !r.finished && r.startY == startY && r.finalY == startY + dy
  {
    Scroller(startY, startY + dy, startY, false)
  }

  /** `abortAnimation()`: jumps to the final value and stops. */
  function AbortAnimation(s: Scroller): (r: Scroller)
    ensures r.finished && r.currY == s.finalY
    ensures r.startY == s.startY && r.finalY == s.finalY
  {
    s.(currY := s.finalY, finished := true)
  }

  /** The outcome of one `computeScrollOffset()` call. */
  datatype Poll = Poll(running: bool, after: Scroller)

  /** `computeScrollOffset()`: false once finished; otherwise the current
      value advances (to the frame's value, or to the final value once the
      duration has elapsed) and the call returns true. */
  function ComputeScrollOffset(s: Scroller, frame: Frame): (p: Poll)
    ensures p.running <==> !s.finished
    ensures s.finished ==> p.after == s
    ensures !s.finished && frame.Elapsed? ==> p.after.finished && p.after.currY == s.finalY
    ensures !s.finished && frame.Between? ==> !p.after.finished && p.after.currY == frame.y
    ensures p.after.startY == s.startY && p.after.finalY == s.finalY
  {
    if s.finished then Poll(false, s)
    else match frame
      case Between(y) => Poll(true, s.(currY := y))
      case Elapsed => Poll(true, s.(currY := s.finalY, finished := true))
  }
}
