/** Small value types shared by both coordinators: optional references,
    results, integer helpers, the child views a layout can hold, and the
    callbacks a coordinator sends out. */
module Base {

  /** A nullable reference of the source (`Refreshable?`, `View?`). */
  datatype Option<T> = None | Some(value: T)

  /** A construction that can be refused with an exception message. */
  datatype Result<T> = Ok(value: T) | Error(message: string)

  function Abs(n: int): (r: int)
    ensures r >= 0 && (r == n || r == -n)
  {
    if n < 0 then -n else n
  }

  /** `(n * 0.5f).toInt()`: half of `n`, truncated toward zero (the JVM's
      float-to-int cast). The float product is exact for every pixel delta
      that fits in 24 bits. */
  function HalfTowardZero(n: int): (r: int)
    ensures n >= 0 ==> 0 <= n - 2 * r <= 1
    ensures n < 0 ==> -1 <= n - 2 * r <= 0
  {
    if n >= 0 then n / 2 else -((-n) / 2)
  }

  /** Margins of a child's `MarginLayoutParams`. */
  datatype Margins = Margins(left: int, top: int, right: int, bottom: int)

  /** What a child that implements the `Refreshable` capability answers:
      whether it is a passive indicator and its size along each axis. The
      Java interface has no axis parameter; the Java layout, which is
      vertical only, reads `verticalSize`. */
  datatype Capability = Capability(indicator: bool, verticalSize: int, horizontalSize: int)

  /** A child view, as far as the coordinator looks at it: an identity, the
      role from its layout parameters, its measured extent, its margins and,
      when the view class implements `Refreshable`, that implementation.
      Distinct views are assumed to carry distinct `id`s, so value equality
      stands for reference identity. */
  datatype View = View(id: nat, role: int, width: int, height: int, margins: Margins,
                       capability: Option<Capability>)

  /** The two refresh listeners: the internal hook and the public one. */
  datatype Listener = Internal | Public

  /** One outgoing call of a coordinator, addressed to a `Refreshable` of type
      `T` or to a listener. `Offset` stands for `onOffset(-offset / size)`:
      the float fraction is not computed, the pixel offset is recorded. */
  datatype Callback<T> =
    | Offset(target: T, offset: int)
    | Release(target: T, trigger: bool)
    | Reset(target: T)
    | ContentOffset(offset: int)
    | RefreshStart(listener: Listener, fromHeader: bool)
    | RefreshComplete(listener: Listener)

  /** The `MotionEvent` actions the touch handlers tell apart. */
  datatype MotionAction = Down | Move | Up | Cancel | Outside | OtherAction
}
