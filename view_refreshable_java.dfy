/** The Java default adapter `ViewRefreshable`: the `Refreshable` the Java
    layout wraps around a header or footer whose view class does not
    implement the capability. Its size is the wrapped view's height alone,
    without margins. */
module ViewRefreshableJava {
  import opened Base

  /** The wrapped view is set once, by the constructor. */
  datatype ViewRefreshable = ViewRefreshable(target: View)

  /** `isIndicator()` always answers false. */
  function IsIndicator(r: ViewRefreshable): (indicator: bool)
    ensures !indicator
  {
    false
  }

  /** `onOffset`, `onRelease` and `onReset` do nothing: the adapter is the
      same value afterwards. */
  function OnOffset(r: ViewRefreshable, delta: real): (after: ViewRefreshable)
    ensures after == r
  {
    r
  }

  function OnRelease(r: ViewRefreshable, isTrigger: bool): (after: ViewRefreshable)
    ensures after == r
  {
    r
  }

  function OnReset(r: ViewRefreshable): (after: ViewRefreshable)
    ensures after == r
  {
    r
  }

  /** `getContentSize()` is the wrapped view's height, margins not included. */
  function ContentSize(r: ViewRefreshable): (size: int)
    ensures size == r.target.height
  {
    r.target.height
  }
}
