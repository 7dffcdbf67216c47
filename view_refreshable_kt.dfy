/** The Kotlin default adapter `ViewRefreshable`: the `Refreshable` the
    Kotlin layout wraps around a header or footer whose view class does not
    implement the capability. It gives no visual feedback and is never a
    passive indicator; its size is the view's extent plus its margins along
    the refresh axis. */
module ViewRefreshableKt {
  import opened Base

  /** The wrapped view is fixed when the adapter is constructed. */
  datatype ViewRefreshable = ViewRefreshable(view: View)

  /** `isIndicator()`: a wrapped plain view always takes part in refreshing. */
  function IsIndicator(r: ViewRefreshable): (indicator: bool)
    ensures !indicator
  {
    false
  }

  /** `onOffset`, `onRelease` and `onReset` have empty bodies: the adapter
      is the same value after any of them. */
  function OnOffset(r: ViewRefreshable, delta: real): (after: ViewRefreshable)
    ensures after == r
  {
    r
  }

  function OnRelease(r: ViewRefreshable, isTrigger: bool): (after: ViewRefreshable)
    ensures after == r
  {
    r
  }

  function OnReset(r: ViewRefreshable): (after: ViewRefreshable)
    ensures after == r
  {
    r
  }

  /** `getContentSize(isRefreshVertical)`: the activation distance is the
      wrapped view's height with its top and bottom margins on the vertical
      axis, and its width with its left and right margins on the horizontal
      one. */
  function ContentSize(r: ViewRefreshable, vertical: bool): (size: int)
    ensures vertical ==> size == r.view.height + r.view.margins.top + r.view.margins.bottom
    ensures !vertical ==> size == r.view.width + r.view.margins.left + r.view.margins.right
  {
    var m := r.view.margins;
    if vertical then r.view.height + m.top + m.bottom else r.view.width + m.left + m.right
  }
}
