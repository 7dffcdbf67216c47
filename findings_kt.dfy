/** The Kotlin coordinator's vertical `onNestedScroll` moves the content by
    the consumed delta instead of the unconsumed one: the horizontal branch,
    the Java layout and the drag direction it has just chosen all use the
    unconsumed delta. This module shows the effect on the code as written
    and states the behaviour of the evidently intended version. */
module FindingsKt {
  import opened Base
  import opened Animator
  import opened CoordinatorKt
  import opened PropertiesKt
  import Adapter = ViewRefreshableKt

  // ---------------------------------------------------------------------------
  // As written

  /** As written, a nested scroll that consumed 20 pixels and left 200
      unconsumed at the top edge starts a drag from the top and moves the
      content 10 pixels toward the footer's side. */
  lemma VerticalScrollMovesAgainstDrag(c: Layout)
    requires c.vertical && c.target.None?
    ensures var r := NestedScroll(c, 0, 20, 0, -200);
      r.state == StateDragFromTop && r.contentOffset == c.contentOffset + 10
  {
  }

  /** The raw touch path feeds each move to `onNestedScroll` as unconsumed
      delta with nothing consumed, so on the vertical axis a pull never
      moves the content: press at 0, move to 300 and release with an
      80-pixel header tells the header only `onOffset(0)` and
      `onRelease(false)`; no refresh starts. */
  lemma VerticalTouchPullNeverRefreshes()
    ensures var c := SetRefreshListener(ViewAdded(Initial(true, 8), PlainHeader(80)), true);
      var w := Wrapped(Adapter.ViewRefreshable(PlainHeader(80)));
      var r := TouchEvent(TouchEvent(TouchEvent(c, Touch(Down, 0, 0, None)), Touch(Move, 0, 300, None)),
                          Touch(Up, 0, 300, None));
      && r.contentOffset == 0 && r.state != StateRefreshing && r.targetState == StateIdle
      && r.log == [Offset(w, 0), Release(w, false)]
  {
    var c := SetRefreshListener(ViewAdded(Initial(true, 8), PlainHeader(80)), true);
    var w := Wrapped(Adapter.ViewRefreshable(PlainHeader(80)));
    var c1 := TouchEvent(c, Touch(Down, 0, 0, None));
    assert c1 == c.(pointer := Pointer(0, 0, 0, 0));
    var move := Touch(Move, 0, 300, None);
    assert LeavesSlop(c1, move) && MoveDelta(c1, move) == -300;
    var c2 := TouchEvent(c1, move);
    assert c2.state == StateDragFromTop && c2.contentOffset == 0;
    assert c2.target == Some(w) && c2.lastTarget == Some(w) && c2.log == [Offset(w, 0)];
  }

  // ---------------------------------------------------------------------------
  // Intended

  /** `onNestedScroll` with the vertical branch moving the content by the
      damped `dyUnconsumed`, as the horizontal branch does with
      `dxUnconsumed`. */
  function NestedScrollIntended(c: Layout, dxConsumed: int, dyConsumed: int, dxUnconsumed: int, dyUnconsumed: int): (r: Layout)
    ensures SameWiring(c, r) && r.targetState == c.targetState
    ensures !c.vertical ==> r == NestedScroll(c, dxConsumed, dyConsumed, dxUnconsumed, dyUnconsumed)
    ensures c.vertical && dyUnconsumed == 0 ==> r == c
    ensures c.vertical && dyUnconsumed != 0 ==>
      && r.state == NestedScroll(c, dxConsumed, dyConsumed, dxUnconsumed, dyUnconsumed).state
      && r.target == NestedScroll(c, dxConsumed, dyConsumed, dxUnconsumed, dyUnconsumed).target
      && r.contentOffset == c.contentOffset + ResolveOffset(dyUnconsumed)
    ensures r.state == StateDragFromTop && r != c ==> r.contentOffset <= c.contentOffset
    ensures r.state == StateDragFromBottom && r != c ==> r.contentOffset >= c.contentOffset
  {
    if c.vertical && dyUnconsumed != 0 then
      var c1 := c.(scroller := AbortAnimation(c.scroller),
                   state := if dyUnconsumed > 0 then StateDragFromBottom else StateDragFromTop);
      var c2 := PrepareTarget(c1, 0 > dyUnconsumed);
      OffsetContent(c2, c2.contentOffset + ResolveOffset(dyUnconsumed))
    else NestedScroll(c, dxConsumed, dyConsumed, dxUnconsumed, dyUnconsumed)
  }

  /** With the intended scroll, the pull a touch gesture feeds in (200
      pixels unconsumed at the top edge) moves the content to -100, and the
      release refreshes with an 80-pixel header. */
  lemma IntendedPullRefreshes()
    ensures var c := SetRefreshListener(ViewAdded(Initial(true, 8), PlainHeader(80)), true);
      var p := NestedScrollIntended(c, 0, 0, 0, -200);
      var r := Ticks(StopNestedScroll(p), [Elapsed, Elapsed]);
      && p.state == StateDragFromTop && p.contentOffset == -100
      && r.state == StateRefreshing && r.contentOffset == -80
      && r.log[|r.log| - 1] == RefreshStart(Public, true)
  {
    var c := SetRefreshListener(ViewAdded(Initial(true, 8), PlainHeader(80)), true);
    var p := NestedScrollIntended(c, 0, 0, 0, -200);
    assert p.lastTarget == Some(Wrapped(Adapter.ViewRefreshable(PlainHeader(80))));
    ActivationDistancePlain(p, 80);
    ReleaseStartsRefresh(p, []);
  }
}
