/** The Kotlin `RefreshLayout` as a class whose fields are the coordinator's
    fields. Every method performs the source's updates step by step and is
    proved to leave the layout in the state the matching function of
    `CoordinatorKt` describes; the properties of the coordinator are proved
    about those functions. Rendering (`scrollTo`, invalidation) and the
    nested-scrolling child helper are not modelled. */
module RefreshLayoutKt {
  import opened Base
  import opened Animator
  import K = CoordinatorKt
  import Adapter = ViewRefreshableKt

  class RefreshLayout {
    const vertical: bool
    const touchSlop: int

    var header: Option<View>
    var content: Option<View>
    var footer: Option<View>
    var headerRefreshable: Option<K.Target>
    var footerRefreshable: Option<K.Target>

    var state: int
    var targetState: int
    var contentOffset: int
    var target: Option<K.Target>
    var lastTarget: Option<K.Target>

    var pressedX: int
    var pressedY: int
    var lastX: int
    var lastY: int

    var scroller: Scroller

    // `mInternalOnRefreshListener` is declared but never assigned in the
    // Kotlin class, so it stays absent.
    var internalListener: bool
    var refreshListener: bool
    var stateChangeListener: bool

    /** The outgoing calls made so far, oldest first. */
    ghost var log: seq<Callback<K.Target>>

    /** The record of all fields, the value `CoordinatorKt` computes on. */
    ghost function Model(): K.Layout
      reads this
    {
      K.Layout(vertical, touchSlop,
               K.Children(header, content, footer, headerRefreshable, footerRefreshable),
               K.Listeners(internalListener, refreshListener, stateChangeListener),
               K.Pointer(pressedX, pressedY, lastX, lastY),
               state, targetState, contentOffset, target, lastTarget, scroller, log)
    }

    constructor(vertical: bool, touchSlop: int)
      ensures Model() == K.Initial(vertical, touchSlop)
    {
      this.vertical := vertical;
      this.touchSlop := touchSlop;
      header, content, footer := None, None, None;
      headerRefreshable, footerRefreshable := None, None;
      state, targetState, contentOffset := K.StateIdle, K.StateIdle, 0;
      target, lastTarget := None, None;
      pressedX, pressedY, lastX, lastY := 0, 0, 0, 0;
      scroller := NewScroller();
      internalListener, refreshListener, stateChangeListener := false, false, false;
      log := [];
    }

    // -------------------------------------------------------------------------
    // Children

    method OnViewAdded(child: View)
      modifies this
      ensures Model() == K.ViewAdded(old(Model()), child)
    {
      if child.role == K.RoleHeader {
        header := Some(child);
        headerRefreshable := K.AsRefreshable(child);
      } else if child.role == K.RoleFooter {
        footer := Some(child);
        footerRefreshable := K.AsRefreshable(child);
      } else if child.role == K.RoleContent {
        content := Some(child);
      }
    }

    method OnViewRemoved(child: View)
      modifies this
      ensures Model() == K.ViewRemoved(old(Model()), child)
    {
      if child.role == K.RoleHeader {
        header := None;
        headerRefreshable := None;
      } else if child.role == K.RoleFooter {
        footer := None;
        footerRefreshable := None;
      } else if child.role == K.RoleContent {
        content := None;
      }
    }

    // -------------------------------------------------------------------------
    // Private helpers

    method OffsetContent(offset: int)
      modifies this
      ensures Model() == K.OffsetContent(old(Model()), offset)
    {
      if lastTarget.Some? {
        log := log + [Offset(lastTarget.value, offset)];
      }
      if stateChangeListener {
        log := log + [ContentOffset(offset)];
      }
      contentOffset := offset;
    }

    method PrepareTarget(isFromHeader: bool)
      modifies this
      ensures Model() == K.PrepareTarget(old(Model()), isFromHeader)
    {
      if isFromHeader {
        if target.None? {
          lastTarget :=
            if headerRefreshable.Some? then headerRefreshable
            else if header.Some? then Some(K.Wrapped(Adapter.ViewRefreshable(header.value)))
            else None;
          target := lastTarget;
        }
      } else {
        if target.None? {
          lastTarget :=
            if footerRefreshable.Some? then footerRefreshable
            else if footer.Some? then Some(K.Wrapped(Adapter.ViewRefreshable(footer.value)))
            else None;
          target := lastTarget;
        }
      }
    }

    method AnimateContentToPosition(targetOffset: int)
      modifies this
      ensures Model() == K.AnimateContentToPosition(old(Model()), targetOffset)
    {
      if targetOffset != contentOffset {
        state := K.StateSettle;
        scroller := AbortAnimation(scroller);
        scroller := StartScroll(scroller, contentOffset, targetOffset - contentOffset);
      }
    }

    method AnimateResetContent()
      modifies this
      ensures Model() == K.AnimateResetContent(old(Model()))
    {
      target := None;
      targetState := K.StateIdle;
      AnimateContentToPosition(0);
    }

    method CompleteRefreshImmediately()
      modifies this
      ensures Model() == K.CompleteRefreshImmediately(old(Model()))
    {
      if K.StateDragFromTop <= state <= K.StateRefreshing {
        AnimateResetContent();
      }
    }

    // -------------------------------------------------------------------------
    // Nested-scroll parent

    method OnStartNestedScroll(child: View, nestedScrollAxes: bv32) returns (accepted: bool)
      ensures accepted == K.StartNestedScroll(Model(), child, nestedScrollAxes)
    {
      accepted := content == Some(child) &&
        if vertical then nestedScrollAxes & K.AxisVertical == K.AxisVertical
        else nestedScrollAxes & K.AxisHorizontal == K.AxisHorizontal;
    }

    method OnStopNestedScroll()
      modifies this
      ensures Model() == K.StopNestedScroll(old(Model()))
    {
      if state == K.StateRefreshing || state == K.StateSettle {
        return;
      }
      ghost var c := Model();
      if K.SizeOrZero(target, vertical) > 0 {
        var contentSize := K.SizeOrZero(lastTarget, vertical);
        if Abs(contentOffset) >= contentSize && target.Some? && !K.IsIndicator(target.value) {
          if lastTarget.Some? {
            log := log + [Release(lastTarget.value, true)];
          }
          targetState := K.StateRefreshing;
          assert Model() == c.(log := c.log + K.ReleaseTo(c.lastTarget, true), targetState := K.StateRefreshing);
          AnimateContentToPosition(if contentOffset > 0 then contentSize else -contentSize);
        } else {
          if lastTarget.Some? {
            log := log + [Release(lastTarget.value, false)];
          }
          assert Model() == c.(log := c.log + K.ReleaseTo(c.lastTarget, false));
          AnimateResetContent();
        }
      } else {
        AnimateResetContent();
      }
    }

    method OnNestedScroll(dxConsumed: int, dyConsumed: int, dxUnconsumed: int, dyUnconsumed: int)
      modifies this
      ensures Model() == K.NestedScroll(old(Model()), dxConsumed, dyConsumed, dxUnconsumed, dyUnconsumed)
    {
      if vertical {
        if 0 != dyUnconsumed {
          ghost var c := Model();
          scroller := AbortAnimation(scroller);
          state := if dyUnconsumed > 0 then K.StateDragFromBottom else K.StateDragFromTop;
          ghost var c1 := c.(scroller := AbortAnimation(c.scroller), state := if dyUnconsumed > 0 then K.StateDragFromBottom else K.StateDragFromTop);
          assert Model() == c1;
          PrepareTarget(0 > dyUnconsumed);
          ghost var c2 := Model();
          assert c2 == K.PrepareTarget(c1, 0 > dyUnconsumed);
          OffsetContent(contentOffset + K.ResolveOffset(dyConsumed));
          assert Model() == K.OffsetContent(c2, c2.contentOffset + K.ResolveOffset(dyConsumed));
        }
      } else {
        if 0 != dxUnconsumed {
          ghost var c := Model();
          scroller := AbortAnimation(scroller);
          state := if dxUnconsumed > 0 then K.StateDragFromRight else K.StateDragFromLeft;
          ghost var c1 := c.(scroller := AbortAnimation(c.scroller), state := if dxUnconsumed > 0 then K.StateDragFromRight else K.StateDragFromLeft);
          assert Model() == c1;
          PrepareTarget(0 > dxUnconsumed);
          ghost var c2 := Model();
          assert c2 == K.PrepareTarget(c1, 0 > dxUnconsumed);
          OffsetContent(contentOffset + K.ResolveOffset(dxUnconsumed));
          assert Model() == K.OffsetContent(c2, c2.contentOffset + K.ResolveOffset(dxUnconsumed));
        }
      }
    }

    method OnNestedPreScroll(dx: int, dy: int, consumed: array<int>)
      requires consumed.Length >= 2
      modifies this, consumed
      ensures Model() == K.NestedPreScroll(old(Model()), dx, dy)
      ensures consumed[..] == K.PreScrollConsumed(old(Model()), dx, dy, old(consumed[..]))
    {
      if K.IsDragging(state) {
        OffsetContent(contentOffset + K.ResolveOffset(if vertical then dy else dx));
      }
      if K.InRefreshProcess(state) {
        if vertical {
          consumed[1] := dy;
        } else {
          consumed[0] := dx;
        }
      }
    }

    method OnNestedFling() returns (claimed: bool)
      ensures claimed == K.ClaimsFling(Model())
    {
      claimed := K.InRefreshProcess(state);
    }

    method OnNestedPreFling() returns (claimed: bool)
      ensures claimed == K.ClaimsFling(Model())
    {
      claimed := K.InRefreshProcess(state);
    }

    // -------------------------------------------------------------------------
    // Raw touch input

    /** The move part of `onTouchEvent` on the vertical axis. */
    method TouchMoveVertical(event: K.Touch)
      requires vertical
      modifies this
      ensures Model() == K.TouchMoveVertical(old(Model()), event)
    {
      var deltaY := lastY - event.y;
      if event.ancestorConsumed.Some? {
        deltaY := deltaY - event.ancestorConsumed.value;
      }
      assert deltaY == K.MoveDelta(Model(), event);
      if state == K.StateIdle && Abs(pressedY - event.y) > touchSlop {
        state := if deltaY < 0 then K.StateDragFromTop else K.StateDragFromBottom;
        PrepareTarget(deltaY < 0);
      }
      assert Model() == if K.LeavesSlop(old(Model()), event) then K.BeginDrag(old(Model()), deltaY) else old(Model());
      if state == K.StateDragFromTop || state == K.StateDragFromBottom {
        OnNestedScroll(0, 0, 0, deltaY);
      }
    }

    /** The move part of `onTouchEvent` on the horizontal axis. */
    method TouchMoveHorizontal(event: K.Touch)
      requires !vertical
      modifies this
      ensures Model() == K.TouchMoveHorizontal(old(Model()), event)
    {
      var deltaX := lastX - event.x;
      if event.ancestorConsumed.Some? {
        deltaX := deltaX - event.ancestorConsumed.value;
      }
      assert deltaX == K.MoveDelta(Model(), event);
      if state == K.StateIdle && Abs(pressedX - event.x) > touchSlop {
        state := if deltaX < 0 then K.StateDragFromLeft else K.StateDragFromRight;
        PrepareTarget(deltaX < 0);
      }
      assert Model() == if K.LeavesSlop(old(Model()), event) then K.BeginDrag(old(Model()), deltaX) else old(Model());
      if state == K.StateDragFromLeft || state == K.StateDragFromRight {
        OnNestedScroll(0, 0, deltaX, 0);
      }
    }

    method OnTouchEvent(event: K.Touch) returns (handled: bool)
      modifies this
      ensures handled
      ensures Model() == K.TouchEvent(old(Model()), event)
    {
      match event.action {
        case Down =>
          pressedY := event.y;
          pressedX := event.x;
        case Move =>
          if vertical {
            TouchMoveVertical(event);
          } else {
            TouchMoveHorizontal(event);
          }
        case Up => OnStopNestedScroll();
        case Cancel => OnStopNestedScroll();
        case Outside => OnStopNestedScroll();
        case OtherAction =>
      }
      lastY := event.y;
      lastX := event.x;
      handled := true;
    }

    // -------------------------------------------------------------------------
    // Settle tick

    /** The calls `computeScroll` makes once a settle has ended in the
        current state: `onReset` when IDLE, `onRefreshStart` to the internal
        and then the public listener when REFRESHING. */
    method CompletionCalls()
      modifies this
      ensures Model() == old(Model()).(log := old(log) + K.CompletionNotices(old(Model()), state))
    {
      if state == K.StateIdle {
        if lastTarget.Some? {
          log := log + [Reset(lastTarget.value)];
        }
      } else if state == K.StateRefreshing {
        if internalListener {
          log := log + [RefreshStart(Internal, contentOffset < 0)];
        }
        if refreshListener {
          log := log + [RefreshStart(Public, contentOffset < 0)];
        }
      }
    }

    method ComputeScroll(frame: Frame)
      modifies this
      ensures Model() == K.ComputeScroll(old(Model()), frame)
    {
      if state == K.StateSettle {
        ghost var c := Model();
        var poll := ComputeScrollOffset(scroller, frame);
        scroller := poll.after;
        assert Model() == c.(scroller := poll.after);
        if poll.running {
          OffsetContent(scroller.currY);
        } else {
          state := targetState;
          ghost var c1 := Model();
          assert c1 == c.(scroller := poll.after, state := c.targetState);
          CompletionCalls();
          targetState := K.StateIdle;
          assert Model() == c1.(log := c1.log + K.CompletionNotices(c1, c1.state)).(targetState := K.StateIdle);
        }
      }
    }

    // -------------------------------------------------------------------------
    // Public calls

    /** `completeRefresh()`; the listeners' `onRefreshComplete` answers are
        the parameters. */
    method CompleteRefresh(internalIntercepts: bool, publicIntercepts: bool)
      modifies this
      ensures Model() == K.CompleteRefresh(old(Model()), internalIntercepts, publicIntercepts)
    {
      var intercept := false;
      if internalListener {
        log := log + [RefreshComplete(Internal)];
        intercept := internalIntercepts;
      }
      if !intercept {
        if refreshListener {
          log := log + [RefreshComplete(Public)];
          intercept := publicIntercepts;
        }
      }
      if !intercept {
        CompleteRefreshImmediately();
      }
    }

    /** `notifyRefreshComplete()` on an observable handed out by
        `completeRefresh`: its observer runs `completeRefreshImmediately`. */
    method NotifyRefreshComplete()
      modifies this
      ensures Model() == K.CompleteRefreshImmediately(old(Model()))
    {
      CompleteRefreshImmediately();
    }

    method SetRefresh(isFromHeader: bool)
      modifies this
      ensures Model() == K.SetRefresh(old(Model()), isFromHeader)
    {
      if state != K.StateRefreshing {
        ghost var c := Model();
        PrepareTarget(isFromHeader);
        ghost var c1 := Model();
        assert c1 == K.PrepareTarget(c, isFromHeader);
        if target.Some? {
          var it := target.value;
          if !K.IsIndicator(it) {
            state := K.StateRefreshing;
            targetState := K.StateRefreshing;
            log := log + [Release(it, true)];
            ghost var c2 := c1.(state := K.StateRefreshing, targetState := K.StateRefreshing, log := c1.log + [Release(it, true)]);
            assert Model() == c2;
            AnimateContentToPosition(if isFromHeader then -K.ContentSize(it, vertical) else K.ContentSize(it, vertical));
            assert Model() == K.AnimateContentToPosition(c2, if isFromHeader then -K.ContentSize(it, c.vertical) else K.ContentSize(it, c.vertical));
          }
        }
      }
    }

    method SetOnRefreshListener(present: bool)
      modifies this
      ensures Model() == K.SetRefreshListener(old(Model()), present)
    {
      refreshListener := present;
    }

    method SetOnRefreshStateChangeListener(present: bool)
      modifies this
      ensures Model() == K.SetStateChangeListener(old(Model()), present)
    {
      stateChangeListener := present;
    }

    // -------------------------------------------------------------------------
    // Saved state

    method OnSaveInstanceState() returns (saved: K.SavedState)
      ensures saved == K.Save(Model())
    {
      var code :=
        if K.SameObject(lastTarget, header) then K.TargetHeader
        else if K.SameObject(lastTarget, footer) then K.TargetFooter
        else K.TargetNone;
      saved := K.SavedState(state, contentOffset, code);
    }

    method OnRestoreInstanceState(saved: K.SavedState)
      modifies this
      ensures Model() == K.Restore(old(Model()), saved)
    {
      ghost var c := Model();
      state := saved.state;
      contentOffset := saved.contentOffset;
      lastTarget :=
        if saved.lastTarget == K.TargetHeader then headerRefreshable
        else if saved.lastTarget == K.TargetFooter then footerRefreshable
        else None;
      assert Model() == c.(state := saved.state, contentOffset := saved.contentOffset,
                           lastTarget := K.RestoredTarget(c, saved.lastTarget));
      OffsetContent(contentOffset);
      if state == K.StateRefreshing {
        PrepareTarget(0 > contentOffset);
      }
    }
  }
}
