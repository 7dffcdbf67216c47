/** The Java `RefreshLayout` as a class whose fields are the coordinator's
    fields, each method proved to agree with the matching function of
    `CoordinatorJava`. A `NullPointerException` the source can raise is
    reported through a `thrown` result; the fields are then as they were,
    because the source raises it before its first assignment. */
module RefreshLayoutJava {
  import opened Base
  import opened Animator
  import J = CoordinatorJava
  import Adapter = ViewRefreshableJava

  class RefreshLayout {
    const touchSlop: int

    var header: Option<View>
    var content: Option<View>
    var footer: Option<View>
    var headerRefreshable: Option<J.Target>
    var footerRefreshable: Option<J.Target>

    var state: int
    var targetState: int
    var contentOffset: int
    var target: Option<J.Target>
    var lastTarget: Option<J.Target>

    var pressedY: int
    var lastY: int

    var scroller: Scroller

    var internalListener: bool
    var refreshListener: bool
    var stateChangeListener: bool

    /** The outgoing calls made so far, oldest first. */
    ghost var log: seq<Callback<J.Target>>

    ghost function Model(): J.Layout
      reads this
    {
      J.Layout(touchSlop,
               J.Children(header, content, footer, headerRefreshable, footerRefreshable),
               J.Listeners(internalListener, refreshListener, stateChangeListener),
               J.Pointer(pressedY, lastY),
               state, targetState, contentOffset, target, lastTarget, scroller, log)
    }

    constructor(touchSlop: int)
      ensures Model() == J.Initial(touchSlop)
    {
      this.touchSlop := touchSlop;
      header, content, footer := None, None, None;
      headerRefreshable, footerRefreshable := None, None;
      state, targetState, contentOffset := J.StateIdle, J.StateIdle, 0;
      target, lastTarget := None, None;
      pressedY, lastY := 0, 0;
      scroller := NewScroller();
      internalListener, refreshListener, stateChangeListener := false, false, false;
      log := [];
    }

    // -------------------------------------------------------------------------
    // Children

    method AddView(child: View)
      modifies this
      ensures Model() == J.ViewAdded(old(Model()), child)
    {
      ghost var c := Model();
      if child.role == J.RoleContent {
        content := Some(child);
        assert Model() == c.(children := c.children.(content := Some(child)));
      } else if child.role == J.RoleFooter {
        footer := Some(child);
        if child.capability.Some? {
          footerRefreshable := Some(J.Own(child, child.capability.value));
        }
        assert Model() == c.(children := c.children.(footer := Some(child), footerRefreshable := footerRefreshable));
      } else if child.role == J.RoleHeader {
        header := Some(child);
        if child.capability.Some? {
          headerRefreshable := Some(J.Own(child, child.capability.value));
        }
        assert Model() == c.(children := c.children.(header := Some(child), headerRefreshable := headerRefreshable));
      }
    }

    // -------------------------------------------------------------------------
    // Private helpers

    method OffsetContent(offset: int)
      modifies this
      ensures Model() == J.OffsetContent(old(Model()), offset)
    {
      if lastTarget.Some? {
        log := log + [Offset(lastTarget.value, offset)];
      }
      if stateChangeListener {
        log := log + [ContentOffset(offset)];
      }
      contentOffset := offset;
    }

    method PrepareTarget(isFromHeader: bool)
      modifies this
      ensures Model() == J.PrepareTarget(old(Model()), isFromHeader)
    {
      if isFromHeader {
        if target.None? {
          lastTarget :=
            if headerRefreshable.Some? then headerRefreshable
            else if header.Some? then Some(J.Wrapped(Adapter.ViewRefreshable(header.value)))
            else None;
          target := lastTarget;
        }
      } else {
        if target.None? {
          lastTarget :=
            if footerRefreshable.Some? then footerRefreshable
            else if footer.Some? then Some(J.Wrapped(Adapter.ViewRefreshable(footer.value)))
            else None;
          target := lastTarget;
        }
      }
    }

    method AnimateContentToPosition(targetOffset: int)
      modifies this
      ensures Model() == J.AnimateContentToPosition(old(Model()), targetOffset)
    {
      if targetOffset != contentOffset {
        state := J.StateSettle;
        scroller := AbortAnimation(scroller);
        scroller := StartScroll(scroller, contentOffset, targetOffset - contentOffset);
      }
    }

    method AnimateResetContent()
      modifies this
      ensures Model() == J.AnimateResetContent(old(Model()))
    {
      target := None;
      targetState := J.StateIdle;
      AnimateContentToPosition(0);
    }

    method CompleteRefreshImmediately()
      modifies this
      ensures Model() == J.CompleteRefreshImmediately(old(Model()))
    {
      if state == J.StateRefreshing || state == J.StateDragFromBottom || state == J.StateDragFromTop {
        AnimateResetContent();
      }
    }

    // -------------------------------------------------------------------------
    // Nested-scroll parent

    method OnStartNestedScroll(child: View, nestedScrollAxes: bv32) returns (accepted: bool)
      ensures accepted == J.StartNestedScroll(Model(), child, nestedScrollAxes)
    {
      accepted := nestedScrollAxes & J.AxisVertical == J.AxisVertical && content == Some(child);
    }

    method OnStopNestedScroll() returns (thrown: bool)
      modifies this
      ensures thrown <==> J.StopThrows(old(Model()))
      ensures thrown ==> Model() == old(Model())
      ensures !thrown ==> J.StopNestedScroll(old(Model())) == Ok(Model())
    {
      thrown := false;
      if state == J.StateRefreshing || state == J.StateSettle {
        return;
      }
      if target.Some? && J.ContentSize(target.value) > 0 {
        if lastTarget.None? {
          thrown := true;
          return;
        }
        var last := lastTarget.value;
        if Abs(contentOffset) >= J.ContentSize(last) {
          log := log + [Release(last, true)];
          if !J.IsIndicator(target.value) {
            targetState := J.StateRefreshing;
            AnimateContentToPosition(if contentOffset > 0 then J.ContentSize(last) else -J.ContentSize(last));
          } else {
            AnimateResetContent();
          }
        } else {
          log := log + [Release(last, false)];
          AnimateResetContent();
        }
      } else {
        AnimateResetContent();
      }
    }

    method OnNestedScroll(dxConsumed: int, dyConsumed: int, dxUnconsumed: int, dyUnconsumed: int)
      modifies this
      ensures Model() == J.NestedScroll(old(Model()), dxConsumed, dyConsumed, dxUnconsumed, dyUnconsumed)
    {
      if 0 == dyUnconsumed {
        return;
      }
      scroller := AbortAnimation(scroller);
      var fixedOffset := J.FixedOffset(contentOffset, dyUnconsumed);
      state := if dyUnconsumed > 0 then J.StateDragFromBottom else J.StateDragFromTop;
      PrepareTarget(0 > dyUnconsumed);
      OffsetContent(fixedOffset);
    }

    method OnNestedPreScroll(dx: int, dy: int, consumed: array<int>)
      requires consumed.Length >= 2
      modifies this, consumed
      ensures Model() == J.NestedPreScroll(old(Model()), dx, dy)
      ensures consumed[..] == J.PreScrollConsumed(old(Model()), dx, dy, old(consumed[..]))
    {
      if state == J.StateDragFromBottom || state == J.StateDragFromTop {
        if state == J.StateDragFromBottom {
          if 0 > dy && 2 * contentOffset + dy < 0 {
            OffsetContent(0);
            state := J.StateIdle;
            return;
          }
        } else {
          if 0 < dy && 2 * contentOffset + dy > 0 {
            OffsetContent(0);
            state := J.StateIdle;
            return;
          }
        }
        OffsetContent(J.FixedOffset(contentOffset, dy));
        consumed[1] := dy;
      } else if state == J.StateRefreshing || state == J.StateSettle {
        consumed[1] := dy;
      }
    }

    method OnNestedFling() returns (claimed: bool)
      ensures claimed == J.ClaimsFling(Model())
    {
      claimed := state == J.StateRefreshing || state == J.StateDragFromTop || state == J.StateDragFromBottom || state == J.StateSettle;
    }

    method OnNestedPreFling() returns (claimed: bool)
      ensures claimed == J.ClaimsFling(Model())
    {
      claimed := state == J.StateRefreshing || state == J.StateDragFromTop || state == J.StateDragFromBottom || state == J.StateSettle;
    }

    // -------------------------------------------------------------------------
    // Raw touch input

    method TouchMove(event: J.Touch)
      modifies this
      ensures Model() == J.TouchMove(old(Model()), event)
    {
      var deltaY := lastY - event.y;
      if event.ancestorConsumed.Some? {
        deltaY := deltaY - event.ancestorConsumed.value;
      }
      assert deltaY == J.MoveDelta(Model(), event);
      if state == J.StateIdle && Abs(pressedY - event.y) > touchSlop {
        state := if deltaY < 0 then J.StateDragFromTop else J.StateDragFromBottom;
        PrepareTarget(deltaY < 0);
      }
      assert Model() == if J.LeavesSlop(old(Model()), event) then J.BeginDrag(old(Model()), deltaY) else old(Model());
      if state == J.StateDragFromTop || state == J.StateDragFromBottom {
        OnNestedScroll(0, 0, 0, deltaY);
      }
    }

    method OnTouchEvent(event: J.Touch) returns (handled: bool, thrown: bool)
      modifies this
      ensures !thrown ==> handled
      ensures J.TouchEvent(old(Model()), event) == if thrown then Error("NullPointerException") else Ok(Model())
      ensures thrown ==> Model() == old(Model())
    {
      handled, thrown := false, false;
      match event.action {
        case Down =>
          pressedY := event.y;
        case Move =>
          TouchMove(event);
        case Up => thrown := OnStopNestedScroll();
        case Cancel => thrown := OnStopNestedScroll();
        case Outside => thrown := OnStopNestedScroll();
        case OtherAction =>
      }
      if thrown {
        return;
      }
      lastY := event.y;
      handled := true;
    }

    // -------------------------------------------------------------------------
    // Settle tick

    /** The calls `computeScroll` makes once a settle has ended in the
        current state: `onReset` when IDLE, `onRefreshStart` to the internal
        and then the public listener when REFRESHING. */
    method CompletionCalls()
      modifies this
      ensures Model() == old(Model()).(log := old(log) + J.CompletionNotices(old(Model()), state))
    {
      if state == J.StateIdle {
        if lastTarget.Some? {
          log := log + [Reset(lastTarget.value)];
        }
      } else if state == J.StateRefreshing {
        if internalListener {
          log := log + [RefreshStart(Internal, contentOffset < 0)];
        }
        if refreshListener {
          log := log + [RefreshStart(Public, contentOffset < 0)];
        }
      }
    }

    method ComputeScroll(frame: Frame)
      modifies this
      ensures Model() == J.ComputeScroll(old(Model()), frame)
    {
      if state == J.StateSettle {
        ghost var c := Model();
        var poll := ComputeScrollOffset(scroller, frame);
        scroller := poll.after;
        assert Model() == c.(scroller := poll.after);
        if poll.running {
          OffsetContent(scroller.currY);
        } else {
          state := targetState;
          ghost var c1 := Model();
          assert c1 == c.(scroller := poll.after, state := c.targetState);
          CompletionCalls();
          targetState := J.StateIdle;
          assert Model() == c1.(log := c1.log + J.CompletionNotices(c1, c1.state)).(targetState := J.StateIdle);
        }
      }
    }

    // -------------------------------------------------------------------------
    // Public calls

    method CompleteRefresh(internalIntercepts: bool, publicIntercepts: bool)
      modifies this
      ensures Model() == J.CompleteRefresh(old(Model()), internalIntercepts, publicIntercepts)
    {
      ghost var c := Model();
      var intercept := false;
      if internalListener {
        log := log + [RefreshComplete(Internal)];
        intercept := internalIntercepts;
      }
      ghost var c1 := c.(log := c.log + (if c.listeners.internal then [RefreshComplete(Internal)] else []));
      assert Model() == c1;
      if !intercept && refreshListener {
        log := log + [RefreshComplete(Public)];
        intercept := publicIntercepts;
      }
      assert Model() == if !(c.listeners.internal && internalIntercepts) && c.listeners.public then c1.(log := c1.log + [RefreshComplete(Public)]) else c1;
      if !intercept {
        CompleteRefreshImmediately();
      }
    }

    /** `notifyRefreshComplete()` on a retained `RefreshObservable`: its
        observer runs `completeRefreshImmediately`. */
    method NotifyRefreshComplete()
      modifies this
      ensures Model() == J.CompleteRefreshImmediately(old(Model()))
    {
      CompleteRefreshImmediately();
    }

    method SetRefresh(isFromHeader: bool)
      modifies this
      ensures Model() == J.SetRefresh(old(Model()), isFromHeader)
    {
      if state != J.StateRefreshing {
        ghost var c := Model();
        state := J.StateSettle;
        targetState := J.StateRefreshing;
        assert Model() == c.(state := J.StateSettle, targetState := J.StateRefreshing);
        PrepareTarget(isFromHeader);
        ghost var c1 := Model();
        assert c1 == J.PrepareTarget(c.(state := J.StateSettle, targetState := J.StateRefreshing), isFromHeader);
        if lastTarget.Some? && !J.IsIndicator(lastTarget.value) {
          state := J.StateRefreshing;
          log := log + [Release(lastTarget.value, true)];
          assert Model() == c1.(state := J.StateRefreshing, log := c1.log + [Release(c1.lastTarget.value, true)]);
          var size := J.SizeOrZero(target);
          AnimateContentToPosition(if isFromHeader then -size else size);
        }
      }
    }

    method SetOnRefreshListener(present: bool)
      modifies this
      ensures Model() == J.SetRefreshListener(old(Model()), present)
    {
      refreshListener := present;
    }

    method SetOnRefreshStateChangeListener(present: bool)
      modifies this
      ensures Model() == J.SetStateChangeListener(old(Model()), present)
    {
      stateChangeListener := present;
    }

    method SetInternalOnRefreshListener(present: bool)
      modifies this
      ensures Model() == J.SetInternalRefreshListener(old(Model()), present)
    {
      internalListener := present;
    }

    // -------------------------------------------------------------------------
    // Saved state

    method OnSaveInstanceState() returns (saved: J.SavedState)
      ensures saved == J.Save(Model())
    {
      var code :=
        if lastTarget.None? then J.TargetNone
        else if J.IsView(lastTarget.value, header) then J.TargetHeader
        else J.TargetFooter;
      saved := J.SavedState(state, contentOffset, code);
    }

    method OnRestoreInstanceState(saved: J.SavedState)
      modifies this
      ensures Model() == J.Restore(old(Model()), saved)
    {
      ghost var c := Model();
      state := saved.state;
      contentOffset := saved.contentOffset;
      if saved.lastTarget == J.TargetHeader {
        lastTarget := headerRefreshable;
      } else if saved.lastTarget == J.TargetFooter {
        lastTarget := footerRefreshable;
      }
      ghost var c1 := c.(state := saved.state, contentOffset := saved.contentOffset,
                         lastTarget := J.RestoredTarget(c, saved.lastTarget));
      assert Model() == c1;
      OffsetContent(contentOffset);
      assert Model() == J.OffsetContent(c1, c1.contentOffset);
      if J.StateRefreshing == state {
        PrepareTarget(0 > contentOffset);
      }
    }
  }
}
