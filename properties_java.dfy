/** Properties of the Java coordinator that relate several calls: settle
    runs, the release and the pre-scroll clamp, the `NullPointerException`
    only a restore can set up, the passive-indicator law without
    `setRefresh`, save/restore round trips, and the release scenarios. */
module PropertiesJava {
  import opened Base
  import opened CallLog
  import opened Animator
  import opened CoordinatorJava
  import Adapter = ViewRefreshableJava

  // ---------------------------------------------------------------------------
  // Settle runs

  /** The layout after polling `computeScroll` once per frame. */
  function Ticks(c: Layout, frames: seq<Frame>): Layout
    decreases |frames|
  {
    if frames == [] then c else Ticks(ComputeScroll(c, frames[0]), frames[1..])
  }

  predicate AllBetween(frames: seq<Frame>)
  {
    forall k :: 0 <= k < |frames| ==> frames[k].Between?
  }

  predicate Extends(c: Layout, r: Layout)
  {
    |c.log| <= |r.log| && r.log[..|c.log|] == c.log
  }

  lemma {:induction false} TicksAppend(c: Layout, a: seq<Frame>, b: seq<Frame>)
    ensures Ticks(c, a + b) == Ticks(Ticks(c, a), b)
    decreases |a|
  {
    if a == [] {
      assert a + b == b;
    } else {
      assert (a + b)[0] == a[0] && (a + b)[1..] == a[1..] + b;
      assert Ticks(c, a + b) == Ticks(ComputeScroll(c, a[0]), a[1..] + b);
      TicksAppend(ComputeScroll(c, a[0]), a[1..], b);
    }
  }

  /** The completion calls read only the last target, the offset and the listeners. */
  lemma CompletionNoticesFrame(a: Layout, b: Layout, into: int)
    requires a.lastTarget == b.lastTarget && a.contentOffset == b.contentOffset && a.listeners == b.listeners
    ensures CompletionNotices(a, into) == CompletionNotices(b, into)
  {
  }

  /** While the animator runs, every frame moves the content to the frame's
      value and tells only offsets; state, target state, targets and the
      animator's goal stay as they were. */
  lemma {:induction false} SettleFollowsFrames(c: Layout, frames: seq<Frame>)
    requires c.state == StateSettle && !c.scroller.finished && AllBetween(frames)
    ensures var r := Ticks(c, frames);
      && r.state == StateSettle && !r.scroller.finished && r.targetState == c.targetState
      && r.scroller.finalY == c.scroller.finalY
      && SameWiring(c, r) && r.target == c.target && r.lastTarget == c.lastTarget
      && Extends(c, r) && OnlyOffsets(r.log[|c.log|..])
      && (frames != [] ==> r.contentOffset == frames[|frames| - 1].y)
      && (frames == [] ==> r == c)
    decreases |frames|
  {
    if frames != [] {
      var c1 := ComputeScroll(c, frames[0]);
      SettleTick(c, frames[0]);
      assert AllBetween(frames[1..]) by {
        forall k | 0 <= k < |frames[1..]| ensures frames[1..][k].Between? {
          assert frames[1..][k] == frames[k + 1];
        }
      }
      SettleFollowsFrames(c1, frames[1..]);
      LogChain(c.log, c1.log, Ticks(c1, frames[1..]).log);
    }
  }

  /** One frame of a running settle. */
  lemma SettleTick(c: Layout, f: Frame)
    requires c.state == StateSettle && !c.scroller.finished && f.Between?
    ensures var r := ComputeScroll(c, f);
      && r.state == StateSettle && !r.scroller.finished && r.targetState == c.targetState
      && r.scroller.finalY == c.scroller.finalY
      && SameWiring(c, r) && r.target == c.target && r.lastTarget == c.lastTarget
      && r.contentOffset == f.y
      && Extends(c, r) && OnlyOffsets(r.log[|c.log|..])
  {
    var r := ComputeScroll(c, f);
    OffsetNoticesAreOffsets(c, f.y);
    assert r.log[|c.log|..] == OffsetNotices(c, f.y);
  }

  /** A settle completes: after any frames the animator yields, the elapsed
      frame puts the content at the animator's goal, and the next poll adopts
      the target state, resets the target state to IDLE and makes the
      completion calls once, after nothing but offset calls. */
  lemma SettleCompletes(c: Layout, frames: seq<Frame>)
    requires c.state == StateSettle && !c.scroller.finished && AllBetween(frames)
    ensures var r := Ticks(c, frames + [Elapsed, Elapsed]);
      var notices := CompletionNotices(c.(contentOffset := c.scroller.finalY), c.targetState);
      && r.state == c.targetState && r.targetState == StateIdle
      && r.contentOffset == c.scroller.finalY
      && SameWiring(c, r) && r.target == c.target && r.lastTarget == c.lastTarget
      && Extends(c, r) && |r.log| - |c.log| >= |notices|
      && r.log[|r.log| - |notices|..] == notices
      && OnlyOffsets(r.log[|c.log|..|r.log| - |notices|])
  {
    SettleFollowsFrames(c, frames);
    var m := Ticks(c, frames);
    TicksAppend(c, frames, [Elapsed, Elapsed]);
    TwoElapsed(m);
    CompletionNoticesFrame(m.(contentOffset := m.scroller.finalY), c.(contentOffset := c.scroller.finalY), c.targetState);
    OffsetNoticesAreOffsets(m, c.scroller.finalY);
    SettleLog(c.log, m.log, Ticks(m, [Elapsed, Elapsed]).log, OffsetNotices(m, c.scroller.finalY),
              CompletionNotices(c.(contentOffset := c.scroller.finalY), c.targetState));
  }

  /** The last two polls of a settle: the elapsed frame moves the content to
      the goal, the next poll completes. */
  lemma TwoElapsed(m: Layout)
    requires m.state == StateSettle && !m.scroller.finished
    ensures var r := Ticks(m, [Elapsed, Elapsed]);
      && r.state == m.targetState && r.targetState == StateIdle
      && r.contentOffset == m.scroller.finalY
      && SameWiring(m, r) && r.target == m.target && r.lastTarget == m.lastTarget
      && r.log == m.log + OffsetNotices(m, m.scroller.finalY)
                + CompletionNotices(m.(contentOffset := m.scroller.finalY), m.targetState)
  {
    var m1 := ComputeScroll(m, Elapsed);
    var r := ComputeScroll(m1, Elapsed);
    assert Ticks(m, [Elapsed, Elapsed]) == r by {
      assert [Elapsed, Elapsed][1..] == [Elapsed];
      assert Ticks(m1, [Elapsed]) == Ticks(r, []);
    }
    CompletionNoticesFrame(m1, m.(contentOffset := m.scroller.finalY), m.targetState);
  }

  /** Once a settle has completed into IDLE or REFRESHING, further frames
      change nothing: the completion calls are not repeated. */
  lemma {:induction false} TicksOutsideSettle(c: Layout, frames: seq<Frame>)
    requires c.state != StateSettle
    ensures Ticks(c, frames) == c
    decreases |frames|
  {
    if frames != [] {
      TicksOutsideSettle(ComputeScroll(c, frames[0]), frames[1..]);
    }
  }

  lemma OffsetNoticesAreOffsets(c: Layout, offset: int)
    ensures OnlyOffsets(OffsetNotices(c, offset))
  {
  }

  // ---------------------------------------------------------------------------
  // Release followed by the settle

  /** A release that reaches the last target's size with a target that is
      not an indicator leads, once the animator finishes, to REFRESHING at
      the size on the offset's side, each listener told `onRefreshStart`
      once with the side of the drag. */
  lemma ReleaseStartsRefresh(c: Layout, frames: seq<Frame>)
    requires c.state != StateRefreshing && c.state != StateSettle && Triggers(c)
    requires Abs(c.contentOffset) != ContentSize(c.lastTarget.value) && AllBetween(frames)
    ensures StopNestedScroll(c).Ok?
    ensures var size := ContentSize(c.lastTarget.value);
      var goal := if c.contentOffset > 0 then size else -size;
      var r := Ticks(StopNestedScroll(c).value, frames + [Elapsed, Elapsed]);
      && r.state == StateRefreshing && r.targetState == StateIdle && r.contentOffset == goal
      && |r.log| >= |StartNotices(c, goal < 0)|
      && r.log[|r.log| - |StartNotices(c, goal < 0)|..] == StartNotices(c, goal < 0)
      && (size > 0 ==> (goal < 0 <==> c.contentOffset < 0))
  {
    var s := StopNestedScroll(c).value;
    SettleCompletes(s, frames);
    var size := ContentSize(c.lastTarget.value);
    var goal := if c.contentOffset > 0 then size else -size;
    assert CompletionNotices(s.(contentOffset := goal), StateRefreshing) == StartNotices(c, goal < 0);
  }

  /** A release exactly at the goal (the offset already equals the signed
      size of the last target): the last target hears `onRelease(true)` and
      REFRESHING becomes the state to settle into, but
      `animateContentToPosition` starts no settle, so the layout stays in
      its drag state and no frame ever completes into REFRESHING. */
  lemma ReleaseAtGoalStalls(c: Layout, frames: seq<Frame>)
    requires c.state != StateRefreshing && c.state != StateSettle && Triggers(c)
    requires Abs(c.contentOffset) == ContentSize(c.lastTarget.value)
    ensures StopNestedScroll(c).Ok?
    ensures var s := StopNestedScroll(c).value;
      && s.state == c.state && s.targetState == StateRefreshing && s.contentOffset == c.contentOffset
      && s.log == c.log + [Release(c.lastTarget.value, true)]
      && Ticks(s, frames) == s
  {
    TicksOutsideSettle(StopNestedScroll(c).value, frames);
  }

  /** `setRefresh(fromHeader)` when the offset already equals the goal: the
      layout enters REFRESHING at once, the last target hears
      `onRelease(true)`, but no settle runs, so no frame makes the
      `onRefreshStart` calls. */
  lemma SetRefreshAtGoalStartsNothing(c: Layout, fromHeader: bool, frames: seq<Frame>)
    requires Activates(c, fromHeader)
    requires (if fromHeader then -1 else 1) * ContentSize(PrepareTarget(c, fromHeader).target.value) == c.contentOffset
    ensures var r := SetRefresh(c, fromHeader);
      && r.state == StateRefreshing && r.targetState == StateRefreshing && r.contentOffset == c.contentOffset
      && r.log == c.log + [Release(PrepareTarget(c, fromHeader).lastTarget.value, true)]
      && Ticks(r, frames) == r
  {
    TicksOutsideSettle(SetRefresh(c, fromHeader), frames);
  }

  /** A passive indicator released past the threshold is told
      `onRelease(true)` and then, once the content is back at 0, `onReset`:
      the layout never refreshes. */
  lemma IndicatorReleaseResets(c: Layout, frames: seq<Frame>)
    requires c.state != StateRefreshing && c.state != StateSettle
    requires c.target.Some? && IsIndicator(c.target.value) && ContentSize(c.target.value) > 0
    requires c.lastTarget.Some? && Abs(c.contentOffset) >= ContentSize(c.lastTarget.value)
    requires c.contentOffset != 0 && AllBetween(frames)
    ensures StopNestedScroll(c).Ok?
    ensures var s := StopNestedScroll(c).value;
      var r := Ticks(s, frames + [Elapsed, Elapsed]);
      && s.log == c.log + [Release(c.lastTarget.value, true)]
      && r.state == StateIdle && r.contentOffset == 0 && r.target.None?
      && |r.log| >= 1 && r.log[|r.log| - 1] == Reset(c.lastTarget.value)
  {
    var s := StopNestedScroll(c).value;
    SettleCompletes(s, frames);
    assert CompletionNotices(s.(contentOffset := 0), StateIdle) == [Reset(c.lastTarget.value)];
  }

  /** A release short of the last target's size: `onRelease(false)`, then
      `onReset` once the content is back at 0. */
  lemma ShortReleaseResets(c: Layout, frames: seq<Frame>)
    requires c.state != StateRefreshing && c.state != StateSettle
    requires c.target.Some? && ContentSize(c.target.value) > 0
    requires c.lastTarget.Some? && Abs(c.contentOffset) < ContentSize(c.lastTarget.value)
    requires c.contentOffset != 0 && AllBetween(frames)
    ensures StopNestedScroll(c).Ok?
    ensures var s := StopNestedScroll(c).value;
      var r := Ticks(s, frames + [Elapsed, Elapsed]);
      && s.log == c.log + [Release(c.lastTarget.value, false)]
      && r.state == StateIdle && r.contentOffset == 0 && r.target.None?
      && |r.log| >= 1 && r.log[|r.log| - 1] == Reset(c.lastTarget.value)
  {
    var s := StopNestedScroll(c).value;
    SettleCompletes(s, frames);
    assert CompletionNotices(s.(contentOffset := 0), StateIdle) == [Reset(c.lastTarget.value)];
  }

  // ---------------------------------------------------------------------------
  // The pre-scroll clamp

  /** The layout after one `onNestedPreScroll` per vertical delta. */
  function PreScrolls(c: Layout, dys: seq<int>): Layout
    decreases |dys|
  {
    if dys == [] then c else PreScrolls(NestedPreScroll(c, 0, dys[0]), dys[1..])
  }

  /** However the content is pushed back, a drag from the top never carries
      it past the resting position: the offset stays at or below 0,
      and the drag either goes on or has ended in IDLE. */
  lemma {:induction false} DragFromTopStaysAbove(c: Layout, dys: seq<int>)
    requires c.state == StateDragFromTop && c.contentOffset <= 0
    ensures var r := PreScrolls(c, dys);
      && r.contentOffset <= 0 && (r.state == StateDragFromTop || r.state == StateIdle)
      && r.target == c.target && r.lastTarget == c.lastTarget
    decreases |dys|
  {
    if dys != [] {
      var c1 := NestedPreScroll(c, 0, dys[0]);
      if c1.state == StateIdle {
        PreScrollsWhenIdle(c1, dys[1..]);
      } else {
        DragFromTopStaysAbove(c1, dys[1..]);
      }
    }
  }

  /** The symmetric law for a drag from the bottom. */
  lemma {:induction false} DragFromBottomStaysBelow(c: Layout, dys: seq<int>)
    requires c.state == StateDragFromBottom && c.contentOffset >= 0
    ensures var r := PreScrolls(c, dys);
      && r.contentOffset >= 0 && (r.state == StateDragFromBottom || r.state == StateIdle)
      && r.target == c.target && r.lastTarget == c.lastTarget
    decreases |dys|
  {
    if dys != [] {
      var c1 := NestedPreScroll(c, 0, dys[0]);
      if c1.state == StateIdle {
        PreScrollsWhenIdle(c1, dys[1..]);
      } else {
        DragFromBottomStaysBelow(c1, dys[1..]);
      }
    }
  }

  /** Once IDLE, pre-scrolls change nothing. */
  lemma {:induction false} PreScrollsWhenIdle(c: Layout, dys: seq<int>)
    requires c.state == StateIdle
    ensures PreScrolls(c, dys) == c
    decreases |dys|
  {
    if dys != [] {
      PreScrollsWhenIdle(NestedPreScroll(c, 0, dys[0]), dys[1..]);
    }
  }

  /** The Java clamp: a drag from the top two pixels down, pushed back by
      ten, stops at 0 and goes IDLE, and the delta is not consumed (the
      Kotlin layout lets the same step cross to 3, as
      `PropertiesKt.PreScrollCrossesZero` shows). */
  lemma PreScrollStopsAtZero(c: Layout, consumed: seq<int>)
    requires c.state == StateDragFromTop && c.contentOffset == -2 && |consumed| >= 2
    ensures var r := NestedPreScroll(c, 0, 10);
      r.state == StateIdle && r.contentOffset == 0
    ensures PreScrollConsumed(c, 0, 10, consumed) == consumed
  {
  }

  // ---------------------------------------------------------------------------
  // Input sequences and the NullPointerException

  /** One call from outside the coordinator. */
  datatype Input =
    | ScrollIn(dxConsumed: int, dyConsumed: int, dxUnconsumed: int, dyUnconsumed: int)
    | PreScrollIn(dx: int, dy: int)
    | StopIn
    | FrameIn(frame: Frame)
    | TouchIn(touch: Touch)
    | CompleteIn(internalIntercepts: bool, publicIntercepts: bool)
    | NotifyIn
    | SetRefreshIn(fromHeader: bool)
    | ListenerIn(present: bool)
    | StateListenerIn(present: bool)
    | InternalListenerIn(present: bool)
    | AddIn(child: View)
    | RestoreIn(saved: SavedState)

  /** One call; the gesture ends can throw. */
  function Step(c: Layout, i: Input): Result<Layout>
  {
    match i
    case ScrollIn(a, b, d, e) => Ok(NestedScroll(c, a, b, d, e))
    case PreScrollIn(dx, dy) => Ok(NestedPreScroll(c, dx, dy))
    case StopIn => StopNestedScroll(c)
    case FrameIn(f) => Ok(ComputeScroll(c, f))
    case TouchIn(t) => TouchEvent(c, t)
    case CompleteIn(ii, pi) => Ok(CompleteRefresh(c, ii, pi))
    case NotifyIn => Ok(CompleteRefreshImmediately(c))
    case SetRefreshIn(h) => Ok(SetRefresh(c, h))
    case ListenerIn(p) => Ok(SetRefreshListener(c, p))
    case StateListenerIn(p) => Ok(SetStateChangeListener(c, p))
    case InternalListenerIn(p) => Ok(SetInternalRefreshListener(c, p))
    case AddIn(v) => Ok(ViewAdded(c, v))
    case RestoreIn(s) => Ok(Restore(c, s))
  }

  /** The calls one after the other, up to the first exception. */
  function Run(c: Layout, inputs: seq<Input>): Result<Layout>
    decreases |inputs|
  {
    if inputs == [] then Ok(c)
    else match Step(c, inputs[0])
      case Error(m) => Error(m)
      case Ok(c1) => Run(c1, inputs[1..])
  }

  /** `mLastTarget` is set whenever `mTarget` is: `prepareTarget` fills both
      together and only resets clear `mTarget`. */
  predicate TargetsPaired(c: Layout)
  {
    c.target.Some? ==> c.lastTarget.Some?
  }

  lemma TouchKeepsPaired(c: Layout, t: Touch)
    requires TargetsPaired(c)
    ensures TouchEvent(c, t).Ok? && TargetsPaired(TouchEvent(c, t).value)
  {
    if t.action == Move {
      var c1 := if LeavesSlop(c, t) then BeginDrag(c, MoveDelta(c, t)) else c;
      assert TargetsPaired(c1);
      assert TargetsPaired(TouchMove(c, t));
    }
  }

  lemma StepKeepsPaired(c: Layout, i: Input)
    requires TargetsPaired(c) && !i.RestoreIn?
    ensures Step(c, i).Ok? && TargetsPaired(Step(c, i).value)
  {
    match i
    case TouchIn(t) => TouchKeepsPaired(c, t);
    case _ =>
  }

  /** Without a restore no gesture ever throws: the targets stay paired, so
      `onStopNestedScroll` always finds a last target. */
  lemma {:induction false} NoExceptionWithoutRestore(c: Layout, inputs: seq<Input>)
    requires TargetsPaired(c)
    requires forall k :: 0 <= k < |inputs| ==> !inputs[k].RestoreIn?
    ensures Run(c, inputs).Ok? && TargetsPaired(Run(c, inputs).value)
    decreases |inputs|
  {
    if inputs != [] {
      StepKeepsPaired(c, inputs[0]);
      assert forall k :: 0 <= k < |inputs[1..]| ==> !inputs[1..][k].RestoreIn? by {
        forall k | 0 <= k < |inputs[1..]| ensures !inputs[1..][k].RestoreIn? {
          assert inputs[1..][k] == inputs[k + 1];
        }
      }
      NoExceptionWithoutRestore(Step(c, inputs[0]).value, inputs[1..]);
    }
  }

  /** A restore in the middle of a drag can break the pairing: with a plain
      header (empty `Refreshable` slot) the saved code HEADER clears
      `mLastTarget` while the wrapped target stays, and the next release
      throws. */
  lemma RestoreSetsUpException(c: Layout, s: SavedState)
    requires c.target.Some? && ContentSize(c.target.value) > 0
    requires c.children.headerRefreshable.None? && s.lastTarget == TargetHeader
    requires s.state == StateDragFromTop || s.state == StateDragFromBottom
    ensures StopNestedScroll(Restore(c, s)).Error?
    ensures TouchEvent(Restore(c, s), Touch(Up, 0, None)).Error?
  {
  }

  // ---------------------------------------------------------------------------
  // Passive indicators

  predicate IndicatorOrNone(t: Option<Target>)
  {
    t.None? || IsIndicator(t.value)
  }

  predicate IndicatorSlots(ch: Children)
  {
    && ch.headerRefreshable.Some? && IsIndicator(ch.headerRefreshable.value)
    && ch.footerRefreshable.Some? && IsIndicator(ch.footerRefreshable.value)
  }

  /** Passive indicators as header and footer, no target but an indicator,
      nothing REFRESHING and no `onRefreshStart` told. */
  predicate Passive(c: Layout)
  {
    && IndicatorSlots(c.children) && IndicatorOrNone(c.target) && IndicatorOrNone(c.lastTarget)
    && c.state != StateRefreshing && c.targetState != StateRefreshing && NoStart(c.log)
  }

  lemma PassiveByAppend(c: Layout, r: Layout, ext: seq<Callback<Target>>)
    requires Passive(c) && r.log == c.log + ext && NoStart(ext)
    requires IndicatorSlots(r.children) && IndicatorOrNone(r.target) && IndicatorOrNone(r.lastTarget)
    requires r.state != StateRefreshing && r.targetState != StateRefreshing
    ensures Passive(r)
  {
    NoStartAppend(c.log, ext);
  }

  lemma OffsetPassive(c: Layout, offset: int)
    requires Passive(c)
    ensures Passive(OffsetContent(c, offset))
  {
    PassiveByAppend(c, OffsetContent(c, offset), OffsetNotices(c, offset));
  }

  lemma ScrollPassive(c: Layout, a: int, b: int, d: int, e: int)
    requires Passive(c)
    ensures Passive(NestedScroll(c, a, b, d, e))
  {
    if e != 0 {
      var c1 := c.(scroller := AbortAnimation(c.scroller));
      var c2 := c1.(state := if e > 0 then StateDragFromBottom else StateDragFromTop);
      var c3 := PrepareTarget(c2, 0 > e);
      assert Passive(c3);
      OffsetPassive(c3, FixedOffset(c.contentOffset, e));
    }
  }

  lemma PreScrollPassive(c: Layout, dx: int, dy: int)
    requires Passive(c)
    ensures Passive(NestedPreScroll(c, dx, dy))
  {
    if IsDragging(c.state) {
      if CrossesZero(c, dy) {
        OffsetPassive(c, 0);
      } else {
        OffsetPassive(c, FixedOffset(c.contentOffset, dy));
      }
    }
  }

  lemma StopPassive(c: Layout)
    requires Passive(c) && StopNestedScroll(c).Ok?
    ensures Passive(StopNestedScroll(c).value)
  {
    var r := StopNestedScroll(c).value;
    if c.state != StateRefreshing && c.state != StateSettle {
      assert !Triggers(c);
      if SizeOrZero(c.target) > 0 {
        PassiveByAppend(c, r, [Release(c.lastTarget.value, Abs(c.contentOffset) >= ContentSize(c.lastTarget.value))]);
      } else {
        PassiveByAppend(c, r, []);
      }
    }
  }

  lemma FramePassive(c: Layout, f: Frame)
    requires Passive(c)
    ensures Passive(ComputeScroll(c, f))
  {
    var r := ComputeScroll(c, f);
    if c.state == StateSettle && !c.scroller.finished {
      PassiveByAppend(c, r, OffsetNotices(c, r.contentOffset));
    } else if c.state == StateSettle {
      PassiveByAppend(c, r, CompletionNotices(c, c.targetState));
    }
  }

  lemma CompletePassive(c: Layout, ii: bool, pi: bool)
    requires Passive(c)
    ensures Passive(CompleteRefresh(c, ii, pi))
  {
    var c1 := c.(log := c.log + CompletionOffers(c, ii));
    PassiveByAppend(c, c1, CompletionOffers(c, ii));
  }

  lemma TouchPassive(c: Layout, t: Touch)
    requires Passive(c) && TouchEvent(c, t).Ok?
    ensures Passive(TouchEvent(c, t).value)
  {
    if t.action == Move {
      var c1 := if LeavesSlop(c, t) then BeginDrag(c, MoveDelta(c, t)) else c;
      assert Passive(c1);
      if IsDragging(c1.state) {
        ScrollPassive(c1, 0, 0, 0, MoveDelta(c, t));
      }
    } else if t.action == Up || t.action == Cancel || t.action == Outside {
      StopPassive(c);
    }
  }

  /** The calls of a passive run: no `setRefresh`, no new child, no restore. */
  predicate PassiveInput(i: Input)
  {
    !i.SetRefreshIn? && !i.AddIn? && !i.RestoreIn?
  }

  lemma StepPassive(c: Layout, i: Input)
    requires Passive(c) && PassiveInput(i) && Step(c, i).Ok?
    ensures Passive(Step(c, i).value)
  {
    match i
    case ScrollIn(a, b, d, e) => ScrollPassive(c, a, b, d, e);
    case PreScrollIn(dx, dy) => PreScrollPassive(c, dx, dy);
    case StopIn => StopPassive(c);
    case FrameIn(f) => FramePassive(c, f);
    case TouchIn(t) => TouchPassive(c, t);
    case CompleteIn(ii, pi) => CompletePassive(c, ii, pi);
    case NotifyIn =>
    case ListenerIn(p) =>
    case StateListenerIn(p) =>
    case InternalListenerIn(p) =>
  }

  /** With passive indicators as header and footer, gestures, frames and
      completions never reach REFRESHING nor tell `onRefreshStart`. (A
      `setRefresh` does: see the findings.) */
  lemma {:induction false} IndicatorsNeverRefresh(c: Layout, inputs: seq<Input>)
    requires Passive(c)
    requires forall k :: 0 <= k < |inputs| ==> PassiveInput(inputs[k])
    ensures Run(c, inputs).Ok? ==> Passive(Run(c, inputs).value)
    decreases |inputs|
  {
    if inputs != [] && Step(c, inputs[0]).Ok? {
      StepPassive(c, inputs[0]);
      assert forall k :: 0 <= k < |inputs[1..]| ==> PassiveInput(inputs[1..][k]) by {
        forall k | 0 <= k < |inputs[1..]| ensures PassiveInput(inputs[1..][k]) {
          assert inputs[1..][k] == inputs[k + 1];
        }
      }
      IndicatorsNeverRefresh(Step(c, inputs[0]).value, inputs[1..]);
    }
  }

  // ---------------------------------------------------------------------------
  // Children and saved state

  /** `addView` of a header without the capability keeps the previous
      header's `Refreshable` in the slot, so the slot and the view can
      disagree. */
  lemma PlainHeaderKeepsStaleSlot(c: Layout, child: View)
    requires child.role == RoleHeader && child.capability.None?
    ensures var r := ViewAdded(c, child);
      r.children.header == Some(child) && r.children.headerRefreshable == c.children.headerRefreshable
  {
  }

  /** A last target saved by its slot: the header's own `Refreshable` or
      the footer's one (not the header view). */
  predicate SavedBySlot(c: Layout)
  {
    c.lastTarget.Some? ==>
      || (c.lastTarget == c.children.headerRefreshable && IsView(c.lastTarget.value, c.children.header))
      || (c.lastTarget == c.children.footerRefreshable && !IsView(c.lastTarget.value, c.children.header))
  }

  /** Saving and restoring into a layout with the same children gives back
      the state, the offset and (unless REFRESHING re-prepares the target)
      the last target; no last target is restored as the one the layout
      already had. */
  lemma SaveRestoreRoundTrip(c: Layout, d: Layout)
    requires SavedBySlot(c) && d.children == c.children
    ensures var r := Restore(d, Save(c));
      && r.state == c.state && r.contentOffset == c.contentOffset
      && (c.state != StateRefreshing || d.target.Some? ==>
            r.lastTarget == (if c.lastTarget.None? then d.lastTarget else c.lastTarget))
  {
  }

  /** A `ViewRefreshable` around the header is not the header view, so it
      saves as FOOTER and comes back as the footer's `Refreshable`. */
  lemma WrappedHeaderRestoresAsFooter(c: Layout, d: Layout)
    requires c.lastTarget.Some? && c.lastTarget.value.Wrapped?
    requires c.state != StateRefreshing || d.target.Some?
    ensures Save(c).lastTarget == TargetFooter
    ensures Restore(d, Save(c)).lastTarget == d.children.footerRefreshable
  {
  }

  // ---------------------------------------------------------------------------
  // Release scenarios

  function PlainHeader(height: int): View
  {
    View(1, RoleHeader, 100, height, Margins(0, 0, 0, 0), None)
  }

  /** A layout with a plain header and a public listener after a nested
      scroll that leaves 200 pixels unconsumed at the top edge: the content
      moves by half of it. */
  function Pulled(height: int): Layout
  {
    var wired := SetRefreshListener(ViewAdded(Initial(8), PlainHeader(height)), true);
    NestedScroll(wired, 0, 0, 0, -200)
  }

  lemma PulledState(height: int)
    ensures var c := Pulled(height);
      && c.state == StateDragFromTop && c.contentOffset == -100
      && c.target == Some(Wrapped(Adapter.ViewRefreshable(PlainHeader(height)))) && c.lastTarget == c.target
      && c.listeners == Listeners(false, true, false)
  {
  }

  /** With an 80-pixel header the pull refreshes at -80 and tells the public
      listener `onRefreshStart(true)`. */
  lemma PullRefreshesShortHeader()
    ensures StopNestedScroll(Pulled(80)).Ok?
    ensures var r := Ticks(StopNestedScroll(Pulled(80)).value, [Elapsed, Elapsed]);
      && r.state == StateRefreshing && r.contentOffset == -80
      && r.log[|r.log| - 1] == RefreshStart(Public, true)
  {
    PulledState(80);
    ReleaseStartsRefresh(Pulled(80), []);
  }

  /** With a 150-pixel header the same pull falls short. */
  lemma PullFallsShortOfTallHeader()
    ensures StopNestedScroll(Pulled(150)).Ok?
    ensures var c := Pulled(150);
      var r := Ticks(StopNestedScroll(c).value, [Elapsed, Elapsed]);
      && r.state == StateIdle && r.contentOffset == 0
      && StopNestedScroll(c).value.log == c.log + [Release(c.lastTarget.value, false)]
      && r.log[|r.log| - 1] == Reset(c.lastTarget.value)
  {
    PulledState(150);
    ShortReleaseResets(Pulled(150), []);
  }

  /** With a 100-pixel header the 100-pixel pull ends exactly at the goal:
      the header hears `onRelease(true)`, and two frames later the layout is
      still dragging from the top, with REFRESHING as the state it never
      reaches and no `onRefreshStart` call. */
  lemma PullToExactSizeStalls()
    ensures StopNestedScroll(Pulled(100)).Ok?
    ensures var c := Pulled(100);
      var r := Ticks(StopNestedScroll(c).value, [Elapsed, Elapsed]);
      && r.state == StateDragFromTop && r.targetState == StateRefreshing && r.contentOffset == -100
      && r.log == c.log + [Release(c.lastTarget.value, true)]
  {
    PulledState(100);
    ReleaseAtGoalStalls(Pulled(100), [Elapsed, Elapsed]);
  }

  /** The raw touch path drags as well: a press at 0 and a move to 300 past
      the touch slop move the content by half of the 300-pixel travel. */
  lemma TouchPullMovesContent()
    ensures var c := ViewAdded(Initial(8), PlainHeader(80));
      var down := TouchEvent(c, Touch(Down, 0, None));
      && down.Ok?
      && var moved := TouchEvent(down.value, Touch(Move, 300, None));
      && moved.Ok? && moved.value.state == StateDragFromTop && moved.value.contentOffset == -150
  {
  }
}
