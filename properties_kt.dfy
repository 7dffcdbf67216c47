/** Properties of the Kotlin coordinator that relate several calls: settle
    runs, the deferred-completion protocol, the passive-indicator law over
    whole input sequences, the internal listener that is never called,
    save/restore round trips, and the two release scenarios. */
module PropertiesKt {
  import opened Base
  import opened CallLog
  import opened Animator
  import opened CoordinatorKt
  import Adapter = ViewRefreshableKt

  // ---------------------------------------------------------------------------
  // Settle runs

  /** The layout after polling `computeScroll` once per frame. */
  function Ticks(c: Layout, frames: seq<Frame>): Layout
    decreases |frames|
  {
    if frames == [] then c else Ticks(ComputeScroll(c, frames[0]), frames[1..])
  }

  predicate AllBetween(frames: seq<Frame>)
  {
    forall k :: 0 <= k < |frames| ==> frames[k].Between?
  }

  predicate Extends(c: Layout, r: Layout)
  {
    |c.log| <= |r.log| && r.log[..|c.log|] == c.log
  }

  lemma {:induction false} TicksAppend(c: Layout, a: seq<Frame>, b: seq<Frame>)
    ensures Ticks(c, a + b) == Ticks(Ticks(c, a), b)
    decreases |a|
  {
    if a == [] {
      assert a + b == b;
    } else {
      assert (a + b)[0] == a[0] && (a + b)[1..] == a[1..] + b;
      assert Ticks(c, a + b) == Ticks(ComputeScroll(c, a[0]), a[1..] + b);
      TicksAppend(ComputeScroll(c, a[0]), a[1..], b);
    }
  }

  /** The completion calls read only the last target, the offset and the listeners. */
  lemma CompletionNoticesFrame(a: Layout, b: Layout, into: int)
    requires a.lastTarget == b.lastTarget && a.contentOffset == b.contentOffset && a.listeners == b.listeners
    ensures CompletionNotices(a, into) == CompletionNotices(b, into)
  {
  }

  /** While the animator runs, every frame moves the content to the frame's
      value and tells only offsets; state, target state, targets and the
      animator's goal stay as they were. */
  lemma {:induction false} SettleFollowsFrames(c: Layout, frames: seq<Frame>)
    requires c.state == StateSettle && !c.scroller.finished && AllBetween(frames)
    ensures var r := Ticks(c, frames);
      && r.state == StateSettle && !r.scroller.finished && r.targetState == c.targetState
      && r.scroller.finalY == c.scroller.finalY
      && SameWiring(c, r) && r.target == c.target && r.lastTarget == c.lastTarget
      && Extends(c, r) && OnlyOffsets(r.log[|c.log|..])
      && (frames != [] ==> r.contentOffset == frames[|frames| - 1].y)
      && (frames == [] ==> r == c)
    decreases |frames|
  {
    if frames != [] {
      var c1 := ComputeScroll(c, frames[0]);
      SettleTick(c, frames[0]);
      assert AllBetween(frames[1..]) by {
        forall k | 0 <= k < |frames[1..]| ensures frames[1..][k].Between? {
          assert frames[1..][k] == frames[k + 1];
        }
      }
      SettleFollowsFrames(c1, frames[1..]);
      LogChain(c.log, c1.log, Ticks(c1, frames[1..]).log);
    }
  }

  /** One frame of a running settle. */
  lemma SettleTick(c: Layout, f: Frame)
    requires c.state == StateSettle && !c.scroller.finished && f.Between?
    ensures var r := ComputeScroll(c, f);
      && r.state == StateSettle && !r.scroller.finished && r.targetState == c.targetState
      && r.scroller.finalY == c.scroller.finalY
      && SameWiring(c, r) && r.target == c.target && r.lastTarget == c.lastTarget
      && r.contentOffset == f.y
      && Extends(c, r) && OnlyOffsets(r.log[|c.log|..])
  {
    var r := ComputeScroll(c, f);
    OffsetNoticesAreOffsets(c, f.y);
    assert r.log[|c.log|..] == OffsetNotices(c, f.y);
  }

  /** A settle completes: after any frames the animator yields, the elapsed
      frame puts the content at the animator's goal, and the next poll adopts
      the target state, resets the target state to IDLE and makes the
      completion calls once, after nothing but offset calls. */
  lemma SettleCompletes(c: Layout, frames: seq<Frame>)
    requires c.state == StateSettle && !c.scroller.finished && AllBetween(frames)
    ensures var r := Ticks(c, frames + [Elapsed, Elapsed]);
      var notices := CompletionNotices(c.(contentOffset := c.scroller.finalY), c.targetState);
      && r.state == c.targetState && r.targetState == StateIdle
      && r.contentOffset == c.scroller.finalY
      && SameWiring(c, r) && r.target == c.target && r.lastTarget == c.lastTarget
      && Extends(c, r) && |r.log| - |c.log| >= |notices|
      && r.log[|r.log| - |notices|..] == notices
      && OnlyOffsets(r.log[|c.log|..|r.log| - |notices|])
  {
    SettleFollowsFrames(c, frames);
    var m := Ticks(c, frames);
    TicksAppend(c, frames, [Elapsed, Elapsed]);
    TwoElapsed(m);
    CompletionNoticesFrame(m.(contentOffset := m.scroller.finalY), c.(contentOffset := c.scroller.finalY), c.targetState);
    OffsetNoticesAreOffsets(m, c.scroller.finalY);
    SettleLog(c.log, m.log, Ticks(m, [Elapsed, Elapsed]).log, OffsetNotices(m, c.scroller.finalY),
              CompletionNotices(c.(contentOffset := c.scroller.finalY), c.targetState));
  }

  /** The last two polls of a settle: the elapsed frame moves the content to
      the goal, the next poll completes. */
  lemma TwoElapsed(m: Layout)
    requires m.state == StateSettle && !m.scroller.finished
    ensures var r := Ticks(m, [Elapsed, Elapsed]);
      && r.state == m.targetState && r.targetState == StateIdle
      && r.contentOffset == m.scroller.finalY
      && SameWiring(m, r) && r.target == m.target && r.lastTarget == m.lastTarget
      && r.log == m.log + OffsetNotices(m, m.scroller.finalY)
                + CompletionNotices(m.(contentOffset := m.scroller.finalY), m.targetState)
  {
    var m1 := ComputeScroll(m, Elapsed);
    var r := ComputeScroll(m1, Elapsed);
    assert Ticks(m, [Elapsed, Elapsed]) == r by {
      assert [Elapsed, Elapsed][1..] == [Elapsed];
      assert Ticks(m1, [Elapsed]) == Ticks(r, []);
    }
    CompletionNoticesFrame(m1, m.(contentOffset := m.scroller.finalY), m.targetState);
  }

  /** Once a settle has completed into IDLE or REFRESHING, further frames
      change nothing: the completion calls are not repeated. */
  lemma {:induction false} TicksOutsideSettle(c: Layout, frames: seq<Frame>)
    requires c.state != StateSettle
    ensures Ticks(c, frames) == c
    decreases |frames|
  {
    if frames != [] {
      TicksOutsideSettle(ComputeScroll(c, frames[0]), frames[1..]);
    }
  }

  // ---------------------------------------------------------------------------
  // Release followed by the settle

  /** A release that meets the threshold far enough from the goal leads,
      once the animator finishes, to REFRESHING at exactly the signed size of
      the last target, with `onRefreshStart(fromHeader)` told to each
      registered listener once, `fromHeader` being the drag's side. */
  lemma ReleaseStartsRefresh(c: Layout, frames: seq<Frame>)
    requires c.state != StateRefreshing && c.state != StateSettle && Triggers(c)
    requires Abs(c.contentOffset) != ActivationDistance(c) && AllBetween(frames)
    ensures var r := Ticks(StopNestedScroll(c), frames + [Elapsed, Elapsed]);
      var goal := if c.contentOffset > 0 then ActivationDistance(c) else -ActivationDistance(c);
      && r.state == StateRefreshing && r.targetState == StateIdle && r.contentOffset == goal
      && |r.log| >= |StartNotices(c, goal < 0)|
      && r.log[|r.log| - |StartNotices(c, goal < 0)|..] == StartNotices(c, goal < 0)
      && (ActivationDistance(c) > 0 ==> (goal < 0 <==> c.contentOffset < 0))
  {
    var s := StopNestedScroll(c);
    SettleCompletes(s, frames);
    var goal := if c.contentOffset > 0 then ActivationDistance(c) else -ActivationDistance(c);
    assert CompletionNotices(s.(contentOffset := goal), StateRefreshing) == StartNotices(c, goal < 0);
  }

  /** A release exactly at the goal (the offset already equals the signed
      size of the last target): the last target hears `onRelease(true)` and
      REFRESHING becomes the state to settle into, but
      `animateContentToPosition` starts no settle, so the layout stays in
      its drag state and no frame ever completes into REFRESHING: no
      listener hears `onRefreshStart`. */
  lemma ReleaseAtGoalStalls(c: Layout, frames: seq<Frame>)
    requires c.state != StateRefreshing && c.state != StateSettle && Triggers(c)
    requires Abs(c.contentOffset) == ActivationDistance(c)
    ensures var s := StopNestedScroll(c);
      && s.state == c.state && s.targetState == StateRefreshing && s.contentOffset == c.contentOffset
      && s.log == c.log + ReleaseTo(c.lastTarget, true)
      && Ticks(s, frames) == s
  {
    TicksOutsideSettle(StopNestedScroll(c), frames);
  }

  /** A release short of the threshold settles back to 0 and tells the last
      target `onReset`; no listener hears `onRefreshStart`. */
  lemma ShortReleaseResets(c: Layout, frames: seq<Frame>)
    requires c.state != StateRefreshing && c.state != StateSettle && !Triggers(c)
    requires c.contentOffset != 0 && AllBetween(frames)
    ensures var r := Ticks(StopNestedScroll(c), frames + [Elapsed, Elapsed]);
      && r.state == StateIdle && r.contentOffset == 0 && r.target.None? && r.lastTarget == c.lastTarget
      && |r.log| >= |ResetTo(c.lastTarget)|
      && r.log[|r.log| - |ResetTo(c.lastTarget)|..] == ResetTo(c.lastTarget)
  {
    var s := StopNestedScroll(c);
    SettleCompletes(s, frames);
    assert CompletionNotices(s.(contentOffset := 0), StateIdle) == ResetTo(c.lastTarget);
  }

  // ---------------------------------------------------------------------------
  // Deferred completion

  /** An intercepted `completeRefresh` changes nothing but the offers; the
      retained observable's `notifyRefreshComplete` then resets the content,
      and the settle ends in IDLE at 0 with `onReset` on the last target. */
  lemma DeferredCompletion(c: Layout, internalIntercepts: bool, publicIntercepts: bool, frames: seq<Frame>)
    requires c.state == StateRefreshing && c.contentOffset != 0 && AllBetween(frames)
    requires Intercepted(c, internalIntercepts, publicIntercepts)
    ensures var held := CompleteRefresh(c, internalIntercepts, publicIntercepts);
      && held == c.(log := c.log + CompletionOffers(c, internalIntercepts))
      && (var r := Ticks(CompleteRefreshImmediately(held), frames + [Elapsed, Elapsed]);
         && r.state == StateIdle && r.contentOffset == 0 && r.target.None?
         && |r.log| >= |ResetTo(c.lastTarget)|
         && r.log[|r.log| - |ResetTo(c.lastTarget)|..] == ResetTo(c.lastTarget))
  {
    var held := CompleteRefresh(c, internalIntercepts, publicIntercepts);
    var s := CompleteRefreshImmediately(held);
    SettleCompletes(s, frames);
    assert CompletionNotices(s.(contentOffset := 0), StateIdle) == ResetTo(c.lastTarget);
  }

  /** Without an interception the reset starts at once from REFRESHING. */
  lemma UninterceptedCompletionResets(c: Layout, internalIntercepts: bool, publicIntercepts: bool)
    requires c.state == StateRefreshing && c.contentOffset != 0
    requires !Intercepted(c, internalIntercepts, publicIntercepts)
    ensures var r := CompleteRefresh(c, internalIntercepts, publicIntercepts);
      r.state == StateSettle && r.targetState == StateIdle && SettlingTo(r.scroller, c.contentOffset, 0)
  {
  }

  // ---------------------------------------------------------------------------
  // Input sequences

  /** One call from outside the coordinator. */
  datatype Input =
    | ScrollIn(dxConsumed: int, dyConsumed: int, dxUnconsumed: int, dyUnconsumed: int)
    | PreScrollIn(dx: int, dy: int)
    | StopIn
    | FrameIn(frame: Frame)
    | TouchIn(touch: Touch)
    | CompleteIn(internalIntercepts: bool, publicIntercepts: bool)
    | NotifyIn
    | SetRefreshIn(fromHeader: bool)
    | ListenerIn(present: bool)
    | StateListenerIn(present: bool)
    | AddIn(child: View)
    | RemoveIn(child: View)
    | RestoreIn(saved: SavedState)

  function Step(c: Layout, i: Input): Layout
  {
    match i
    case ScrollIn(a, b, d, e) => NestedScroll(c, a, b, d, e)
    case PreScrollIn(dx, dy) => NestedPreScroll(c, dx, dy)
    case StopIn => StopNestedScroll(c)
    case FrameIn(f) => ComputeScroll(c, f)
    case TouchIn(t) => TouchEvent(c, t)
    case CompleteIn(ii, pi) => CompleteRefresh(c, ii, pi)
    case NotifyIn => CompleteRefreshImmediately(c)
    case SetRefreshIn(h) => SetRefresh(c, h)
    case ListenerIn(p) => SetRefreshListener(c, p)
    case StateListenerIn(p) => SetStateChangeListener(c, p)
    case AddIn(v) => ViewAdded(c, v)
    case RemoveIn(v) => ViewRemoved(c, v)
    case RestoreIn(s) => Restore(c, s)
  }

  function Run(c: Layout, inputs: seq<Input>): Layout
    decreases |inputs|
  {
    if inputs == [] then c else Run(Step(c, inputs[0]), inputs[1..])
  }

  // ---------------------------------------------------------------------------
  // The internal listener

  predicate InternalCall(e: Callback<Target>)
  {
    (e.RefreshStart? || e.RefreshComplete?) && e.listener == Internal
  }

  predicate NoInternalCall(s: seq<Callback<Target>>)
  {
    forall k :: 0 <= k < |s| ==> !InternalCall(s[k])
  }

  lemma NoInternalCallAppend(a: seq<Callback<Target>>, b: seq<Callback<Target>>)
    requires NoInternalCall(a) && NoInternalCall(b)
    ensures NoInternalCall(a + b)
  {
    forall k | 0 <= k < |a + b| ensures !InternalCall((a + b)[k]) {
      if k < |a| { assert (a + b)[k] == a[k]; } else { assert (a + b)[k] == b[k - |a|]; }
    }
  }

  lemma OffsetsAreNotInternal(s: seq<Callback<Target>>)
    requires OnlyOffsets(s)
    ensures NoInternalCall(s)
  {
  }

  lemma OffsetNoticesAreOffsets(c: Layout, offset: int)
    ensures OnlyOffsets(OffsetNotices(c, offset))
  {
  }

  /** `c.log` extended by calls that are not to the internal listener. */
  predicate SilentExtension(c: Layout, r: Layout)
  {
    !r.listeners.internal && |c.log| <= |r.log| && r.log[..|c.log|] == c.log && NoInternalCall(r.log[|c.log|..])
  }

  lemma SilentExtensionKeeps(c: Layout, r: Layout)
    requires !c.listeners.internal && NoInternalCall(c.log) && SilentExtension(c, r)
    ensures NoInternalCall(r.log)
  {
    assert r.log == c.log + r.log[|c.log|..];
    NoInternalCallAppend(c.log, r.log[|c.log|..]);
  }

  lemma SilentByAppend(c: Layout, r: Layout, ext: seq<Callback<Target>>)
    requires !r.listeners.internal && r.log == c.log + ext && NoInternalCall(ext)
    ensures SilentExtension(c, r)
  {
    assert r.log[..|c.log|] == c.log;
    assert r.log[|c.log|..] == ext;
  }

  lemma OffsetContentSilent(c: Layout, offset: int)
    requires !c.listeners.internal
    ensures SilentExtension(c, OffsetContent(c, offset))
  {
    OffsetNoticesAreOffsets(c, offset);
    OffsetsAreNotInternal(OffsetNotices(c, offset));
    SilentByAppend(c, OffsetContent(c, offset), OffsetNotices(c, offset));
  }

  lemma ScrollSilent(c: Layout, a: int, b: int, d: int, e: int)
    requires !c.listeners.internal
    ensures SilentExtension(c, NestedScroll(c, a, b, d, e))
  {
    var r := NestedScroll(c, a, b, d, e);
    if (c.vertical && e != 0) || (!c.vertical && d != 0) {
      var c1 := c.(scroller := AbortAnimation(c.scroller),
                   state := if c.vertical then (if e > 0 then StateDragFromBottom else StateDragFromTop)
                            else (if d > 0 then StateDragFromRight else StateDragFromLeft));
      var c2 := PrepareTarget(c1, if c.vertical then 0 > e else 0 > d);
      assert r == OffsetContent(c2, r.contentOffset);
      OffsetContentSilent(c2, r.contentOffset);
    } else {
      SilentByAppend(c, r, []);
    }
  }

  lemma PreScrollSilent(c: Layout, dx: int, dy: int)
    requires !c.listeners.internal
    ensures SilentExtension(c, NestedPreScroll(c, dx, dy))
  {
    if IsDragging(c.state) {
      OffsetContentSilent(c, NestedPreScroll(c, dx, dy).contentOffset);
    } else {
      SilentByAppend(c, c, []);
    }
  }

  lemma StopSilent(c: Layout)
    requires !c.listeners.internal
    ensures SilentExtension(c, StopNestedScroll(c))
  {
    var r := StopNestedScroll(c);
    if c.state == StateRefreshing || c.state == StateSettle {
      SilentByAppend(c, r, []);
    } else if Triggers(c) {
      SilentByAppend(c, r, ReleaseTo(c.lastTarget, true));
    } else if SizeOrZero(c.target, c.vertical) > 0 {
      SilentByAppend(c, r, ReleaseTo(c.lastTarget, false));
    } else {
      SilentByAppend(c, r, []);
    }
  }

  lemma FrameSilent(c: Layout, f: Frame)
    requires !c.listeners.internal
    ensures SilentExtension(c, ComputeScroll(c, f))
  {
    var r := ComputeScroll(c, f);
    if c.state != StateSettle {
      SilentByAppend(c, r, []);
    } else if !c.scroller.finished {
      OffsetNoticesAreOffsets(c, r.contentOffset);
      OffsetsAreNotInternal(OffsetNotices(c, r.contentOffset));
      SilentByAppend(c, r, OffsetNotices(c, r.contentOffset));
    } else {
      SilentByAppend(c, r, CompletionNotices(c, c.targetState));
    }
  }

  lemma CompleteSilent(c: Layout, ii: bool, pi: bool)
    requires !c.listeners.internal
    ensures SilentExtension(c, CompleteRefresh(c, ii, pi))
  {
    var r := CompleteRefresh(c, ii, pi);
    var offers := CompletionOffers(c, ii);
    assert NoInternalCall(offers);
    SilentByAppend(c, r, offers);
  }

  lemma SetRefreshSilent(c: Layout, h: bool)
    requires !c.listeners.internal
    ensures SilentExtension(c, SetRefresh(c, h))
  {
    var r := SetRefresh(c, h);
    if c.state != StateRefreshing && Activates(c, h) {
      SilentByAppend(c, r, [Release(PrepareTarget(c, h).target.value, true)]);
    } else {
      SilentByAppend(c, r, []);
    }
  }

  lemma RestoreSilent(c: Layout, s: SavedState)
    requires !c.listeners.internal
    ensures SilentExtension(c, Restore(c, s))
  {
    var c1 := c.(state := s.state, contentOffset := s.contentOffset, lastTarget := RestoredTarget(c, s.lastTarget));
    OffsetContentSilent(c1, s.contentOffset);
    var r := Restore(c, s);
    assert r.log == OffsetContent(c1, s.contentOffset).log;
  }

  lemma TouchSilent(c: Layout, t: Touch)
    requires !c.listeners.internal
    ensures SilentExtension(c, TouchEvent(c, t))
  {
    var r := TouchEvent(c, t);
    match t.action
    case Move =>
      var m := if c.vertical then TouchMoveVertical(c, t) else TouchMoveHorizontal(c, t);
      assert r.log == m.log;
      if c.vertical {
        TouchMoveVerticalSilent(c, t);
      } else {
        TouchMoveHorizontalSilent(c, t);
      }
    case Up => StopSilent(c);
    case Cancel => StopSilent(c);
    case Outside => StopSilent(c);
    case Down => SilentByAppend(c, r, []);
    case OtherAction => SilentByAppend(c, r, []);
  }

  lemma TouchMoveVerticalSilent(c: Layout, t: Touch)
    requires c.vertical && !c.listeners.internal
    ensures SilentExtension(c, TouchMoveVertical(c, t))
  {
    var c1 := if LeavesSlop(c, t) then BeginDrag(c, MoveDelta(c, t)) else c;
    assert c1.log == c.log && c1.listeners == c.listeners;
    if c1.state == StateDragFromTop || c1.state == StateDragFromBottom {
      ScrollSilent(c1, 0, 0, 0, MoveDelta(c, t));
    } else {
      SilentByAppend(c, c1, []);
    }
  }

  lemma TouchMoveHorizontalSilent(c: Layout, t: Touch)
    requires !c.vertical && !c.listeners.internal
    ensures SilentExtension(c, TouchMoveHorizontal(c, t))
  {
    var c1 := if LeavesSlop(c, t) then BeginDrag(c, MoveDelta(c, t)) else c;
    assert c1.log == c.log && c1.listeners == c.listeners;
    if c1.state == StateDragFromLeft || c1.state == StateDragFromRight {
      ScrollSilent(c1, 0, 0, MoveDelta(c, t), 0);
    } else {
      SilentByAppend(c, c1, []);
    }
  }

  lemma StepSilent(c: Layout, i: Input)
    requires !c.listeners.internal
    ensures SilentExtension(c, Step(c, i))
  {
    var r := Step(c, i);
    match i
    case ScrollIn(a, b, d, e) => ScrollSilent(c, a, b, d, e);
    case PreScrollIn(dx, dy) => PreScrollSilent(c, dx, dy);
    case StopIn => StopSilent(c);
    case FrameIn(f) => FrameSilent(c, f);
    case TouchIn(t) => TouchSilent(c, t);
    case CompleteIn(ii, pi) => CompleteSilent(c, ii, pi);
    case NotifyIn => SilentByAppend(c, r, []);
    case SetRefreshIn(h) => SetRefreshSilent(c, h);
    case ListenerIn(p) => SilentByAppend(c, r, []);
    case StateListenerIn(p) => SilentByAppend(c, r, []);
    case AddIn(v) => SilentByAppend(c, r, []);
    case RemoveIn(v) => SilentByAppend(c, r, []);
    case RestoreIn(s) => RestoreSilent(c, s);
  }

  /** The Kotlin layout has no way to register the internal listener, so
      over any sequence of calls it is never told `onRefreshStart` or
      `onRefreshComplete`. */
  lemma {:induction false} InternalListenerNeverCalled(c: Layout, inputs: seq<Input>)
    requires !c.listeners.internal && NoInternalCall(c.log)
    ensures !Run(c, inputs).listeners.internal && NoInternalCall(Run(c, inputs).log)
    decreases |inputs|
  {
    if inputs != [] {
      StepSilent(c, inputs[0]);
      SilentExtensionKeeps(c, Step(c, inputs[0]));
      InternalListenerNeverCalled(Step(c, inputs[0]), inputs[1..]);
    }
  }

  // ---------------------------------------------------------------------------
  // Passive indicators

  predicate IndicatorOrNone(t: Option<Target>)
  {
    t.None? || IsIndicator(t.value)
  }

  /** Header and footer both implement `Refreshable` as passive indicators. */
  predicate IndicatorSlots(ch: Children)
  {
    && ch.headerRefreshable.Some? && IsIndicator(ch.headerRefreshable.value)
    && ch.footerRefreshable.Some? && IsIndicator(ch.footerRefreshable.value)
  }

  /** A layout whose header and footer are passive indicators and which has
      not refreshed: no target but an indicator, neither the state nor the
      target state REFRESHING, and no `onRefreshStart` in the log. */
  predicate Passive(c: Layout)
  {
    && IndicatorSlots(c.children) && IndicatorOrNone(c.target) && IndicatorOrNone(c.lastTarget)
    && c.state != StateRefreshing && c.targetState != StateRefreshing && NoStart(c.log)
  }

  lemma PassiveByAppend(c: Layout, r: Layout, ext: seq<Callback<Target>>)
    requires Passive(c) && r.log == c.log + ext && NoStart(ext)
    requires IndicatorSlots(r.children) && IndicatorOrNone(r.target) && IndicatorOrNone(r.lastTarget)
    requires r.state != StateRefreshing && r.targetState != StateRefreshing
    ensures Passive(r)
  {
    NoStartAppend(c.log, ext);
  }

  lemma PreparePassive(c: Layout, fromHeader: bool)
    requires Passive(c)
    ensures Passive(PrepareTarget(c, fromHeader))
  {
  }

  lemma OffsetPassive(c: Layout, offset: int)
    requires Passive(c)
    ensures Passive(OffsetContent(c, offset))
  {
    PassiveByAppend(c, OffsetContent(c, offset), OffsetNotices(c, offset));
  }

  lemma ScrollPassive(c: Layout, a: int, b: int, d: int, e: int)
    requires Passive(c)
    ensures Passive(NestedScroll(c, a, b, d, e))
  {
    var r := NestedScroll(c, a, b, d, e);
    if (c.vertical && e != 0) || (!c.vertical && d != 0) {
      var c1 := c.(scroller := AbortAnimation(c.scroller),
                   state := if c.vertical then (if e > 0 then StateDragFromBottom else StateDragFromTop)
                            else (if d > 0 then StateDragFromRight else StateDragFromLeft));
      var c2 := PrepareTarget(c1, if c.vertical then 0 > e else 0 > d);
      PreparePassive(c1, if c.vertical then 0 > e else 0 > d);
      assert r == OffsetContent(c2, r.contentOffset);
      OffsetPassive(c2, r.contentOffset);
    }
  }

  lemma StopPassive(c: Layout)
    requires Passive(c)
    ensures Passive(StopNestedScroll(c))
  {
    var r := StopNestedScroll(c);
    if c.state != StateRefreshing && c.state != StateSettle {
      assert !Triggers(c);
      PassiveByAppend(c, r, if SizeOrZero(c.target, c.vertical) > 0 then ReleaseTo(c.lastTarget, false) else []);
    }
  }

  lemma FramePassive(c: Layout, f: Frame)
    requires Passive(c)
    ensures Passive(ComputeScroll(c, f))
  {
    var r := ComputeScroll(c, f);
    if c.state == StateSettle && !c.scroller.finished {
      PassiveByAppend(c, r, OffsetNotices(c, r.contentOffset));
    } else if c.state == StateSettle {
      PassiveByAppend(c, r, CompletionNotices(c, c.targetState));
    }
  }

  lemma ImmediatePassive(c: Layout)
    requires Passive(c)
    ensures Passive(CompleteRefreshImmediately(c))
  {
  }

  lemma CompletePassive(c: Layout, ii: bool, pi: bool)
    requires Passive(c)
    ensures Passive(CompleteRefresh(c, ii, pi))
  {
    var c1 := c.(log := c.log + CompletionOffers(c, ii));
    PassiveByAppend(c, c1, CompletionOffers(c, ii));
    ImmediatePassive(c1);
  }

  lemma SetRefreshPassive(c: Layout, h: bool)
    requires Passive(c)
    ensures Passive(SetRefresh(c, h))
  {
    PreparePassive(c, h);
    assert !Activates(c, h);
  }

  lemma TouchMoveVerticalPassive(c: Layout, t: Touch)
    requires c.vertical && Passive(c)
    ensures Passive(TouchMoveVertical(c, t))
  {
    var c1 := if LeavesSlop(c, t) then BeginDrag(c, MoveDelta(c, t)) else c;
    if LeavesSlop(c, t) {
      PreparePassive(c.(state := c1.state), MoveDelta(c, t) < 0);
    }
    if c1.state == StateDragFromTop || c1.state == StateDragFromBottom {
      ScrollPassive(c1, 0, 0, 0, MoveDelta(c, t));
    }
  }

  lemma TouchMoveHorizontalPassive(c: Layout, t: Touch)
    requires !c.vertical && Passive(c)
    ensures Passive(TouchMoveHorizontal(c, t))
  {
    var c1 := if LeavesSlop(c, t) then BeginDrag(c, MoveDelta(c, t)) else c;
    if LeavesSlop(c, t) {
      PreparePassive(c.(state := c1.state), MoveDelta(c, t) < 0);
    }
    if c1.state == StateDragFromLeft || c1.state == StateDragFromRight {
      ScrollPassive(c1, 0, 0, MoveDelta(c, t), 0);
    }
  }

  lemma TouchPassive(c: Layout, t: Touch)
    requires Passive(c)
    ensures Passive(TouchEvent(c, t))
  {
    if t.action == Move {
      if c.vertical { TouchMoveVerticalPassive(c, t); } else { TouchMoveHorizontalPassive(c, t); }
    } else if t.action in {Up, Cancel, Outside} {
      StopPassive(c);
    }
  }

  /** The calls that keep the children as they are. */
  predicate KeepsChildren(i: Input)
  {
    !i.AddIn? && !i.RemoveIn? && !i.RestoreIn?
  }

  lemma StepPassive(c: Layout, i: Input)
    requires Passive(c) && KeepsChildren(i)
    ensures Passive(Step(c, i))
  {
    match i
    case ScrollIn(a, b, d, e) => ScrollPassive(c, a, b, d, e);
    case PreScrollIn(dx, dy) =>
      if IsDragging(c.state) {
        OffsetPassive(c, NestedPreScroll(c, dx, dy).contentOffset);
      }
    case StopIn => StopPassive(c);
    case FrameIn(f) => FramePassive(c, f);
    case TouchIn(t) => TouchPassive(c, t);
    case CompleteIn(ii, pi) => CompletePassive(c, ii, pi);
    case NotifyIn => ImmediatePassive(c);
    case SetRefreshIn(h) => SetRefreshPassive(c, h);
    case ListenerIn(p) =>
    case StateListenerIn(p) =>
  }

  /** With passive indicators as header and footer, no sequence of gestures,
      frames, completions or `setRefresh` calls ever reaches REFRESHING or
      tells a listener `onRefreshStart`. */
  lemma {:induction false} IndicatorsNeverRefresh(c: Layout, inputs: seq<Input>)
    requires Passive(c)
    requires forall k :: 0 <= k < |inputs| ==> KeepsChildren(inputs[k])
    ensures Passive(Run(c, inputs))
    decreases |inputs|
  {
    if inputs != [] {
      StepPassive(c, inputs[0]);
      assert forall k :: 0 <= k < |inputs[1..]| ==> KeepsChildren(inputs[1..][k]) by {
        forall k | 0 <= k < |inputs[1..]| ensures KeepsChildren(inputs[1..][k]) {
          assert inputs[1..][k] == inputs[k + 1];
        }
      }
      IndicatorsNeverRefresh(Step(c, inputs[0]), inputs[1..]);
    }
  }

  // ---------------------------------------------------------------------------
  // Children and saved state

  /** Each `Refreshable` slot is what `onViewAdded` put there for the view in
      the role's slot: the view's own implementation, or null without one.
      A view sits only in the slot of its own role. */
  predicate SlotsConsistent(ch: Children)
  {
    && (ch.header.Some? ==> ch.header.value.role == RoleHeader && ch.headerRefreshable == AsRefreshable(ch.header.value))
    && (ch.header.None? ==> ch.headerRefreshable.None?)
    && (ch.footer.Some? ==> ch.footer.value.role == RoleFooter && ch.footerRefreshable == AsRefreshable(ch.footer.value))
    && (ch.footer.None? ==> ch.footerRefreshable.None?)
    && (ch.content.Some? ==> ch.content.value.role == RoleContent)
  }

  /** Registering and removing children keeps the slots consistent. */
  lemma ChildrenStayConsistent(c: Layout, child: View)
    requires SlotsConsistent(c.children)
    ensures SlotsConsistent(ViewAdded(c, child).children)
    ensures SlotsConsistent(ViewRemoved(c, child).children)
  {
    var ch := c.children;
    if child.role == RoleHeader {
      assert ViewAdded(c, child).children == ch.(header := Some(child), headerRefreshable := AsRefreshable(child));
      assert ViewRemoved(c, child).children == ch.(header := None, headerRefreshable := None);
    } else if child.role == RoleFooter {
      assert ViewAdded(c, child).children == ch.(footer := Some(child), footerRefreshable := AsRefreshable(child));
      assert ViewRemoved(c, child).children == ch.(footer := None, footerRefreshable := None);
    } else if child.role == RoleContent {
      assert ViewAdded(c, child).children == ch.(content := Some(child));
      assert ViewRemoved(c, child).children == ch.(content := None);
    } else {
      assert ViewAdded(c, child).children == ch && ViewRemoved(c, child).children == ch;
    }
  }

  /** A last target the layout can save: none, or one of the two slots. */
  predicate SavableTarget(c: Layout)
  {
    c.lastTarget.None? || c.lastTarget == c.children.headerRefreshable || c.lastTarget == c.children.footerRefreshable
  }

  /** Saving and restoring into a layout with the same children gives back
      the state, the offset and (unless REFRESHING re-prepares the target)
      the last target. */
  lemma SaveRestoreRoundTrip(c: Layout, d: Layout)
    requires SlotsConsistent(c.children) && SavableTarget(c) && d.children == c.children
    ensures var r := Restore(d, Save(c));
      && r.state == c.state && r.contentOffset == c.contentOffset
      && (c.state != StateRefreshing || d.target.Some? ==> r.lastTarget == c.lastTarget)
  {
    var code := Save(c).lastTarget;
    if c.lastTarget.None? {
      if c.children.header.None? {
        assert code == TargetHeader;
      } else if c.children.footer.None? {
        assert code == TargetFooter;
      } else {
        assert code == TargetNone;
      }
    } else if c.lastTarget == c.children.headerRefreshable {
      assert code == TargetHeader;
    } else {
      assert c.children.footer.Some? && c.children.header != c.children.footer;
      assert code == TargetFooter;
    }
  }

  /** A `ViewRefreshable` wrapper is not a child view, so it saves as NONE
      and comes back as no last target. */
  lemma WrappedTargetIsForgotten(c: Layout, d: Layout)
    requires c.lastTarget.Some? && c.lastTarget.value.Wrapped?
    requires c.state != StateRefreshing || d.target.Some?
    ensures Save(c).lastTarget == TargetNone
    ensures Restore(d, Save(c)).lastTarget.None?
  {
  }

  // ---------------------------------------------------------------------------
  // setRefresh followed by the settle

  /** `setRefresh(fromHeader)` with a target that takes part: once the
      animator finishes, the layout is REFRESHING at minus (header) or plus
      (footer) the target's size, every listener has heard
      `onRefreshStart(fromHeader)`, and a further `setRefresh` changes
      nothing. */
  lemma SetRefreshStartsRefresh(c: Layout, fromHeader: bool, frames: seq<Frame>)
    requires Activates(c, fromHeader) && AllBetween(frames)
    requires ContentSize(PrepareTarget(c, fromHeader).target.value, c.vertical) > 0
    requires (if fromHeader then -1 else 1) * ContentSize(PrepareTarget(c, fromHeader).target.value, c.vertical) != c.contentOffset
    ensures var size := ContentSize(PrepareTarget(c, fromHeader).target.value, c.vertical);
      var r := Ticks(SetRefresh(c, fromHeader), frames + [Elapsed, Elapsed]);
      && r.state == StateRefreshing && r.targetState == StateIdle
      && r.contentOffset == (if fromHeader then -size else size)
      && |r.log| >= |StartNotices(c, fromHeader)|
      && r.log[|r.log| - |StartNotices(c, fromHeader)|..] == StartNotices(c, fromHeader)
      && forall h :: SetRefresh(r, h) == r
  {
    var s := SetRefresh(c, fromHeader);
    SettleCompletes(s, frames);
    var size := ContentSize(PrepareTarget(c, fromHeader).target.value, c.vertical);
    var goal := if fromHeader then -size else size;
    assert CompletionNotices(s.(contentOffset := goal), StateRefreshing) == StartNotices(c, fromHeader);
  }

  /** `setRefresh(fromHeader)` when the offset already equals the goal: the
      layout enters REFRESHING at once, the target hears `onRelease(true)`,
      but no settle runs, so no frame makes the `onRefreshStart` calls. */
  lemma SetRefreshAtGoalStartsNothing(c: Layout, fromHeader: bool, frames: seq<Frame>)
    requires Activates(c, fromHeader)
    requires (if fromHeader then -1 else 1) * ContentSize(PrepareTarget(c, fromHeader).target.value, c.vertical) == c.contentOffset
    ensures var r := SetRefresh(c, fromHeader);
      && r.state == StateRefreshing && r.targetState == StateRefreshing && r.contentOffset == c.contentOffset
      && r.log == c.log + [Release(PrepareTarget(c, fromHeader).target.value, true)]
      && Ticks(r, frames) == r
  {
    TicksOutsideSettle(SetRefresh(c, fromHeader), frames);
  }

  // ---------------------------------------------------------------------------
  // Release threshold and pre-scroll

  /** The release threshold is inclusive: an offset of exactly the last
      target's size, on either side, triggers; one pixel less does not. */
  lemma ActivationIsInclusive(c: Layout)
    requires c.target.Some? && !IsIndicator(c.target.value) && SizeOrZero(c.target, c.vertical) > 0
    ensures Triggers(c.(contentOffset := ActivationDistance(c)))
    ensures Triggers(c.(contentOffset := -ActivationDistance(c)))
    ensures ActivationDistance(c) > 0 ==> !Triggers(c.(contentOffset := ActivationDistance(c) - 1))
    ensures ActivationDistance(c) > 0 ==> !Triggers(c.(contentOffset := 1 - ActivationDistance(c)))
  {
  }

  /** There is no zero-crossing check in the Kotlin pre-scroll: a drag from
      the top two pixels down, pushed back by ten, ends three pixels on the
      footer's side while still dragging from the top. */
  lemma PreScrollCrossesZero(c: Layout)
    requires c.vertical && c.state == StateDragFromTop && c.contentOffset == -2
    ensures var r := NestedPreScroll(c, 0, 10);
      r.state == StateDragFromTop && r.contentOffset == 3
  {
  }

  // ---------------------------------------------------------------------------
  // Release scenarios

  /** A plain header view of the given height, without the capability, so
      the layout wraps it in a `ViewRefreshable`. */
  function PlainHeader(height: int): View
  {
    View(1, RoleHeader, 100, height, Margins(0, 0, 0, 0), None)
  }

  /** A vertical layout with a plain header and a public listener, pulled
      over the top edge: the nested scroll picks the header, the pre-scroll
      moves the content by half of 200. */
  function Pulled(height: int): Layout
  {
    var wired := SetRefreshListener(ViewAdded(Initial(true, 8), PlainHeader(height)), true);
    NestedPreScroll(NestedScroll(wired, 0, 0, 0, -200), 0, -200)
  }

  lemma PulledState(height: int)
    ensures var c := Pulled(height);
      && c.state == StateDragFromTop && c.contentOffset == -100
      && c.target == Some(Wrapped(Adapter.ViewRefreshable(PlainHeader(height)))) && c.lastTarget == c.target
      && c.listeners == Listeners(false, true, false)
  {
  }

  /** With an 80-pixel header the 100-pixel pull refreshes at -80 and tells
      the public listener `onRefreshStart(true)`. */
  lemma PullRefreshesShortHeader()
    ensures var r := Ticks(StopNestedScroll(Pulled(80)), [Elapsed, Elapsed]);
      && r.state == StateRefreshing && r.contentOffset == -80
      && r.log[|r.log| - 1] == RefreshStart(Public, true)
  {
    PulledState(80);
    ActivationDistancePlain(Pulled(80), 80);
    ReleaseStartsRefresh(Pulled(80), []);
  }

  /** With a 150-pixel header the same pull falls short: the header is told
      `onRelease(false)` and then `onReset`, and no refresh starts. */
  lemma PullFallsShortOfTallHeader()
    ensures var c := Pulled(150);
      var r := Ticks(StopNestedScroll(c), [Elapsed, Elapsed]);
      && r.state == StateIdle && r.contentOffset == 0
      && StopNestedScroll(c).log == c.log + [Release(c.lastTarget.value, false)]
      && r.log[|r.log| - 1] == Reset(c.lastTarget.value)
  {
    PulledState(150);
    ActivationDistancePlain(Pulled(150), 150);
    ShortReleaseResets(Pulled(150), []);
  }

  /** With a 100-pixel header the 100-pixel pull ends exactly at the goal:
      the header hears `onRelease(true)`, and two frames later the layout is
      still dragging from the top, with REFRESHING as the state it never
      reaches and no `onRefreshStart` call. */
  lemma PullToExactSizeStalls()
    ensures var c := Pulled(100);
      var r := Ticks(StopNestedScroll(c), [Elapsed, Elapsed]);
      && r.state == StateDragFromTop && r.targetState == StateRefreshing && r.contentOffset == -100
      && r.log == c.log + [Release(c.lastTarget.value, true)]
  {
    PulledState(100);
    ActivationDistancePlain(Pulled(100), 100);
    ReleaseAtGoalStalls(Pulled(100), [Elapsed, Elapsed]);
  }

  /** On the horizontal axis the raw touch path moves the content: a press
      at x 0 and a move to x 300 past the touch slop drag from the left and
      move the content by half of the 300-pixel travel. */
  lemma HorizontalTouchPullMovesContent()
    ensures var c := ViewAdded(Initial(false, 8), PlainHeader(80));
      var moved := TouchEvent(TouchEvent(c, Touch(Down, 0, 0, None)), Touch(Move, 300, 0, None));
      && moved.state == StateDragFromLeft && moved.contentOffset == -150
      && moved.target == Some(Wrapped(Adapter.ViewRefreshable(PlainHeader(80))))
  {
    var c := ViewAdded(Initial(false, 8), PlainHeader(80));
    var down := TouchEvent(c, Touch(Down, 0, 0, None));
    assert down == c.(pointer := Pointer(0, 0, 0, 0));
    assert LeavesSlop(down, Touch(Move, 300, 0, None)) && MoveDelta(down, Touch(Move, 300, 0, None)) == -300;
  }

  lemma ActivationDistancePlain(c: Layout, height: int)
    requires c.vertical && c.lastTarget == Some(Wrapped(Adapter.ViewRefreshable(PlainHeader(height))))
    ensures ActivationDistance(c) == height
  {
  }
}
