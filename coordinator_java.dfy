/** The refresh gesture coordinator of the Java `RefreshLayout`, as pure
    functions over a record of its fields, in the same style as
    `CoordinatorKt`. The Java layout refreshes along the vertical axis only,
    clamps a pre-scroll that would carry the content across its resting
    position, can throw a `NullPointerException` at the end of a gesture,
    lets the internal refresh listener be set, and records and restores the
    last target differently. */
module CoordinatorJava {
  import opened Base
  import opened Animator
  import Adapter = ViewRefreshableJava

  // State codes.
  const StateIdle := 0
  const StateDragFromTop := 1
  const StateDragFromBottom := 2
  const StateRefreshing := 3
  const StateSettle := 4

  // Codes of the saved last target.
  const TargetNone := 0
  const TargetHeader := 1
  const TargetFooter := 2

  // `LayoutParams` roles.
  const RoleHeader := 1
  const RoleFooter := 2
  const RoleContent := 3

  // `ViewCompat.SCROLL_AXIS_VERTICAL`.
  const AxisVertical: bv32 := 2

  predicate IsDragging(state: int)
  {
    state == StateDragFromTop || state == StateDragFromBottom
  }

  /** A `Refreshable` the coordinator talks to: a header/footer view that
      implements the interface, or a `ViewRefreshable` around a plain view. */
  datatype Target = Own(view: View, impl: Capability) | Wrapped(adapter: Adapter.ViewRefreshable)

  function IsIndicator(t: Target): bool
  {
    match t
    case Own(_, impl) => impl.indicator
    case Wrapped(a) => Adapter.IsIndicator(a)
  }

  function ContentSize(t: Target): int
  {
    match t
    case Own(_, impl) => impl.verticalSize
    case Wrapped(a) => Adapter.ContentSize(a)
  }

  function SizeOrZero(t: Option<Target>): int
  {
    if t.Some? then ContentSize(t.value) else 0
  }

  /** `mLastTarget == mHeader` when `mLastTarget` is not null: only a view
      that is its own `Refreshable` is the same object as a view slot. */
  predicate IsView(t: Target, v: Option<View>)
  {
    t.Own? && v.Some? && t.view == v.value
  }

  datatype Children = Children(header: Option<View>, content: Option<View>, footer: Option<View>,
                               headerRefreshable: Option<Target>, footerRefreshable: Option<Target>)

  datatype Listeners = Listeners(internal: bool, public: bool, stateChange: bool)

  /** `mPressedY` and `mLastY`. */
  datatype Pointer = Pointer(pressedY: int, lastY: int)

  datatype Layout = Layout(
    touchSlop: int,
    children: Children, listeners: Listeners, pointer: Pointer,
    state: int, targetState: int, contentOffset: int,
    target: Option<Target>, lastTarget: Option<Target>,
    scroller: Scroller,
    log: seq<Callback<Target>>)

  /** Everything a gesture or animation step leaves alone. */
  predicate SameWiring(c: Layout, r: Layout)
  {
    r.touchSlop == c.touchSlop && r.children == c.children && r.listeners == c.listeners && r.pointer == c.pointer
  }

  /** A layout as constructed: idle, no children, no listeners. */
  function Initial(touchSlop: int): (c: Layout)
    ensures c.state == StateIdle && c.targetState == StateIdle && c.contentOffset == 0
    ensures c.target.None? && c.lastTarget.None? && c.scroller.finished && c.log == []
    ensures c.children.header.None? && c.children.content.None? && c.children.footer.None?
    ensures c.children.headerRefreshable.None? && c.children.footerRefreshable.None?
    ensures !c.listeners.internal && !c.listeners.public && !c.listeners.stateChange
  {
    Layout(touchSlop, Children(None, None, None, None, None), Listeners(false, false, false),
           Pointer(0, 0), StateIdle, StateIdle, 0, None, None, NewScroller(), [])
  }

  // ---------------------------------------------------------------------------
  // Outgoing calls

  function OffsetNotices(c: Layout, offset: int): seq<Callback<Target>>
  {
    (if c.lastTarget.Some? then [Offset(c.lastTarget.value, offset)] else [])
    + (if c.listeners.stateChange then [ContentOffset(offset)] else [])
  }

  function StartNotices(c: Layout, fromHeader: bool): seq<Callback<Target>>
  {
    (if c.listeners.internal then [RefreshStart(Internal, fromHeader)] else [])
    + (if c.listeners.public then [RefreshStart(Public, fromHeader)] else [])
  }

  // ---------------------------------------------------------------------------
  // Private helpers

  /** `(int) (mContentOffset + resolveOffset(delta))`: the offset plus half
      the delta, the sum truncated toward zero as a whole. */
  function FixedOffset(offset: int, delta: int): (r: int)
    ensures 2 * offset + delta >= 0 ==> 2 * r <= 2 * offset + delta <= 2 * r + 1
    ensures 2 * offset + delta < 0 ==> 2 * r - 1 <= 2 * offset + delta <= 2 * r
  {
    HalfTowardZero(2 * offset + delta)
  }

  function OffsetContent(c: Layout, offset: int): (r: Layout)
    ensures r.contentOffset == offset
    ensures r.log == c.log + OffsetNotices(c, offset)
    ensures r == c.(contentOffset := offset, log := r.log)
  {
    c.(contentOffset := offset, log := c.log + OffsetNotices(c, offset))
  }

  /** The `Refreshable` `prepareTarget` picks for a side: the side's own
      implementation, else a wrapper around the side's view, else null. */
  function Candidate(c: Layout, fromHeader: bool): Option<Target>
  {
    if fromHeader then
      (if c.children.headerRefreshable.Some? then c.children.headerRefreshable
       else if c.children.header.Some? then Some(Wrapped(Adapter.ViewRefreshable(c.children.header.value))) else None)
    else
      (if c.children.footerRefreshable.Some? then c.children.footerRefreshable
       else if c.children.footer.Some? then Some(Wrapped(Adapter.ViewRefreshable(c.children.footer.value))) else None)
  }

  /** `prepareTarget`: an empty `mTarget` (and `mLastTarget` with it) gets
      the side's candidate; an existing target is never replaced. */
  function PrepareTarget(c: Layout, fromHeader: bool): (r: Layout)
    ensures c.target.Some? ==> r == c
    ensures c.target.None? ==> r == c.(target := Candidate(c, fromHeader), lastTarget := Candidate(c, fromHeader))
    ensures r.lastTarget.Some? ==> r.target.Some?
  {
    if c.target.Some? then c
    else c.(target := Candidate(c, fromHeader), lastTarget := Candidate(c, fromHeader))
  }

  predicate SettlingTo(s: Scroller, offset: int, goal: int)
  {
    !s.finished && s.startY == offset && s.finalY == goal && s.currY == offset
  }

  function AnimateContentToPosition(c: Layout, goal: int): (r: Layout)
    ensures goal == c.contentOffset ==> r == c
    ensures goal != c.contentOffset ==>
      r.state == StateSettle && SettlingTo(r.scroller, c.contentOffset, goal)
      && r == c.(state := StateSettle, scroller := r.scroller)
  {
    if goal != c.contentOffset then
      c.(state := StateSettle, scroller := StartScroll(AbortAnimation(c.scroller), c.contentOffset, goal - c.contentOffset))
    else c
  }

  predicate ResetFrom(c: Layout, r: Layout)
  {
    && r.target.None? && r.targetState == StateIdle && r.contentOffset == c.contentOffset
    && r.lastTarget == c.lastTarget
    && (c.contentOffset != 0 ==> r.state == StateSettle && SettlingTo(r.scroller, c.contentOffset, 0))
    && (c.contentOffset == 0 ==> r.state == c.state && r.scroller == c.scroller)
  }

  function AnimateResetContent(c: Layout): (r: Layout)
    ensures ResetFrom(c, r) && SameWiring(c, r) && r.log == c.log
  {
    AnimateContentToPosition(c.(target := None, targetState := StateIdle), 0)
  }

  // ---------------------------------------------------------------------------
  // Nested-scroll parent entry points

  /** `onStartNestedScroll`: a vertical nested scroll of the content child. */
  function StartNestedScroll(c: Layout, child: View, axes: bv32): (accepted: bool)
    ensures accepted <==> axes & AxisVertical != 0 && c.children.content == Some(child)
  {
    axes & AxisVertical == AxisVertical && c.children.content == Some(child)
  }

  /** `onNestedScroll`: a nonzero `dyUnconsumed` stops the animator, picks
      the drag direction from its sign, prepares the target and moves the
      content to the fixed offset; the consumed deltas and `dxUnconsumed`
      play no part. */
  function NestedScroll(c: Layout, dxConsumed: int, dyConsumed: int, dxUnconsumed: int, dyUnconsumed: int): (r: Layout)
    ensures SameWiring(c, r) && r.targetState == c.targetState
    ensures dyUnconsumed == 0 ==> r == c
    ensures dyUnconsumed != 0 ==>
      && r.state == (if dyUnconsumed > 0 then StateDragFromBottom else StateDragFromTop)
      && r.target == PrepareTarget(c, dyUnconsumed < 0).target
      && r.contentOffset == FixedOffset(c.contentOffset, dyUnconsumed)
      && r.scroller.finished
      && r.lastTarget == PrepareTarget(c, dyUnconsumed < 0).lastTarget
      && r.log == c.log + OffsetNotices(PrepareTarget(c, dyUnconsumed < 0), r.contentOffset)
  {
    if dyUnconsumed == 0 then c
    else
      var c1 := c.(scroller := AbortAnimation(c.scroller));
      var fixedOffset := FixedOffset(c1.contentOffset, dyUnconsumed);
      var c2 := c1.(state := if dyUnconsumed > 0 then StateDragFromBottom else StateDragFromTop);
      var c3 := PrepareTarget(c2, 0 > dyUnconsumed);
      OffsetContent(c3, fixedOffset)
  }

  /** The guard of `onNestedPreScroll` that stops a drag at the resting
      position: a drag from the bottom (positive offset) moved down past 0,
      or a drag from the top (negative offset) moved up past 0. The float
      test `offset + dy * 0.5f < 0` is `2 * offset + dy < 0`. */
  predicate CrossesZero(c: Layout, dy: int)
  {
    || (c.state == StateDragFromBottom && 0 > dy && 2 * c.contentOffset + dy < 0)
    || (c.state == StateDragFromTop && 0 < dy && 2 * c.contentOffset + dy > 0)
  }

  /** `onNestedPreScroll`, its effect on the coordinator. A drag that would
      cross the resting position puts the content at 0 and goes IDLE (the
      target is kept); any other drag step moves the content to the fixed
      offset. REFRESHING, SETTLE and IDLE leave the coordinator as it is. */
  function NestedPreScroll(c: Layout, dx: int, dy: int): (r: Layout)
    ensures SameWiring(c, r) && r.target == c.target && r.lastTarget == c.lastTarget && r.scroller == c.scroller
    ensures IsDragging(c.state) && CrossesZero(c, dy) ==> r == OffsetContent(c, 0).(state := StateIdle)
    ensures IsDragging(c.state) && !CrossesZero(c, dy) ==> r == OffsetContent(c, FixedOffset(c.contentOffset, dy))
    ensures !IsDragging(c.state) ==> r == c
    ensures c.state == StateDragFromTop && c.contentOffset <= 0 ==> r.contentOffset <= 0
    ensures c.state == StateDragFromBottom && c.contentOffset >= 0 ==> r.contentOffset >= 0
  {
    if IsDragging(c.state) then
      if CrossesZero(c, dy) then OffsetContent(c, 0).(state := StateIdle)
      else OffsetContent(c, FixedOffset(c.contentOffset, dy))
    else c
  }

  /** `onNestedPreScroll`, its effect on `consumed`: the whole `dy` is
      consumed in REFRESHING, in SETTLE and in a drag step that did not hit
      the resting position; `consumed[0]` is never written. */
  function PreScrollConsumed(c: Layout, dx: int, dy: int, consumed: seq<int>): (r: seq<int>)
    requires |consumed| >= 2
    ensures |r| == |consumed| && r[0] == consumed[0]
    ensures forall i :: 2 <= i < |r| ==> r[i] == consumed[i]
    ensures r[1] == (if (IsDragging(c.state) && !CrossesZero(c, dy)) || c.state == StateRefreshing || c.state == StateSettle
                     then dy else consumed[1])
  {
    if (IsDragging(c.state) && !CrossesZero(c, dy)) || c.state == StateRefreshing || c.state == StateSettle then
      consumed[1 := dy]
    else consumed
  }

  /** `onNestedFling` and `onNestedPreFling`: claimed in REFRESHING, both
      drags and SETTLE. */
  function ClaimsFling(c: Layout): (claimed: bool)
    ensures claimed <==> c.state != StateIdle && StateIdle <= c.state <= StateSettle
  {
    c.state == StateRefreshing || c.state == StateDragFromTop || c.state == StateDragFromBottom || c.state == StateSettle
  }

  /** The release condition of `onStopNestedScroll`. */
  predicate Triggers(c: Layout)
  {
    && c.target.Some? && ContentSize(c.target.value) > 0
    && c.lastTarget.Some? && Abs(c.contentOffset) >= ContentSize(c.lastTarget.value)
    && !IsIndicator(c.target.value)
  }

  /** `onStopNestedScroll` dereferences `mLastTarget` without a null check
      once `mTarget` has a positive size; the two disagree only after a
      restore that cleared `mLastTarget` while a target was set. */
  predicate StopThrows(c: Layout)
  {
    && c.state != StateRefreshing && c.state != StateSettle
    && c.target.Some? && ContentSize(c.target.value) > 0 && c.lastTarget.None?
  }

  /** `onStopNestedScroll`. When the offset reaches the last target's size
      the last target is told `onRelease(true)`; a target that is not an
      indicator then settles to the size (on the offset's side) with
      REFRESHING as the state to settle into, an indicator settles back to 0.
      Short of the size the release is `onRelease(false)` and a reset. */
  function StopNestedScroll(c: Layout): (r: Result<Layout>)
    ensures r.Error? <==> StopThrows(c)
    ensures r.Ok? ==> SameWiring(c, r.value) && r.value.contentOffset == c.contentOffset
    ensures c.state == StateRefreshing || c.state == StateSettle ==> r == Ok(c)
    ensures c.state != StateRefreshing && c.state != StateSettle && r.Ok? ==>
      (r.value.targetState == StateRefreshing <==> Triggers(c))
    ensures c.state != StateRefreshing && c.state != StateSettle && Triggers(c) ==>
      var size := ContentSize(c.lastTarget.value);
      var goal := if c.contentOffset > 0 then size else -size;
      && r.value.log == c.log + [Release(c.lastTarget.value, true)]
      && r.value.target == c.target && r.value.lastTarget == c.lastTarget
      && (goal != c.contentOffset ==> r.value.state == StateSettle && SettlingTo(r.value.scroller, c.contentOffset, goal))
      && (goal == c.contentOffset ==> r.value.state == c.state && r.value.scroller == c.scroller)
    ensures c.state != StateRefreshing && c.state != StateSettle && r.Ok? && !Triggers(c) ==>
      && ResetFrom(c, r.value)
      && r.value.log == c.log +
           (if SizeOrZero(c.target) > 0
            then [Release(c.lastTarget.value, Abs(c.contentOffset) >= ContentSize(c.lastTarget.value))]
            else [])
  {
    if c.state == StateRefreshing || c.state == StateSettle then Ok(c)
    else if c.target.Some? && ContentSize(c.target.value) > 0 then
      match c.lastTarget
      case None => Error("NullPointerException")
      case Some(last) =>
        var size := ContentSize(last);
        if Abs(c.contentOffset) >= size then
          var c1 := c.(log := c.log + [Release(last, true)]);
          if !IsIndicator(c.target.value) then
            Ok(AnimateContentToPosition(c1.(targetState := StateRefreshing), if c.contentOffset > 0 then size else -size))
          else Ok(AnimateResetContent(c1))
        else
          Ok(AnimateResetContent(c.(log := c.log + [Release(last, false)])))
    else Ok(AnimateResetContent(c))
  }

  // ---------------------------------------------------------------------------
  // Settle tick

  function CompletionNotices(c: Layout, into: int): seq<Callback<Target>>
  {
    if into == StateIdle then (if c.lastTarget.Some? then [Reset(c.lastTarget.value)] else [])
    else if into == StateRefreshing then StartNotices(c, c.contentOffset < 0)
    else []
  }

  /** `computeScroll`, one frame; the same steps as the Kotlin layout's. */
  function ComputeScroll(c: Layout, frame: Frame): (r: Layout)
    ensures SameWiring(c, r) && r.target == c.target && r.lastTarget == c.lastTarget
    ensures c.state != StateSettle ==> r == c
    ensures c.state == StateSettle && !c.scroller.finished ==>
      && r.state == StateSettle && r.targetState == c.targetState
      && r.contentOffset == (if frame.Between? then frame.y else c.scroller.finalY)
      && r.scroller.finalY == c.scroller.finalY && r.scroller.startY == c.scroller.startY
      && (frame.Elapsed? <==> r.scroller.finished)
      && r.log == c.log + OffsetNotices(c, r.contentOffset)
    ensures c.state == StateSettle && c.scroller.finished ==>
      && r.state == c.targetState && r.targetState == StateIdle
      && r.contentOffset == c.contentOffset && r.scroller == c.scroller
      && r.log == c.log + CompletionNotices(c, c.targetState)
  {
    if c.state == StateSettle then
      var poll := ComputeScrollOffset(c.scroller, frame);
      if poll.running then
        OffsetContent(c.(scroller := poll.after), poll.after.currY)
      else
        var c1 := c.(scroller := poll.after, state := c.targetState);
        var c2 := c1.(log := c1.log + CompletionNotices(c1, c1.state));
        c2.(targetState := StateIdle)
    else c
  }

  // ---------------------------------------------------------------------------
  // Public calls

  /** `completeRefreshImmediately`: resets from REFRESHING or a drag only. */
  function CompleteRefreshImmediately(c: Layout): (r: Layout)
    ensures StateDragFromTop <= c.state <= StateRefreshing ==> ResetFrom(c, r) && r.log == c.log
    ensures !(StateDragFromTop <= c.state <= StateRefreshing) ==> r == c
    ensures SameWiring(c, r)
  {
    if c.state == StateRefreshing || c.state == StateDragFromBottom || c.state == StateDragFromTop then
      AnimateResetContent(c)
    else c
  }

  predicate Intercepted(c: Layout, internalIntercepts: bool, publicIntercepts: bool)
  {
    (c.listeners.internal && internalIntercepts) || (c.listeners.public && publicIntercepts)
  }

  function CompletionOffers(c: Layout, internalIntercepts: bool): seq<Callback<Target>>
  {
    (if c.listeners.internal then [RefreshComplete(Internal)] else [])
    + (if c.listeners.public && !(c.listeners.internal && internalIntercepts) then [RefreshComplete(Public)] else [])
  }

  /** `completeRefresh`: the internal listener is asked first, the public one
      only when the internal one did not intercept; without an interception
      the content resets at once. */
  function CompleteRefresh(c: Layout, internalIntercepts: bool, publicIntercepts: bool): (r: Layout)
    ensures Intercepted(c, internalIntercepts, publicIntercepts) ==>
      r == c.(log := c.log + CompletionOffers(c, internalIntercepts))
    ensures !Intercepted(c, internalIntercepts, publicIntercepts) ==>
      r == CompleteRefreshImmediately(c.(log := c.log + CompletionOffers(c, internalIntercepts)))
    ensures SameWiring(c, r)
  {
    var intercept := c.listeners.internal && internalIntercepts;
    var c1 := c.(log := c.log + (if c.listeners.internal then [RefreshComplete(Internal)] else []));
    var c2 := if !intercept && c.listeners.public then c1.(log := c1.log + [RefreshComplete(Public)]) else c1;
    var intercept2 := if !intercept && c.listeners.public then publicIntercepts else intercept;
    if !intercept2 then CompleteRefreshImmediately(c2) else c2
  }

  /** Whether `setRefresh` finds a last target that takes part in refreshing. */
  predicate Activates(c: Layout, fromHeader: bool)
  {
    var last := PrepareTarget(c, fromHeader).lastTarget;
    c.state != StateRefreshing && last.Some? && !IsIndicator(last.value)
  }

  /** `setRefresh(isFromHeader)`: ignored while REFRESHING. Otherwise it
      enters SETTLE with REFRESHING as the state to settle into and prepares
      the target. A last target that is not an indicator then enters
      REFRESHING, is told `onRelease(true)`, and the content settles to minus
      (header) or plus (footer) the target's size. Without such a target the
      layout stays in SETTLE with the animator as it was. */
  function SetRefresh(c: Layout, fromHeader: bool): (r: Layout)
    ensures SameWiring(c, r) && r.contentOffset == c.contentOffset
    ensures c.state == StateRefreshing ==> r == c
    ensures c.state != StateRefreshing ==>
      && r.target == PrepareTarget(c, fromHeader).target && r.lastTarget == PrepareTarget(c, fromHeader).lastTarget
      && r.targetState == StateRefreshing
    ensures c.state != StateRefreshing && !Activates(c, fromHeader) ==>
      r == PrepareTarget(c, fromHeader).(state := StateSettle, targetState := StateRefreshing)
    ensures c.state != StateRefreshing && !Activates(c, fromHeader) ==>
      r.state == StateSettle && r.scroller == c.scroller && r.log == c.log
    ensures c.state != StateRefreshing && Activates(c, fromHeader) ==>
      var p := PrepareTarget(c, fromHeader);
      var goal := if fromHeader then -ContentSize(p.target.value) else ContentSize(p.target.value);
      && r.log == c.log + [Release(p.lastTarget.value, true)]
      && (goal != c.contentOffset ==> r.state == StateSettle && SettlingTo(r.scroller, c.contentOffset, goal))
      && (goal == c.contentOffset ==> r.state == StateRefreshing)
  {
    if c.state != StateRefreshing then
      var c1 := PrepareTarget(c.(state := StateSettle, targetState := StateRefreshing), fromHeader);
      if c1.lastTarget.Some? && !IsIndicator(c1.lastTarget.value) then
        var size := SizeOrZero(c1.target);
        var c2 := c1.(state := StateRefreshing, log := c1.log + [Release(c1.lastTarget.value, true)]);
        AnimateContentToPosition(c2, if fromHeader then -size else size)
      else c1
    else c
  }

  function SetRefreshListener(c: Layout, present: bool): (r: Layout)
    ensures r.listeners.public == present && r == c.(listeners := c.listeners.(public := present))
  {
    c.(listeners := c.listeners.(public := present))
  }

  function SetStateChangeListener(c: Layout, present: bool): (r: Layout)
    ensures r.listeners.stateChange == present && r == c.(listeners := c.listeners.(stateChange := present))
  {
    c.(listeners := c.listeners.(stateChange := present))
  }

  function SetInternalRefreshListener(c: Layout, present: bool): (r: Layout)
    ensures r.listeners.internal == present && r == c.(listeners := c.listeners.(internal := present))
  {
    c.(listeners := c.listeners.(internal := present))
  }

  // ---------------------------------------------------------------------------
  // Children

  /** `addView`: the child fills the slot of its role. A header or footer
      that implements `Refreshable` also fills the role's `Refreshable` slot;
      one that does not leaves that slot as it was. No child is ever taken
      out of a slot. */
  function ViewAdded(c: Layout, child: View): (r: Layout)
    ensures child.role == RoleContent ==> r == c.(children := c.children.(content := Some(child)))
    ensures child.role == RoleHeader ==>
      r == c.(children := c.children.(header := Some(child),
                headerRefreshable := if child.capability.Some? then Some(Own(child, child.capability.value))
                                     else c.children.headerRefreshable))
    ensures child.role == RoleFooter ==>
      r == c.(children := c.children.(footer := Some(child),
                footerRefreshable := if child.capability.Some? then Some(Own(child, child.capability.value))
                                     else c.children.footerRefreshable))
    ensures !(RoleHeader <= child.role <= RoleContent) ==> r == c
  {
    if child.role == RoleContent then c.(children := c.children.(content := Some(child)))
    else if child.role == RoleFooter then
      var c1 := c.(children := c.children.(footer := Some(child)));
      if child.capability.Some? then c1.(children := c1.children.(footerRefreshable := Some(Own(child, child.capability.value))))
      else c1
    else if child.role == RoleHeader then
      var c1 := c.(children := c.children.(header := Some(child)));
      if child.capability.Some? then c1.(children := c1.children.(headerRefreshable := Some(Own(child, child.capability.value))))
      else c1
    else c
  }

  // ---------------------------------------------------------------------------
  // Saved state

  datatype SavedState = SavedState(state: int, contentOffset: int, lastTarget: int)

  /** `onSaveInstanceState`: no last target saves as NONE, the header view
      itself as HEADER, and every other last target, a wrapper around the
      header included, as FOOTER. */
  function Save(c: Layout): (s: SavedState)
    ensures s.state == c.state && s.contentOffset == c.contentOffset
    ensures s.lastTarget == TargetNone <==> c.lastTarget.None?
    ensures s.lastTarget == TargetHeader <==> c.lastTarget.Some? && IsView(c.lastTarget.value, c.children.header)
    ensures s.lastTarget == TargetFooter <==> c.lastTarget.Some? && !IsView(c.lastTarget.value, c.children.header)
  {
    SavedState(c.state, c.contentOffset,
      if c.lastTarget.None? then TargetNone
      else if IsView(c.lastTarget.value, c.children.header) then TargetHeader
      else TargetFooter)
  }

  /** HEADER and FOOTER select a `Refreshable` slot; any other code keeps
      the current last target. */
  function RestoredTarget(c: Layout, code: int): Option<Target>
  {
    if code == TargetHeader then c.children.headerRefreshable
    else if code == TargetFooter then c.children.footerRefreshable
    else c.lastTarget
  }

  /** `onRestoreInstanceState`. */
  function Restore(c: Layout, s: SavedState): (r: Layout)
    ensures SameWiring(c, r) && r.state == s.state && r.contentOffset == s.contentOffset
    ensures r.targetState == c.targetState && r.scroller == c.scroller
    ensures s.state != StateRefreshing || c.target.Some? ==>
      r.target == c.target && r.lastTarget == RestoredTarget(c, s.lastTarget)
    ensures s.state == StateRefreshing && c.target.None? ==>
      r.target == r.lastTarget && r.target == Candidate(c, s.contentOffset < 0)
    ensures r.log == c.log + OffsetNotices(c.(lastTarget := RestoredTarget(c, s.lastTarget)), s.contentOffset)
  {
    var c1 := c.(state := s.state, contentOffset := s.contentOffset, lastTarget := RestoredTarget(c, s.lastTarget));
    var c2 := OffsetContent(c1, c1.contentOffset);
    if c2.state == StateRefreshing then PrepareTarget(c2, 0 > c2.contentOffset) else c2
  }

  // ---------------------------------------------------------------------------
  // Raw touch input

  /** One `MotionEvent`: its action, its y coordinate, and what an ancestor
      consumed of a move's delta (`None` when `dispatchNestedPreScroll`
      returned false). */
  datatype Touch = Touch(action: MotionAction, y: int, ancestorConsumed: Option<int>)

  /** The delta a move feeds to the drag: the pointer's travel since the
      last event minus what an ancestor consumed. */
  function MoveDelta(c: Layout, e: Touch): int
  {
    (c.pointer.lastY - e.y) - (if e.ancestorConsumed.Some? then e.ancestorConsumed.value else 0)
  }

  /** A move from IDLE that has left the touch slop. */
  predicate LeavesSlop(c: Layout, e: Touch)
  {
    c.state == StateIdle && Abs(c.pointer.pressedY - e.y) > c.touchSlop
  }

  /** The start of a touch drag: the drag state of `delta`'s direction and
      the target of that side prepared. */
  function BeginDrag(c: Layout, delta: int): (r: Layout)
    ensures r.state == (if delta < 0 then StateDragFromTop else StateDragFromBottom)
    ensures r == PrepareTarget(c.(state := r.state), delta < 0)
  {
    PrepareTarget(c.(state := if delta < 0 then StateDragFromTop else StateDragFromBottom), delta < 0)
  }

  /** The move part of `onTouchEvent`: a move that leaves the slop from
      IDLE starts a drag and feeds its delta to `onNestedScroll` as
      unconsumed; a move while dragging does the latter alone; any other move
      changes nothing. */
  function TouchMove(c: Layout, e: Touch): (r: Layout)
    ensures LeavesSlop(c, e) ==> r == NestedScroll(BeginDrag(c, MoveDelta(c, e)), 0, 0, 0, MoveDelta(c, e))
    ensures LeavesSlop(c, e) ==> r.state == (if MoveDelta(c, e) < 0 then StateDragFromTop else StateDragFromBottom)
    ensures IsDragging(c.state) ==> r == NestedScroll(c, 0, 0, 0, MoveDelta(c, e))
    ensures !LeavesSlop(c, e) && !IsDragging(c.state) ==> r == c
    ensures (LeavesSlop(c, e) || IsDragging(c.state)) && MoveDelta(c, e) != 0 ==>
      r.contentOffset == FixedOffset(c.contentOffset, MoveDelta(c, e))
    ensures SameWiring(c, r) && r.targetState == c.targetState
  {
    var c1 := if LeavesSlop(c, e) then BeginDrag(c, MoveDelta(c, e)) else c;
    if IsDragging(c1.state) then NestedScroll(c1, 0, 0, 0, MoveDelta(c, e)) else c1
  }

  /** `onTouchEvent`: it always answers true, unless the release path throws. */
  function TouchEvent(c: Layout, e: Touch): (r: Result<Layout>)
    ensures r.Error? <==> (e.action == Up || e.action == Cancel || e.action == Outside) && StopThrows(c)
    ensures r.Ok? ==> r.value.pointer.lastY == e.y
    ensures e.action == Down ==> r == Ok(c.(pointer := Pointer(e.y, e.y)))
    ensures e.action == Move ==> r == Ok(TouchMove(c, e).(pointer := c.pointer.(lastY := e.y)))
    ensures e.action == Move && IsDragging(c.state) && MoveDelta(c, e) != 0 ==>
      r.value.contentOffset == FixedOffset(c.contentOffset, MoveDelta(c, e))
    ensures (e.action == Up || e.action == Cancel || e.action == Outside) && r.Ok? ==>
      r.value == StopNestedScroll(c).value.(pointer := c.pointer.(lastY := e.y))
    ensures e.action == OtherAction ==> r == Ok(c.(pointer := c.pointer.(lastY := e.y)))
  {
    match e.action
    case Down => Ok(c.(pointer := Pointer(e.y, e.y)))
    case Move =>
      var c1 := TouchMove(c, e);
      Ok(c1.(pointer := c1.pointer.(lastY := e.y)))
    case OtherAction => Ok(c.(pointer := c.pointer.(lastY := e.y)))
    case _ =>
      match StopNestedScroll(c)
      case Ok(c1) => Ok(c1.(pointer := c1.pointer.(lastY := e.y)))
      case Error(m) => Error(m)
  }
}
