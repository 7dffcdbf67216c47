/** The refresh gesture coordinator of the Kotlin `RefreshLayout`, as pure
    functions over a record of its fields. Each function is one entry point
    or private helper of the class and returns the record after the call;
    the outgoing calls to the header/footer `Refreshable` and to the
    listeners are appended to `log` in the order the code makes them.
    The class `RefreshLayoutKt.RefreshLayout` performs the same updates on
    real fields and is proved to agree with these functions. */
module CoordinatorKt {
  import opened Base
  import opened Animator
  import Adapter = ViewRefreshableKt

  // State codes of the companion object.
  const StateIdle := 0
  const StateDragFromTop := 1
  const StateDragFromBottom := 2
  const StateDragFromLeft := 3
  const StateDragFromRight := 4
  const StateRefreshing := 5
  const StateSettle := 6

  // Codes of the saved last target.
  const TargetNone := 0
  const TargetHeader := 1
  const TargetFooter := 2

  // `LayoutParams` roles.
  const RoleHeader := 1
  const RoleFooter := 2
  const RoleContent := 3

  // Bits of the nested-scroll axes mask (`ViewCompat.SCROLL_AXIS_*`).
  const AxisHorizontal: bv32 := 1
  const AxisVertical: bv32 := 2

  /** `STATE_DRAG`: the four drag states, codes 1 to 4. */
  predicate IsDragging(state: int)
  {
    StateDragFromTop <= state <= StateDragFromRight
  }

  /** `STATE_REFRESH_PROCESS`: every state but idle, codes 1 to 6. */
  predicate InRefreshProcess(state: int)
  {
    StateDragFromTop <= state <= StateSettle
  }

  /** A `Refreshable` the coordinator talks to: a header/footer view that
      implements the capability itself, or a `ViewRefreshable` wrapped around
      a plain view. */
  datatype Target = Own(view: View, impl: Capability) | Wrapped(adapter: Adapter.ViewRefreshable)

  function IsIndicator(t: Target): bool
  {
    match t
    case Own(_, impl) => impl.indicator
    case Wrapped(a) => Adapter.IsIndicator(a)
  }

  function ContentSize(t: Target, vertical: bool): int
  {
    match t
    case Own(_, impl) => if vertical then impl.verticalSize else impl.horizontalSize
    case Wrapped(a) => Adapter.ContentSize(a, vertical)
  }

  /** `t?.getContentSize(mRefreshVertical) ?: 0`. */
  function SizeOrZero(t: Option<Target>, vertical: bool): int
  {
    if t.Some? then ContentSize(t.value, vertical) else 0
  }

  /** `child as? Refreshable`. */
  function AsRefreshable(v: View): (t: Option<Target>)
    ensures t.Some? <==> v.capability.Some?
    ensures t.Some? ==> t.value == Own(v, v.capability.value)
  {
    if v.capability.Some? then Some(Own(v, v.capability.value)) else None
  }

  /** Whether a target is the very object a view slot holds, as Kotlin's
      `when (mLastTarget) { mHeader -> ... }` decides it with `==`: two nulls
      are equal, and only a view that is its own `Refreshable` equals it. */
  predicate SameObject(t: Option<Target>, v: Option<View>)
  {
    (t.None? && v.None?) || (t.Some? && t.value.Own? && v.Some? && t.value.view == v.value)
  }

  /** The children the layout holds, by role, and the `Refreshable` slots of
      header and footer. */
  datatype Children = Children(header: Option<View>, content: Option<View>, footer: Option<View>,
                               headerRefreshable: Option<Target>, footerRefreshable: Option<Target>)

  /** Which listeners are registered. */
  datatype Listeners = Listeners(internal: bool, public: bool, stateChange: bool)

  /** The raw-pointer tracking fields `mPressedX/Y` and `mLastX/Y`. */
  datatype Pointer = Pointer(pressedX: int, pressedY: int, lastX: int, lastY: int)

  datatype Layout = Layout(
    vertical: bool,                       // mRefreshAxis == REFRESH_VERTICAL
    touchSlop: int,
    children: Children, listeners: Listeners, pointer: Pointer,
    state: int, targetState: int, contentOffset: int,
    target: Option<Target>, lastTarget: Option<Target>,
    scroller: Scroller,
    log: seq<Callback<Target>>)

  /** Everything an entry point other than child registration, listener
      registration and touch tracking leaves alone. */
  predicate SameWiring(c: Layout, r: Layout)
  {
    && r.vertical == c.vertical && r.touchSlop == c.touchSlop
    && r.children == c.children && r.listeners == c.listeners && r.pointer == c.pointer
  }

  /** A layout as constructed: idle, no children, no listeners. */
  function Initial(vertical: bool, touchSlop: int): (c: Layout)
    ensures c.state == StateIdle && c.targetState == StateIdle && c.contentOffset == 0
    ensures c.target.None? && c.lastTarget.None? && c.scroller.finished && c.log == []
    ensures c.children.header.None? && c.children.content.None? && c.children.footer.None?
    ensures c.children.headerRefreshable.None? && c.children.footerRefreshable.None?
    ensures !c.listeners.internal && !c.listeners.public && !c.listeners.stateChange
  {
    Layout(vertical, touchSlop, Children(None, None, None, None, None), Listeners(false, false, false),
           Pointer(0, 0, 0, 0), StateIdle, StateIdle, 0, None, None, NewScroller(), [])
  }

  // ---------------------------------------------------------------------------
  // Outgoing calls

  function ReleaseTo(t: Option<Target>, trigger: bool): seq<Callback<Target>>
  {
    if t.Some? then [Release(t.value, trigger)] else []
  }

  function ResetTo(t: Option<Target>): seq<Callback<Target>>
  {
    if t.Some? then [Reset(t.value)] else []
  }

  /** The calls `offsetContent(offset)` makes: `onOffset` on the last target,
      then `onContentOffset` on the state-change listener. */
  function OffsetNotices(c: Layout, offset: int): seq<Callback<Target>>
  {
    (if c.lastTarget.Some? then [Offset(c.lastTarget.value, offset)] else [])
    + (if c.listeners.stateChange then [ContentOffset(offset)] else [])
  }

  /** The refresh-start calls: the internal listener first, then the public one. */
  function StartNotices(c: Layout, fromHeader: bool): seq<Callback<Target>>
  {
    (if c.listeners.internal then [RefreshStart(Internal, fromHeader)] else [])
    + (if c.listeners.public then [RefreshStart(Public, fromHeader)] else [])
  }

  // ---------------------------------------------------------------------------
  // Private helpers

  /** `resolveOffset`: the drag resistance of one half, truncated toward zero. */
  function ResolveOffset(delta: int): (r: int)
    ensures 2 * Abs(r) <= Abs(delta) <= 2 * Abs(r) + 1
    ensures delta > 1 ==> r > 0
    ensures delta < -1 ==> r < 0
    ensures -1 <= delta <= 1 ==> r == 0
  {
    HalfTowardZero(delta)
  }

  /** `offsetContent`: moves the content to `offset` and tells the last
      target and the state-change listener; nothing else changes. */
  function OffsetContent(c: Layout, offset: int): (r: Layout)
    ensures r.contentOffset == offset
    ensures r.log == c.log + OffsetNotices(c, offset)
    ensures r == c.(contentOffset := offset, log := r.log)
  {
    c.(contentOffset := offset, log := c.log + OffsetNotices(c, offset))
  }

  /** `prepareTarget`: fills an empty `mTarget` (and `mLastTarget` with it)
      with the role's own `Refreshable`, else a `ViewRefreshable` around the
      role's view, else null. An existing target is never replaced. */
  function PrepareTarget(c: Layout, fromHeader: bool): (r: Layout)
    ensures c.target.Some? ==> r == c
    ensures c.target.None? ==> r == c.(target := r.target, lastTarget := r.target)
    ensures c.target.None? && fromHeader ==>
      r.target == (if c.children.headerRefreshable.Some? then c.children.headerRefreshable
                   else if c.children.header.Some? then Some(Wrapped(Adapter.ViewRefreshable(c.children.header.value)))
                   else None)
    ensures c.target.None? && !fromHeader ==>
      r.target == (if c.children.footerRefreshable.Some? then c.children.footerRefreshable
                   else if c.children.footer.Some? then Some(Wrapped(Adapter.ViewRefreshable(c.children.footer.value)))
                   else None)
  {
    if c.target.Some? then c
    else
      var chosen :=
        if fromHeader then
          (if c.children.headerRefreshable.Some? then c.children.headerRefreshable
           else if c.children.header.Some? then Some(Wrapped(Adapter.ViewRefreshable(c.children.header.value))) else None)
        else
          (if c.children.footerRefreshable.Some? then c.children.footerRefreshable
           else if c.children.footer.Some? then Some(Wrapped(Adapter.ViewRefreshable(c.children.footer.value))) else None);
      c.(target := chosen, lastTarget := chosen)
  }

  /** The settle the animator runs after `animateContentToPosition(goal)`
      from `offset`: from `offset` to `goal`, not finished. */
  predicate SettlingTo(s: Scroller, offset: int, goal: int)
  {
    !s.finished && s.startY == offset && s.finalY == goal && s.currY == offset
  }

  /** `animateContentToPosition`: when the goal differs from the current
      offset, enters SETTLE and restarts the animator toward the goal;
      otherwise nothing happens. */
  function AnimateContentToPosition(c: Layout, goal: int): (r: Layout)
    ensures goal == c.contentOffset ==> r == c
    ensures goal != c.contentOffset ==>
      r.state == StateSettle && SettlingTo(r.scroller, c.contentOffset, goal)
      && r == c.(state := StateSettle, scroller := r.scroller)
  {
    if goal != c.contentOffset then
      c.(state := StateSettle, scroller := StartScroll(AbortAnimation(c.scroller), c.contentOffset, goal - c.contentOffset))
    else c
  }

  /** What `animateResetContent` leaves: no target, IDLE as the state to
      settle into, and a settle toward 0 unless the content is already there. */
  predicate ResetFrom(c: Layout, r: Layout)
  {
    && r.target.None? && r.targetState == StateIdle && r.contentOffset == c.contentOffset
    && r.lastTarget == c.lastTarget
    && (c.contentOffset != 0 ==> r.state == StateSettle && SettlingTo(r.scroller, c.contentOffset, 0))
    && (c.contentOffset == 0 ==> r.state == c.state && r.scroller == c.scroller)
  }

  /** `animateResetContent`. */
  function AnimateResetContent(c: Layout): (r: Layout)
    ensures ResetFrom(c, r) && SameWiring(c, r) && r.log == c.log
  {
    AnimateContentToPosition(c.(target := None, targetState := StateIdle), 0)
  }

  // ---------------------------------------------------------------------------
  // Nested-scroll parent entry points

  /** `onStartNestedScroll`: accepts only a nested scroll started by the
      content child along the refresh axis. */
  function StartNestedScroll(c: Layout, child: View, axes: bv32): (accepted: bool)
    ensures accepted ==> c.children.content == Some(child)
    ensures c.children.content == Some(child) ==>
      (accepted <==> (if c.vertical then axes & AxisVertical != 0 else axes & AxisHorizontal != 0))
  {
    c.children.content == Some(child)
    && if c.vertical then axes & AxisVertical == AxisVertical else axes & AxisHorizontal == AxisHorizontal
  }

  /** `onNestedScroll`. On the vertical axis a nonzero `dyUnconsumed` picks
      the drag direction from its sign and the target with `prepareTarget`,
      but the offset moves by the damped `dyConsumed`; on the horizontal axis
      the damped `dxUnconsumed` is used. A zero unconsumed delta changes
      nothing. */
  function NestedScroll(c: Layout, dxConsumed: int, dyConsumed: int, dxUnconsumed: int, dyUnconsumed: int): (r: Layout)
    ensures SameWiring(c, r) && r.targetState == c.targetState
    ensures c.vertical && dyUnconsumed == 0 ==> r == c
    ensures !c.vertical && dxUnconsumed == 0 ==> r == c
    ensures c.vertical && dyUnconsumed != 0 ==>
      && r.state == (if dyUnconsumed > 0 then StateDragFromBottom else StateDragFromTop)
      && r.target == PrepareTarget(c, dyUnconsumed < 0).target
      && r.contentOffset == c.contentOffset + ResolveOffset(dyConsumed)
      && r.scroller.finished
      && r.lastTarget == PrepareTarget(c, dyUnconsumed < 0).lastTarget
      && r.log == c.log + OffsetNotices(PrepareTarget(c, dyUnconsumed < 0), r.contentOffset)
    ensures !c.vertical && dxUnconsumed != 0 ==>
      && r.state == (if dxUnconsumed > 0 then StateDragFromRight else StateDragFromLeft)
      && r.target == PrepareTarget(c, dxUnconsumed < 0).target
      && r.contentOffset == c.contentOffset + ResolveOffset(dxUnconsumed)
      && r.scroller.finished
      && r.lastTarget == PrepareTarget(c, dxUnconsumed < 0).lastTarget
      && r.log == c.log + OffsetNotices(PrepareTarget(c, dxUnconsumed < 0), r.contentOffset)
    ensures c.target.Some? ==> r.target == c.target && r.lastTarget == c.lastTarget
  {
    if c.vertical then
      if dyUnconsumed != 0 then
        var c1 := c.(scroller := AbortAnimation(c.scroller),
                     state := if dyUnconsumed > 0 then StateDragFromBottom else StateDragFromTop);
        var c2 := PrepareTarget(c1, 0 > dyUnconsumed);
        OffsetContent(c2, c2.contentOffset + ResolveOffset(dyConsumed))
      else c
    else
      if dxUnconsumed != 0 then
        var c1 := c.(scroller := AbortAnimation(c.scroller),
                     state := if dxUnconsumed > 0 then StateDragFromRight else StateDragFromLeft);
        var c2 := PrepareTarget(c1, 0 > dxUnconsumed);
        OffsetContent(c2, c2.contentOffset + ResolveOffset(dxUnconsumed))
      else c
  }

  /** `onNestedPreScroll`, its effect on the coordinator: in a drag state the
      damped delta of the refresh axis is added to the offset, with no check
      that the offset keeps its sign; in any other state nothing moves. */
  function NestedPreScroll(c: Layout, dx: int, dy: int): (r: Layout)
    ensures IsDragging(c.state) ==>
      r == OffsetContent(c, c.contentOffset + ResolveOffset(if c.vertical then dy else dx))
    ensures !IsDragging(c.state) ==> r == c
    ensures SameWiring(c, r) && r.state == c.state && r.target == c.target && r.scroller == c.scroller
  {
    if IsDragging(c.state) then OffsetContent(c, c.contentOffset + ResolveOffset(if c.vertical then dy else dx))
    else c
  }

  /** `onNestedPreScroll`, its effect on the `consumed` pair: in every state
      but idle the whole delta of the refresh axis is consumed; the other
      entry, and both entries when idle, are left as they were. */
  function PreScrollConsumed(c: Layout, dx: int, dy: int, consumed: seq<int>): (r: seq<int>)
    requires |consumed| >= 2
    ensures |r| == |consumed|
    ensures InRefreshProcess(c.state) && c.vertical ==> r[1] == dy && r[0] == consumed[0]
    ensures InRefreshProcess(c.state) && !c.vertical ==> r[0] == dx && r[1] == consumed[1]
    ensures forall i :: 2 <= i < |r| ==> r[i] == consumed[i]
    ensures !InRefreshProcess(c.state) ==> r == consumed
  {
    if InRefreshProcess(c.state) then
      if c.vertical then consumed[1 := dy] else consumed[0 := dx]
    else consumed
  }

  /** `onNestedFling` and `onNestedPreFling`: the coordinator claims a fling
      exactly when it is in a state of codes 1 to 6. */
  function ClaimsFling(c: Layout): (claimed: bool)
    ensures claimed <==> StateDragFromTop <= c.state <= StateSettle
  {
    InRefreshProcess(c.state)
  }

  /** The length of the drag that activates a refresh: the last target's size. */
  function ActivationDistance(c: Layout): int
  {
    SizeOrZero(c.lastTarget, c.vertical)
  }

  /** The release condition of `onStopNestedScroll`: a target of positive
      size, an offset of at least the last target's size (inclusive), and a
      target that is not a passive indicator. */
  predicate Triggers(c: Layout)
  {
    && SizeOrZero(c.target, c.vertical) > 0
    && Abs(c.contentOffset) >= ActivationDistance(c)
    && c.target.Some? && !IsIndicator(c.target.value)
  }

  /** `onStopNestedScroll` (the end of a gesture). */
  function StopNestedScroll(c: Layout): (r: Layout)
    ensures SameWiring(c, r) && r.contentOffset == c.contentOffset
    ensures c.state == StateRefreshing || c.state == StateSettle ==> r == c
    ensures c.state != StateRefreshing && c.state != StateSettle ==>
      (r.targetState == StateRefreshing <==> Triggers(c))
    ensures c.state != StateRefreshing && c.state != StateSettle && Triggers(c) ==>
      var goal := if c.contentOffset > 0 then ActivationDistance(c) else -ActivationDistance(c);
      && r.log == c.log + ReleaseTo(c.lastTarget, true)
      && r.target == c.target && r.lastTarget == c.lastTarget
      && (goal != c.contentOffset ==> r.state == StateSettle && SettlingTo(r.scroller, c.contentOffset, goal))
      && (goal == c.contentOffset ==> r.state == c.state)
    ensures c.state != StateRefreshing && c.state != StateSettle && !Triggers(c) ==>
      && ResetFrom(c, r)
      && r.log == c.log + (if SizeOrZero(c.target, c.vertical) > 0 then ReleaseTo(c.lastTarget, false) else [])
  {
    if c.state == StateRefreshing || c.state == StateSettle then c
    else if SizeOrZero(c.target, c.vertical) > 0 then
      var contentSize := SizeOrZero(c.lastTarget, c.vertical);
      if Abs(c.contentOffset) >= contentSize && c.target.Some? && !IsIndicator(c.target.value) then
        var c1 := c.(log := c.log + ReleaseTo(c.lastTarget, true), targetState := StateRefreshing);
        AnimateContentToPosition(c1, if c.contentOffset > 0 then contentSize else -contentSize)
      else
        AnimateResetContent(c.(log := c.log + ReleaseTo(c.lastTarget, false)))
    else
      AnimateResetContent(c)
  }

  // ---------------------------------------------------------------------------
  // Settle tick

  /** The calls made when a settle completes into `into`. */
  function CompletionNotices(c: Layout, into: int): seq<Callback<Target>>
  {
    if into == StateIdle then ResetTo(c.lastTarget)
    else if into == StateRefreshing then StartNotices(c, c.contentOffset < 0)
    else []
  }

  /** `computeScroll`, one frame. Outside SETTLE nothing happens. While the
      animator runs, its value becomes the offset. Once it has finished, the
      state becomes `mTargetState`: IDLE tells the last target `onReset`,
      REFRESHING tells the internal and then the public listener
      `onRefreshStart(offset < 0)`; `mTargetState` goes back to IDLE. */
  function ComputeScroll(c: Layout, frame: Frame): (r: Layout)
    ensures SameWiring(c, r) && r.target == c.target && r.lastTarget == c.lastTarget
    ensures c.state != StateSettle ==> r == c
    ensures c.state == StateSettle && !c.scroller.finished ==>
      && r.state == StateSettle && r.targetState == c.targetState
      && r.contentOffset == (if frame.Between? then frame.y else c.scroller.finalY)
      && r.scroller.finalY == c.scroller.finalY && r.scroller.startY == c.scroller.startY
      && (frame.Elapsed? <==> r.scroller.finished)
      && r.log == c.log + OffsetNotices(c, r.contentOffset)
    ensures c.state == StateSettle && c.scroller.finished ==>
      && r.state == c.targetState && r.targetState == StateIdle
      && r.contentOffset == c.contentOffset && r.scroller == c.scroller
      && r.log == c.log + CompletionNotices(c, c.targetState)
  {
    if c.state == StateSettle then
      var poll := ComputeScrollOffset(c.scroller, frame);
      if poll.running then
        OffsetContent(c.(scroller := poll.after), poll.after.currY)
      else
        var c1 := c.(scroller := poll.after, state := c.targetState);
        var c2 := c1.(log := c1.log + CompletionNotices(c1, c1.state));
        c2.(targetState := StateIdle)
    else c
  }

  // ---------------------------------------------------------------------------
  // Public calls

  /** `completeRefreshImmediately`, also what `notifyRefreshComplete` on any
      observable handed out by `completeRefresh` runs: the content resets
      only from a drag state or REFRESHING (codes 1 to 5). */
  function CompleteRefreshImmediately(c: Layout): (r: Layout)
    ensures StateDragFromTop <= c.state <= StateRefreshing ==> ResetFrom(c, r) && r.log == c.log
    ensures !(StateDragFromTop <= c.state <= StateRefreshing) ==> r == c
    ensures SameWiring(c, r)
  {
    if StateDragFromTop <= c.state <= StateRefreshing then AnimateResetContent(c) else c
  }

  /** Whether `completeRefresh` finds a listener that intercepts: the
      internal listener is asked first; the public one only when the internal
      one did not intercept. An absent listener does not intercept. */
  predicate Intercepted(c: Layout, internalIntercepts: bool, publicIntercepts: bool)
  {
    (c.listeners.internal && internalIntercepts) || (c.listeners.public && publicIntercepts)
  }

  /** The `onRefreshComplete` offers `completeRefresh` makes. */
  function CompletionOffers(c: Layout, internalIntercepts: bool): seq<Callback<Target>>
  {
    (if c.listeners.internal then [RefreshComplete(Internal)] else [])
    + (if c.listeners.public && !(c.listeners.internal && internalIntercepts) then [RefreshComplete(Public)] else [])
  }

  /** `completeRefresh`: the listeners' answers are inputs. Without an
      interception the content resets right away (from codes 1 to 5 only);
      with one, only the offers are made and the retained observable decides
      later. */
  function CompleteRefresh(c: Layout, internalIntercepts: bool, publicIntercepts: bool): (r: Layout)
    ensures Intercepted(c, internalIntercepts, publicIntercepts) ==>
      r == c.(log := c.log + CompletionOffers(c, internalIntercepts))
    ensures !Intercepted(c, internalIntercepts, publicIntercepts) ==>
      r == CompleteRefreshImmediately(c.(log := c.log + CompletionOffers(c, internalIntercepts)))
    ensures c.listeners.internal && internalIntercepts ==> RefreshComplete(Public) !in r.log[|c.log|..]
    ensures SameWiring(c, r)
  {
    var offeredInternal := c.listeners.internal;
    var intercept := offeredInternal && internalIntercepts;
    var c1 := c.(log := c.log + (if offeredInternal then [RefreshComplete(Internal)] else []));
    var c2 := if !intercept && c1.listeners.public then c1.(log := c1.log + [RefreshComplete(Public)]) else c1;
    var intercept2 := if !intercept then c.listeners.public && publicIntercepts else intercept;
    if !intercept2 then CompleteRefreshImmediately(c2) else c2
  }

  /** `setRefresh(isFromHeader)`: ignored while REFRESHING. Otherwise the
      target is prepared; a target that is not a passive indicator enters
      REFRESHING (as state and as target state), is told `onRelease(true)`
      and the content settles to minus its size (header) or its size
      (footer). With an indicator or no target only the target preparation
      happens. */
  function SetRefresh(c: Layout, fromHeader: bool): (r: Layout)
    ensures SameWiring(c, r) && r.contentOffset == c.contentOffset
    ensures c.state == StateRefreshing ==> r == c
    ensures c.state != StateRefreshing ==>
      r.target == PrepareTarget(c, fromHeader).target && r.lastTarget == PrepareTarget(c, fromHeader).lastTarget
    ensures c.state != StateRefreshing && !Activates(c, fromHeader) ==> r == PrepareTarget(c, fromHeader)
    ensures c.state != StateRefreshing && Activates(c, fromHeader) ==>
      var t := PrepareTarget(c, fromHeader).target.value;
      var goal := if fromHeader then -ContentSize(t, c.vertical) else ContentSize(t, c.vertical);
      && r.targetState == StateRefreshing
      && r.log == c.log + [Release(t, true)]
      && (goal != c.contentOffset ==> r.state == StateSettle && SettlingTo(r.scroller, c.contentOffset, goal))
      && (goal == c.contentOffset ==> r.state == StateRefreshing)
  {
    if c.state != StateRefreshing then
      var c1 := PrepareTarget(c, fromHeader);
      match c1.target
      case None => c1
      case Some(t) =>
        if !IsIndicator(t) then
          var c2 := c1.(state := StateRefreshing, targetState := StateRefreshing, log := c1.log + [Release(t, true)]);
          AnimateContentToPosition(c2, if fromHeader then -ContentSize(t, c.vertical) else ContentSize(t, c.vertical))
        else c1
    else c
  }

  /** Whether `setRefresh(fromHeader)` starts a refresh. */
  predicate Activates(c: Layout, fromHeader: bool)
  {
    var t := PrepareTarget(c, fromHeader).target;
    c.state != StateRefreshing && t.Some? && !IsIndicator(t.value)
  }

  /** `setOnRefreshListener` and `setOnRefreshStateChangeListener`. */
  function SetRefreshListener(c: Layout, present: bool): (r: Layout)
    ensures r.listeners.public == present && r == c.(listeners := c.listeners.(public := present))
  {
    c.(listeners := c.listeners.(public := present))
  }

  function SetStateChangeListener(c: Layout, present: bool): (r: Layout)
    ensures r.listeners.stateChange == present && r == c.(listeners := c.listeners.(stateChange := present))
  {
    c.(listeners := c.listeners.(stateChange := present))
  }

  // ---------------------------------------------------------------------------
  // Children

  /** `onViewAdded`: the child fills the slot of its role; a header or
      footer also fills the role's `Refreshable` slot with its own
      implementation or null. A child with another role is not recorded. */
  function ViewAdded(c: Layout, child: View): (r: Layout)
    ensures child.role == RoleHeader ==> r == c.(children := c.children.(header := Some(child), headerRefreshable := AsRefreshable(child)))
    ensures child.role == RoleFooter ==> r == c.(children := c.children.(footer := Some(child), footerRefreshable := AsRefreshable(child)))
    ensures child.role == RoleContent ==> r == c.(children := c.children.(content := Some(child)))
    ensures !(RoleHeader <= child.role <= RoleContent) ==> r == c
  {
    if child.role == RoleHeader then c.(children := c.children.(header := Some(child), headerRefreshable := AsRefreshable(child)))
    else if child.role == RoleFooter then c.(children := c.children.(footer := Some(child), footerRefreshable := AsRefreshable(child)))
    else if child.role == RoleContent then c.(children := c.children.(content := Some(child)))
    else c
  }

  /** `onViewRemoved`: the slots of the child's role are cleared (whatever
      view they held); the current targets are left as they are. */
  function ViewRemoved(c: Layout, child: View): (r: Layout)
    ensures child.role == RoleHeader ==> r == c.(children := c.children.(header := None, headerRefreshable := None))
    ensures child.role == RoleFooter ==> r == c.(children := c.children.(footer := None, footerRefreshable := None))
    ensures child.role == RoleContent ==> r == c.(children := c.children.(content := None))
    ensures !(RoleHeader <= child.role <= RoleContent) ==> r == c
  {
    if child.role == RoleHeader then c.(children := c.children.(header := None, headerRefreshable := None))
    else if child.role == RoleFooter then c.(children := c.children.(footer := None, footerRefreshable := None))
    else if child.role == RoleContent then c.(children := c.children.(content := None))
    else c
  }

  /** The attribute values a child's `LayoutParams` is built from. */
  datatype LayoutParams = LayoutParams(role: int, gravity: int)

  /** `LayoutParams(context, attrs)`: refuses a role outside header..content
      with `IllegalArgumentException`. */
  function LayoutParamsFromAttributes(role: int, gravity: int): (r: Result<LayoutParams>)
    ensures r.Ok? <==> RoleHeader <= role <= RoleContent
    ensures r.Ok? ==> r.value == LayoutParams(role, gravity)
  {
    if RoleHeader <= role <= RoleContent then Ok(LayoutParams(role, gravity))
    else Error("You must set a layout_refresh_role attribute to your view")
  }

  // ---------------------------------------------------------------------------
  // Saved state

  /** The three integers of `SavedState`. */
  datatype SavedState = SavedState(state: int, contentOffset: int, lastTarget: int)

  /** `onSaveInstanceState`: the last target is recorded as HEADER or FOOTER
      only when it is the header or footer view itself (by `==`, so null
      equals an absent view); a wrapper saves as NONE. */
  function Save(c: Layout): (s: SavedState)
    ensures s.state == c.state && s.contentOffset == c.contentOffset
    ensures s.lastTarget == TargetHeader <==> SameObject(c.lastTarget, c.children.header)
    ensures s.lastTarget == TargetFooter <==> !SameObject(c.lastTarget, c.children.header) && SameObject(c.lastTarget, c.children.footer)
    ensures c.lastTarget.Some? && c.lastTarget.value.Wrapped? ==> s.lastTarget == TargetNone
  {
    SavedState(c.state, c.contentOffset,
      if SameObject(c.lastTarget, c.children.header) then TargetHeader
      else if SameObject(c.lastTarget, c.children.footer) then TargetFooter
      else TargetNone)
  }

  /** The last target `onRestoreInstanceState` derives from a saved code. */
  function RestoredTarget(c: Layout, code: int): Option<Target>
  {
    if code == TargetHeader then c.children.headerRefreshable
    else if code == TargetFooter then c.children.footerRefreshable
    else None
  }

  /** `onRestoreInstanceState`: takes the state and the offset, maps HEADER
      and FOOTER to the `Refreshable` slots and anything else to null,
      re-applies the offset and, when REFRESHING, prepares the target of the
      offset's direction. */
  function Restore(c: Layout, s: SavedState): (r: Layout)
    ensures SameWiring(c, r) && r.state == s.state && r.contentOffset == s.contentOffset
    ensures r.targetState == c.targetState && r.scroller == c.scroller
    ensures s.state != StateRefreshing || c.target.Some? ==>
      r.target == c.target && r.lastTarget == RestoredTarget(c, s.lastTarget)
    ensures s.state == StateRefreshing && c.target.None? ==>
      r.target == r.lastTarget && r.target == PrepareTarget(c, s.contentOffset < 0).target
    ensures r.log == c.log + OffsetNotices(c.(lastTarget := RestoredTarget(c, s.lastTarget)), s.contentOffset)
  {
    var c1 := c.(state := s.state, contentOffset := s.contentOffset, lastTarget := RestoredTarget(c, s.lastTarget));
    var c2 := OffsetContent(c1, c1.contentOffset);
    if c2.state == StateRefreshing then PrepareTarget(c2, 0 > c2.contentOffset) else c2
  }

  // ---------------------------------------------------------------------------
  // Raw touch input

  /** One `MotionEvent`, with pixel coordinates. `ancestorConsumed` is what
      `dispatchNestedPreScroll` reports for a move: `Some(k)` when an
      ancestor took `k` pixels of the refresh-axis delta, `None` when it
      returned false. */
  datatype Touch = Touch(action: MotionAction, x: int, y: int, ancestorConsumed: Option<int>)

  /** The delta a move feeds to the drag: the travel along the refresh axis
      since the last event, less what an ancestor consumed. */
  function MoveDelta(c: Layout, e: Touch): int
  {
    (if c.vertical then c.pointer.lastY - e.y else c.pointer.lastX - e.x)
    - (if e.ancestorConsumed.Some? then e.ancestorConsumed.value else 0)
  }

  /** A move from IDLE that has left the touch slop along the refresh axis. */
  predicate LeavesSlop(c: Layout, e: Touch)
  {
    c.state == StateIdle
    && (if c.vertical then Abs(c.pointer.pressedY - e.y) else Abs(c.pointer.pressedX - e.x)) > c.touchSlop
  }

  /** The start of a touch drag: the drag state of `delta`'s direction on the
      refresh axis, and the target of that side prepared. */
  function BeginDrag(c: Layout, delta: int): (r: Layout)
    ensures r == PrepareTarget(c.(state := r.state), delta < 0)
    ensures r.state == (if c.vertical then (if delta < 0 then StateDragFromTop else StateDragFromBottom)
                        else (if delta < 0 then StateDragFromLeft else StateDragFromRight))
  {
    var state := if c.vertical then (if delta < 0 then StateDragFromTop else StateDragFromBottom)
                 else (if delta < 0 then StateDragFromLeft else StateDragFromRight);
    PrepareTarget(c.(state := state), delta < 0)
  }

  /** The move part of `onTouchEvent` on the vertical axis: a move that
      leaves the slop from IDLE starts a drag and feeds its delta to
      `onNestedScroll` as unconsumed; a move while dragging from the top or
      bottom does the latter alone; any other move changes nothing. The
      content never moves (the vertical `onNestedScroll` uses the consumed
      delta, which is 0 here). */
  function TouchMoveVertical(c: Layout, e: Touch): (r: Layout)
    requires c.vertical
    ensures LeavesSlop(c, e) ==> r == NestedScroll(BeginDrag(c, MoveDelta(c, e)), 0, 0, 0, MoveDelta(c, e))
    ensures LeavesSlop(c, e) ==> r.state == (if MoveDelta(c, e) < 0 then StateDragFromTop else StateDragFromBottom)
    ensures !LeavesSlop(c, e) && (c.state == StateDragFromTop || c.state == StateDragFromBottom) ==>
      r == NestedScroll(c, 0, 0, 0, MoveDelta(c, e))
    ensures !LeavesSlop(c, e) && c.state != StateDragFromTop && c.state != StateDragFromBottom ==> r == c
    ensures SameWiring(c, r) && r.contentOffset == c.contentOffset && r.targetState == c.targetState
  {
    var c1 := if LeavesSlop(c, e) then BeginDrag(c, MoveDelta(c, e)) else c;
    if c1.state == StateDragFromTop || c1.state == StateDragFromBottom then NestedScroll(c1, 0, 0, 0, MoveDelta(c, e))
    else c1
  }

  /** The move part of `onTouchEvent` on the horizontal axis, the same
      steps with left and right; here the content moves by the damped delta. */
  function TouchMoveHorizontal(c: Layout, e: Touch): (r: Layout)
    requires !c.vertical
    ensures LeavesSlop(c, e) ==> r == NestedScroll(BeginDrag(c, MoveDelta(c, e)), 0, 0, MoveDelta(c, e), 0)
    ensures LeavesSlop(c, e) ==> r.state == (if MoveDelta(c, e) < 0 then StateDragFromLeft else StateDragFromRight)
    ensures !LeavesSlop(c, e) && (c.state == StateDragFromLeft || c.state == StateDragFromRight) ==>
      r == NestedScroll(c, 0, 0, MoveDelta(c, e), 0)
    ensures !LeavesSlop(c, e) && c.state != StateDragFromLeft && c.state != StateDragFromRight ==> r == c
    ensures LeavesSlop(c, e) || c.state == StateDragFromLeft || c.state == StateDragFromRight ==>
      r.contentOffset == c.contentOffset + ResolveOffset(MoveDelta(c, e))
    ensures SameWiring(c, r) && r.targetState == c.targetState
  {
    var c1 := if LeavesSlop(c, e) then BeginDrag(c, MoveDelta(c, e)) else c;
    if c1.state == StateDragFromLeft || c1.state == StateDragFromRight then NestedScroll(c1, 0, 0, MoveDelta(c, e), 0)
    else c1
  }

  /** `onTouchEvent`: a press records where it started; a move past the
      touch slop from idle starts a drag in the direction of the move, and a
      move while dragging is fed to `onNestedScroll` as unconsumed delta; a
      release, cancel or outside event ends the gesture like
      `onStopNestedScroll`. Every event records its position as the last one. */
  function TouchEvent(c: Layout, e: Touch): (r: Layout)
    ensures r.pointer.lastX == e.x && r.pointer.lastY == e.y
    ensures e.action == Down ==> r == c.(pointer := Pointer(e.x, e.y, e.x, e.y))
    ensures e.action in {Up, Cancel, Outside} ==> r == StopNestedScroll(c).(pointer := c.pointer.(lastX := e.x, lastY := e.y))
    ensures e.action == OtherAction ==> r == c.(pointer := c.pointer.(lastX := e.x, lastY := e.y))
    ensures e.action == Move && c.vertical ==>
      r == TouchMoveVertical(c, e).(pointer := c.pointer.(lastX := e.x, lastY := e.y))
    ensures e.action == Move && !c.vertical ==>
      r == TouchMoveHorizontal(c, e).(pointer := c.pointer.(lastX := e.x, lastY := e.y))
    ensures e.action == Move && c.vertical ==> r.contentOffset == c.contentOffset
  {
    var c1 :=
      match e.action
      case Down => c.(pointer := c.pointer.(pressedX := e.x, pressedY := e.y))
      case Move => if c.vertical then TouchMoveVertical(c, e) else TouchMoveHorizontal(c, e)
      case Up => StopNestedScroll(c)
      case Cancel => StopNestedScroll(c)
      case Outside => StopNestedScroll(c)
      case OtherAction => c;
    c1.(pointer := c1.pointer.(lastX := e.x, lastY := e.y))
  }
}
