# RefreshLayout refresh coordinator in Dafny

`RefreshLayout` is an Android container that holds a header, a content view
and a footer. When the user drags the content past its edge, the layout
reveals the header (or the footer). If the drag reaches the header's size
when released, the layout settles at that size and tells its listeners
that a refresh started. Later, `completeRefresh` brings the content back.

The header and footer are `Refreshable` targets. They are told:

- `onOffset` while the content moves;
- `onRelease(trigger)` when the gesture ends;
- `onReset` when the content is back at rest.

A target that is a *passive indicator* never starts a refresh itself.
A plain view gets a `ViewRefreshable` adapter.

The repository has two independent implementations of the coordinator,
`RefreshLayout.kt` and the older `RefreshLayout.java`. They are modelled
separately and never merged.

| layer | Kotlin | Java |
|---|---|---|
| pure specification: one function per entry point over a `Layout` record holding every field the coordinator reads or writes | `CoordinatorKt` | `CoordinatorJava` |
| class with the source's fields, one `method` per entry point; each method's `ensures` says its new state is the specification function applied to the old state | `RefreshLayoutKt.RefreshLayout` | `RefreshLayoutJava.RefreshLayout` |
| lemmas over whole sequences of calls | `PropertiesKt` | `PropertiesJava` |
| the code as written against the evidently intended code | `FindingsKt` | `FindingsJava` |
| default adapter | `ViewRefreshableKt` | `ViewRefreshableJava` |

`CallLog` holds the facts about call logs that both property layers use
(which kinds of call a stretch of log holds, how its slices line up).

`Animator` abstracts Android's `Scroller`. The clock and the interpolator
are an input: each `computeScroll` poll receives a `Frame` that is either
the eased value or "elapsed". On the elapsed poll the animator yields its
final value and finishes. That is an assumption about `Scroller`, which is
not part of this model.

How the model records what the source does:

- **Callbacks.** Every outgoing call is appended to a log (`Layout.log`, a
  ghost `log` field in the classes). Order and exactly-once properties are
  stated over that log.
- **States.** States are the source's integer codes, because `restore`
  copies any saved integer.
- **Identity.** Distinct views carry distinct `id`s, so value equality
  stands for the source's reference equality.
- **Listener answers.** A listener's decision to intercept
  `completeRefresh` is an argument.
- **The retained observable.** `notifyRefreshComplete` on it is
  `NotifyRefreshComplete`, the same step as `completeRefreshImmediately`.
- **Exceptions.** The Java `onStopNestedScroll` can throw a
  `NullPointerException`. The specification returns
  `Error("NullPointerException")` and the class method returns `thrown`.

Where the two versions differ, the model follows each file's code:

- **Java save.** Any last target that is not the header view itself saves
  as FOOTER, including the wrapper around the header. Restoring NONE keeps
  the current last target.
- **Kotlin save.** Targets are compared with `==`. An absent last target
  therefore saves as HEADER when there is no header. A wrapper saves as NONE.
- **Java `addView`.** It never clears a `Refreshable` slot. A plain header
  therefore leaves the previous header's implementation in the slot.
- **Kotlin internal listener.** `mInternalOnRefreshListener` is declared but
  never assigned, so the Kotlin model has no setter for it. It is proved
  never to be called.

In both versions `animateContentToPosition` does nothing when the content
is already at the goal. A triggering release, or a `setRefresh`, whose
offset already equals the signed size therefore starts no settle, and no
frame completes into REFRESHING: the release leaves the drag state in
place with REFRESHING as a target state that is never reached, and
`setRefresh` enters REFRESHING without any `onRefreshStart` call. The
model keeps this behaviour and states it in the `...AtGoal...` and
`PullToExactSizeStalls` lemmas.

## Model

| member | source | states |
|---|---|---|
| Base.HalfTowardZero | library/src/main/java/ke/tang/refresh/RefreshLayout.kt:525 | half the delta with the remainder dropped toward zero (`(n * 0.5f).toInt()`), for both signs |
| Animator.NewScroller | library/src/main/java/ke/tang/refresh/RefreshLayout.kt:20 | a new animator is finished |
| Animator.StartScroll | library/src/main/java/ke/tang/refresh/RefreshLayout.kt:553-560 | a started animator runs from the start value to start plus delta |
| Animator.AbortAnimation | library/src/main/java/ke/tang/refresh/RefreshLayout.kt:553-558 | an aborted animator is finished at its final value, same segment |
| Animator.ComputeScrollOffset | library/src/main/java/ke/tang/refresh/RefreshLayout.kt:478-494 | a poll reports running exactly when the animator was not finished; the value advances to the frame's value, or to the goal (finishing) once the time is up |
| ViewRefreshableKt.IsIndicator | library/src/main/java/ke/tang/refresh/ViewRefreshable.kt:7 | the adapter is never a passive indicator |
| ViewRefreshableKt.OnOffset | library/src/main/java/ke/tang/refresh/ViewRefreshable.kt:9-10 | no observable effect |
| ViewRefreshableKt.OnRelease | library/src/main/java/ke/tang/refresh/ViewRefreshable.kt:12-13 | no observable effect |
| ViewRefreshableKt.OnReset | library/src/main/java/ke/tang/refresh/ViewRefreshable.kt:15-16 | no observable effect |
| ViewRefreshableKt.ContentSize | library/src/main/java/ke/tang/refresh/ViewRefreshable.kt:18-22 | height plus top and bottom margins on the vertical axis, width plus left and right margins on the horizontal one |
| ViewRefreshableJava.IsIndicator | library/src/main/java/ke/tang/refresh/ViewRefreshable.java:12-15 | never a passive indicator |
| ViewRefreshableJava.OnOffset | library/src/main/java/ke/tang/refresh/ViewRefreshable.java:17-20 | no observable effect |
| ViewRefreshableJava.OnRelease | library/src/main/java/ke/tang/refresh/ViewRefreshable.java:22-25 | no observable effect |
| ViewRefreshableJava.OnReset | library/src/main/java/ke/tang/refresh/ViewRefreshable.java:27-30 | no observable effect |
| ViewRefreshableJava.ContentSize | library/src/main/java/ke/tang/refresh/ViewRefreshable.java:32-35 | exactly the height of the view fixed at construction, no margins |
| CoordinatorKt.AsRefreshable | library/src/main/java/ke/tang/refresh/RefreshLayout.kt:264-279 | a child is its own target exactly when it implements the capability |
| CoordinatorKt.Initial | library/src/main/java/ke/tang/refresh/RefreshLayout.kt:20-51 | a new layout is idle at offset 0 with no header, content or footer, empty Refreshable slots, no targets, none of the three listeners and a finished animator |
| CoordinatorKt.ResolveOffset | library/src/main/java/ke/tang/refresh/RefreshLayout.kt:525 | damping: twice the result is within one of the delta, same sign, 0 for deltas of magnitude at most 1 |
| CoordinatorKt.OffsetContent | library/src/main/java/ke/tang/refresh/RefreshLayout.kt:496-509 | the offset becomes the argument, the last target and the state listener are told, nothing else changes |
| CoordinatorKt.PrepareTarget | library/src/main/java/ke/tang/refresh/RefreshLayout.kt:511-523 | an existing target is never replaced; an empty one (and the last target with it) becomes the side's own Refreshable, else a wrapper of the side's view, else null |
| CoordinatorKt.AnimateContentToPosition | library/src/main/java/ke/tang/refresh/RefreshLayout.kt:553-560 | a goal equal to the offset changes nothing; otherwise SETTLE with the animator running from the offset to the goal |
| CoordinatorKt.AnimateResetContent | library/src/main/java/ke/tang/refresh/RefreshLayout.kt:547-551 | the target is cleared, IDLE becomes the target state, a settle toward 0 starts unless already there; the log is unchanged |
| CoordinatorKt.StartNestedScroll | library/src/main/java/ke/tang/refresh/RefreshLayout.kt:339-340 | accepted exactly for the content child scrolling along the refresh axis |
| CoordinatorKt.NestedScroll | library/src/main/java/ke/tang/refresh/RefreshLayout.kt:370-393 | a zero unconsumed delta on the refresh axis changes nothing; otherwise the animator stops, the drag state takes the delta's sign, target and last target are those `prepareTarget` gives for that side, the offset moves by the damped `dyConsumed` (vertical) or `dxUnconsumed` (horizontal), and the log gains exactly the `onOffset`/`onContentOffset` calls for the new offset |
| CoordinatorKt.NestedPreScroll | library/src/main/java/ke/tang/refresh/RefreshLayout.kt:395-407 | in a drag state (codes 1 to 4) the damped refresh-axis delta is added with no sign check; in every other state nothing changes |
| CoordinatorKt.PreScrollConsumed | library/src/main/java/ke/tang/refresh/RefreshLayout.kt:395-407 | in codes 1 to 6 the refresh-axis entry becomes the whole delta and the other is kept; in IDLE `consumed` is untouched |
| CoordinatorKt.ClaimsFling | library/src/main/java/ke/tang/refresh/RefreshLayout.kt:409-417 | a fling is claimed exactly in codes 1 to 6 |
| CoordinatorKt.StopNestedScroll | library/src/main/java/ke/tang/refresh/RefreshLayout.kt:346-367 | no-op in REFRESHING and SETTLE; it triggers exactly for a sized target that is not an indicator with offset at least the last target's size, inclusive: `onRelease(true)`, REFRESHING as target state, a settle to the size on the offset's side (none, and the state unchanged, when the offset is already there); otherwise a reset, with `onRelease(false)` only for a sized target |
| CoordinatorKt.ComputeScroll | library/src/main/java/ke/tang/refresh/RefreshLayout.kt:478-494 | outside SETTLE nothing happens; a running animator moves the content to its value; a finished one makes the target state the state, tells `onReset` (IDLE) or internal then public `onRefreshStart(offset < 0)` (REFRESHING), and sets the target state back to IDLE |
| CoordinatorKt.CompleteRefreshImmediately | library/src/main/java/ke/tang/refresh/RefreshLayout.kt:527-531 | resets from codes 1 to 5 only, never from IDLE or SETTLE |
| CoordinatorKt.CompleteRefresh | library/src/main/java/ke/tang/refresh/RefreshLayout.kt:536-545 | the internal listener is offered first, the public one only when the internal did not intercept; with an interception only the offers are made, without one the content resets |
| CoordinatorKt.SetRefresh | library/src/main/java/ke/tang/refresh/RefreshLayout.kt:565-581 | ignored while REFRESHING; otherwise target and last target are those `PrepareTarget` picks, and a prepared target that is not an indicator enters REFRESHING, is told `onRelease(true)` and settles to minus (header) or plus (footer) its size; otherwise only the target is prepared and state and offset stay |
| CoordinatorKt.SetRefreshListener | library/src/main/java/ke/tang/refresh/RefreshLayout.kt:583-585 | only the public listener's presence changes |
| CoordinatorKt.SetStateChangeListener | library/src/main/java/ke/tang/refresh/RefreshLayout.kt:587-589 | only the state listener's presence changes |
| CoordinatorKt.ViewAdded | library/src/main/java/ke/tang/refresh/RefreshLayout.kt:264-279 | the child fills its role's slot; header and footer also fill the Refreshable slot with their own implementation or null; other roles change nothing |
| CoordinatorKt.ViewRemoved | library/src/main/java/ke/tang/refresh/RefreshLayout.kt:281-296 | the role's slots are cleared; the targets stay |
| CoordinatorKt.LayoutParamsFromAttributes | library/src/main/java/ke/tang/refresh/RefreshLayout.kt:669-678 | accepted exactly for roles 1 to 3, keeping role and gravity |
| CoordinatorKt.Save | library/src/main/java/ke/tang/refresh/RefreshLayout.kt:591-600 | state and offset are copied; HEADER exactly when the last target is the header view (nulls compare equal), FOOTER for the footer view, a wrapper saves NONE |
| CoordinatorKt.Restore | library/src/main/java/ke/tang/refresh/RefreshLayout.kt:602-615 | state and offset are taken; HEADER and FOOTER select the Refreshable slots, others null; the re-applied offset is told to the restored last target and the state listener, and nothing else is logged; REFRESHING with no target prepares the offset's side |
| CoordinatorKt.TouchEvent | library/src/main/java/ke/tang/refresh/RefreshLayout.kt:423-476 | a press records its position; a move is the axis's move step; a release, cancel or outside event is `onStopNestedScroll`; every event becomes the last position; a vertical move never changes the offset |
| CoordinatorKt.TouchMoveVertical | library/src/main/java/ke/tang/refresh/RefreshLayout.kt:433-450 | a move that leaves the slop from IDLE starts the drag of its direction with the target prepared and feeds the travel to `onNestedScroll` as unconsumed delta; a move while dragging from top or bottom does the latter alone; any other move changes nothing; the offset never moves |
| CoordinatorKt.TouchMoveHorizontal | library/src/main/java/ke/tang/refresh/RefreshLayout.kt:451-466 | the same steps with left and right, and the offset moves by the damped travel whenever a drag is started or continued |
| RefreshLayoutKt.RefreshLayout.constructor | library/src/main/java/ke/tang/refresh/RefreshLayout.kt:20-58 | the fields are the initial layout |
| RefreshLayoutKt.RefreshLayout.OnViewAdded | library/src/main/java/ke/tang/refresh/RefreshLayout.kt:264-279 | the fields become `CoordinatorKt.ViewAdded` of the old ones |
| RefreshLayoutKt.RefreshLayout.OnViewRemoved | library/src/main/java/ke/tang/refresh/RefreshLayout.kt:281-296 | the fields become `CoordinatorKt.ViewRemoved` of the old ones |
| RefreshLayoutKt.RefreshLayout.OffsetContent | library/src/main/java/ke/tang/refresh/RefreshLayout.kt:496-509 | the fields become `CoordinatorKt.OffsetContent` of the old ones |
| RefreshLayoutKt.RefreshLayout.PrepareTarget | library/src/main/java/ke/tang/refresh/RefreshLayout.kt:511-523 | the fields become `CoordinatorKt.PrepareTarget` of the old ones |
| RefreshLayoutKt.RefreshLayout.AnimateContentToPosition | library/src/main/java/ke/tang/refresh/RefreshLayout.kt:553-560 | the fields become `CoordinatorKt.AnimateContentToPosition` of the old ones |
| RefreshLayoutKt.RefreshLayout.AnimateResetContent | library/src/main/java/ke/tang/refresh/RefreshLayout.kt:547-551 | the fields become `CoordinatorKt.AnimateResetContent` of the old ones |
| RefreshLayoutKt.RefreshLayout.CompleteRefreshImmediately | library/src/main/java/ke/tang/refresh/RefreshLayout.kt:527-531 | the fields become `CoordinatorKt.CompleteRefreshImmediately` of the old ones |
| RefreshLayoutKt.RefreshLayout.OnStartNestedScroll | library/src/main/java/ke/tang/refresh/RefreshLayout.kt:339-340 | answers `CoordinatorKt.StartNestedScroll` and changes nothing |
| RefreshLayoutKt.RefreshLayout.OnStopNestedScroll | library/src/main/java/ke/tang/refresh/RefreshLayout.kt:346-367 | the fields become `CoordinatorKt.StopNestedScroll` of the old ones |
| RefreshLayoutKt.RefreshLayout.OnNestedScroll | library/src/main/java/ke/tang/refresh/RefreshLayout.kt:370-393 | the fields become `CoordinatorKt.NestedScroll` of the old ones |
| RefreshLayoutKt.RefreshLayout.OnNestedPreScroll | library/src/main/java/ke/tang/refresh/RefreshLayout.kt:395-407 | the fields become `CoordinatorKt.NestedPreScroll` of the old ones and the `consumed` array `CoordinatorKt.PreScrollConsumed` of its old contents |
| RefreshLayoutKt.RefreshLayout.OnNestedFling | library/src/main/java/ke/tang/refresh/RefreshLayout.kt:409-414 | answers `CoordinatorKt.ClaimsFling` |
| RefreshLayoutKt.RefreshLayout.OnNestedPreFling | library/src/main/java/ke/tang/refresh/RefreshLayout.kt:416-417 | answers `CoordinatorKt.ClaimsFling` |
| RefreshLayoutKt.RefreshLayout.TouchMoveVertical | library/src/main/java/ke/tang/refresh/RefreshLayout.kt:433-450 | the fields become the vertical move step of `onTouchEvent` applied to the old ones |
| RefreshLayoutKt.RefreshLayout.TouchMoveHorizontal | library/src/main/java/ke/tang/refresh/RefreshLayout.kt:451-466 | the fields become the horizontal move step applied to the old ones |
| RefreshLayoutKt.RefreshLayout.OnTouchEvent | library/src/main/java/ke/tang/refresh/RefreshLayout.kt:423-476 | always handled; the fields become `CoordinatorKt.TouchEvent` of the old ones |
| RefreshLayoutKt.RefreshLayout.ComputeScroll | library/src/main/java/ke/tang/refresh/RefreshLayout.kt:478-494 | the fields become `CoordinatorKt.ComputeScroll` of the old ones |
| RefreshLayoutKt.RefreshLayout.CompleteRefresh | library/src/main/java/ke/tang/refresh/RefreshLayout.kt:536-545 | the fields become `CoordinatorKt.CompleteRefresh` of the old ones |
| RefreshLayoutKt.RefreshLayout.NotifyRefreshComplete | library/src/main/java/ke/tang/refresh/RefreshLayout.kt:47 | the retained observable's notification runs `completeRefreshImmediately` |
| RefreshLayoutKt.RefreshLayout.SetRefresh | library/src/main/java/ke/tang/refresh/RefreshLayout.kt:565-581 | the fields become `CoordinatorKt.SetRefresh` of the old ones |
| RefreshLayoutKt.RefreshLayout.SetOnRefreshListener | library/src/main/java/ke/tang/refresh/RefreshLayout.kt:583-585 | the fields become `CoordinatorKt.SetRefreshListener` of the old ones |
| RefreshLayoutKt.RefreshLayout.SetOnRefreshStateChangeListener | library/src/main/java/ke/tang/refresh/RefreshLayout.kt:587-589 | the fields become `CoordinatorKt.SetStateChangeListener` of the old ones |
| RefreshLayoutKt.RefreshLayout.OnSaveInstanceState | library/src/main/java/ke/tang/refresh/RefreshLayout.kt:591-600 | returns `CoordinatorKt.Save` of the fields and changes nothing |
| RefreshLayoutKt.RefreshLayout.OnRestoreInstanceState | library/src/main/java/ke/tang/refresh/RefreshLayout.kt:602-615 | the fields become `CoordinatorKt.Restore` of the old ones |
| PropertiesKt.TicksAppend | library/src/main/java/ke/tang/refresh/RefreshLayout.kt:478-494 | polling over two runs of frames is polling over their concatenation |
| PropertiesKt.SettleFollowsFrames | library/src/main/java/ke/tang/refresh/RefreshLayout.kt:478-494 | while the animator runs, the state stays SETTLE, targets and goal stay, the offset is the last frame's value and only offset calls are logged |
| PropertiesKt.TwoElapsed | library/src/main/java/ke/tang/refresh/RefreshLayout.kt:478-494 | the elapsed frame moves the content to the goal and the following poll completes into the target state with the completion calls |
| PropertiesKt.SettleCompletes | library/src/main/java/ke/tang/refresh/RefreshLayout.kt:478-494 | every settle ends at the animator's goal in the target state, target state reset to IDLE, with the completion calls made once after nothing but offset calls |
| PropertiesKt.TicksOutsideSettle | library/src/main/java/ke/tang/refresh/RefreshLayout.kt:478-494 | after a completed settle further frames change nothing, so completion calls are not repeated |
| PropertiesKt.ReleaseStartsRefresh | library/src/main/java/ke/tang/refresh/RefreshLayout.kt:346-367 | a triggering release whose offset is not already at the goal ends, after the settle, in REFRESHING at the last target's size on the offset's side with `onRefreshStart` of that side told to each listener; at the goal no refresh starts (`PropertiesKt.ReleaseAtGoalStalls`) |
| PropertiesKt.ReleaseAtGoalStalls | library/src/main/java/ke/tang/refresh/RefreshLayout.kt:346-367 | a triggering release with the offset already at the goal tells `onRelease(true)` and sets REFRESHING as target state, yet keeps the drag state, and no later frame changes anything, so REFRESHING and `onRefreshStart` never follow |
| PropertiesKt.ShortReleaseResets | library/src/main/java/ke/tang/refresh/RefreshLayout.kt:346-367 | a release short of the threshold ends in IDLE at 0 with the target cleared and `onReset` told to the last target |
| PropertiesKt.DeferredCompletion | library/src/main/java/ke/tang/refresh/RefreshLayout.kt:527-545 | an intercepted completion only makes the offers; the observable's notification then resets to IDLE at 0 with `onReset` |
| PropertiesKt.UninterceptedCompletionResets | library/src/main/java/ke/tang/refresh/RefreshLayout.kt:536-545 | without an interception a completion from REFRESHING starts the settle to 0 at once |
| PropertiesKt.InternalListenerNeverCalled | library/src/main/java/ke/tang/refresh/RefreshLayout.kt:50 | over any sequence of calls the internal listener, never assigned, is never told anything |
| PropertiesKt.IndicatorsNeverRefresh | library/src/main/java/ke/tang/refresh/RefreshLayout.kt:346-367 | with passive indicators as header and footer, no sequence of gestures, frames, completions or `setRefresh` calls reaches REFRESHING or tells `onRefreshStart` |
| PropertiesKt.ChildrenStayConsistent | library/src/main/java/ke/tang/refresh/RefreshLayout.kt:264-296 | adding and removing children keeps each Refreshable slot equal to what its view provides |
| PropertiesKt.SaveRestoreRoundTrip | library/src/main/java/ke/tang/refresh/RefreshLayout.kt:591-615 | saving and restoring gives back state, offset and a slot-held (or absent) last target |
| PropertiesKt.WrappedTargetIsForgotten | library/src/main/java/ke/tang/refresh/RefreshLayout.kt:591-615 | a wrapper saves as NONE and restores as no last target |
| PropertiesKt.SetRefreshStartsRefresh | library/src/main/java/ke/tang/refresh/RefreshLayout.kt:565-581 | `setRefresh` with a taking-part target, away from the goal, ends in REFRESHING at the signed size with `onRefreshStart(fromHeader)` told, after which `setRefresh` is a no-op; at the goal no `onRefreshStart` is made (`PropertiesKt.SetRefreshAtGoalStartsNothing`) |
| PropertiesKt.SetRefreshAtGoalStartsNothing | library/src/main/java/ke/tang/refresh/RefreshLayout.kt:565-581 | `setRefresh` with the offset already at the signed size enters REFRESHING with `onRelease(true)` only, and no frame then makes the `onRefreshStart` calls |
| PropertiesKt.ActivationIsInclusive | library/src/main/java/ke/tang/refresh/RefreshLayout.kt:346-367 | an offset of exactly the size on either side triggers, one pixel less does not |
| PropertiesKt.PreScrollCrossesZero | library/src/main/java/ke/tang/refresh/RefreshLayout.kt:395-407 | no zero-crossing check: a top drag at -2 pushed back by 10 is at 3, still dragging from the top |
| PropertiesKt.PulledState | library/src/main/java/ke/tang/refresh/RefreshLayout.kt:370-407 | a nested scroll at the top edge then a 200-pixel pre-scroll drags from the top at -100 with the wrapped header as target |
| PropertiesKt.PullRefreshesShortHeader | library/src/main/java/ke/tang/refresh/RefreshLayout.kt:346-367 | that pull refreshes an 80-pixel header at -80 with `onRefreshStart(true)` |
| PropertiesKt.PullFallsShortOfTallHeader | library/src/main/java/ke/tang/refresh/RefreshLayout.kt:346-367 | that pull falls short of a 150-pixel header: `onRelease(false)`, then `onReset` at 0 |
| PropertiesKt.PullToExactSizeStalls | library/src/main/java/ke/tang/refresh/RefreshLayout.kt:346-367 | the 100-pixel pull released with a 100-pixel header stays dragging from the top at -100 after two frames, with only `onRelease(true)` logged |
| PropertiesKt.HorizontalTouchPullMovesContent | library/src/main/java/ke/tang/refresh/RefreshLayout.kt:451-466 | on the horizontal axis a press at x 0 and a move to x 300 drag from the left at -150 with the wrapped header as target |
| PropertiesKt.ActivationDistancePlain | library/src/main/java/ke/tang/refresh/ViewRefreshable.kt:18-19 | a wrapped plain header without margins activates at its height |
| CoordinatorJava.Initial | library/src/main/java/ke/tang/refresh/RefreshLayout.java:41-66 | a new layout is idle at 0 with no header, content or footer, empty Refreshable slots, no targets, none of the three listeners and a finished animator |
| CoordinatorJava.FixedOffset | library/src/main/java/ke/tang/refresh/RefreshLayout.java:353-365 | `(int) (offset + delta * 0.5f)`: the sum truncated toward zero as a whole |
| CoordinatorJava.OffsetContent | library/src/main/java/ke/tang/refresh/RefreshLayout.java:552-563 | the offset becomes the argument, the last target and the state listener are told, nothing else changes |
| CoordinatorJava.PrepareTarget | library/src/main/java/ke/tang/refresh/RefreshLayout.java:519-529 | an existing target is never replaced; an empty one (and the last target) becomes the side's Refreshable, else a wrapper, else null; a last target implies a target |
| CoordinatorJava.AnimateContentToPosition | library/src/main/java/ke/tang/refresh/RefreshLayout.java:543-550 | a goal equal to the offset changes nothing; otherwise SETTLE with the animator from offset to goal |
| CoordinatorJava.AnimateResetContent | library/src/main/java/ke/tang/refresh/RefreshLayout.java:537-541 | the target is cleared, IDLE becomes the target state and a settle toward 0 starts unless at 0 |
| CoordinatorJava.StartNestedScroll | library/src/main/java/ke/tang/refresh/RefreshLayout.java:315-318 | accepted exactly for a vertical nested scroll of the content child |
| CoordinatorJava.NestedScroll | library/src/main/java/ke/tang/refresh/RefreshLayout.java:353-365 | a zero `dyUnconsumed` changes nothing; otherwise the animator stops, the drag side takes its sign, target and last target are those `prepareTarget` gives, the offset is the fixed offset of `dyUnconsumed`, and the log gains exactly the offset calls for it; the consumed deltas play no part |
| CoordinatorJava.NestedPreScroll | library/src/main/java/ke/tang/refresh/RefreshLayout.java:368-393 | a drag that would cross 0 goes to 0 and IDLE; any other drag step moves to the fixed offset; so a drag never changes side; other states change nothing |
| CoordinatorJava.PreScrollConsumed | library/src/main/java/ke/tang/refresh/RefreshLayout.java:368-393 | `consumed[1]` becomes `dy` in REFRESHING, SETTLE and a non-crossing drag step, otherwise it stays; `consumed[0]` is never written |
| CoordinatorJava.ClaimsFling | library/src/main/java/ke/tang/refresh/RefreshLayout.java:395-403 | claimed exactly in states 1 to 4 |
| CoordinatorJava.StopNestedScroll | library/src/main/java/ke/tang/refresh/RefreshLayout.java:325-350 | throws exactly when a sized target meets no last target; no-op in REFRESHING and SETTLE; at or past the last target's size `onRelease(true)`, then REFRESHING as target state and a settle to the size for a non-indicator (the state unchanged when the offset is already there) or a reset for an indicator; short of it `onRelease(false)` and a reset; without a sized target a reset |
| CoordinatorJava.ComputeScroll | library/src/main/java/ke/tang/refresh/RefreshLayout.java:450-475 | as in the Kotlin layout: outside SETTLE nothing; a running animator moves the content; a finished one completes into the target state with `onReset` or internal then public `onRefreshStart(offset < 0)` and resets the target state |
| CoordinatorJava.CompleteRefreshImmediately | library/src/main/java/ke/tang/refresh/RefreshLayout.java:531-535 | resets only from REFRESHING or a drag |
| CoordinatorJava.CompleteRefresh | library/src/main/java/ke/tang/refresh/RefreshLayout.java:484-499 | internal listener first, public one only without internal interception; reset only without interception |
| CoordinatorJava.SetRefresh | library/src/main/java/ke/tang/refresh/RefreshLayout.java:506-517 | ignored while REFRESHING; otherwise REFRESHING becomes the target state and target and last target are those `PrepareTarget` picks; a last target that is not an indicator enters REFRESHING with `onRelease(true)` and a settle to minus or plus the size; without one the result is exactly the prepared layout in SETTLE, so animator and log stay as they were |
| CoordinatorJava.SetRefreshListener | library/src/main/java/ke/tang/refresh/RefreshLayout.java:574-576 | only the public listener's presence changes |
| CoordinatorJava.SetStateChangeListener | library/src/main/java/ke/tang/refresh/RefreshLayout.java:583-585 | only the state listener's presence changes |
| CoordinatorJava.SetInternalRefreshListener | library/src/main/java/ke/tang/refresh/RefreshLayout.java:593-595 | only the internal listener's presence changes |
| CoordinatorJava.ViewAdded | library/src/main/java/ke/tang/refresh/RefreshLayout.java:136-157 | the child fills its role's slot; a header or footer with the capability fills the Refreshable slot, one without leaves it as it was |
| CoordinatorJava.Save | library/src/main/java/ke/tang/refresh/RefreshLayout.java:628-635 | state and offset copied; NONE exactly for no last target, HEADER exactly for the header view itself, FOOTER for everything else |
| CoordinatorJava.Restore | library/src/main/java/ke/tang/refresh/RefreshLayout.java:607-626 | state and offset taken; HEADER and FOOTER select the slots, other codes keep the last target; the re-applied offset is told to that last target and the state listener, and nothing else is logged; REFRESHING with no target prepares the offset's side |
| CoordinatorJava.TouchMove | library/src/main/java/ke/tang/refresh/RefreshLayout.java:419-435 | a move that leaves the slop from IDLE starts the drag of its direction with the target prepared and is then `onNestedScroll` with the travel less what an ancestor consumed as unconsumed delta; a move while dragging is the latter alone; any other move changes nothing |
| CoordinatorJava.TouchEvent | library/src/main/java/ke/tang/refresh/RefreshLayout.java:410-447 | throws exactly when a release path meets the stop exception, and otherwise a release is `onStopNestedScroll`; a press records its position; a move is `TouchMove`; a dragging move moves the content to the fixed offset of the travel; every event becomes the last position |
| RefreshLayoutJava.RefreshLayout.constructor | library/src/main/java/ke/tang/refresh/RefreshLayout.java:41-85 | the fields are the initial layout |
| RefreshLayoutJava.RefreshLayout.AddView | library/src/main/java/ke/tang/refresh/RefreshLayout.java:136-157 | the fields become `CoordinatorJava.ViewAdded` of the old ones |
| RefreshLayoutJava.RefreshLayout.OffsetContent | library/src/main/java/ke/tang/refresh/RefreshLayout.java:552-563 | the fields become `CoordinatorJava.OffsetContent` of the old ones |
| RefreshLayoutJava.RefreshLayout.PrepareTarget | library/src/main/java/ke/tang/refresh/RefreshLayout.java:519-529 | the fields become `CoordinatorJava.PrepareTarget` of the old ones |
| RefreshLayoutJava.RefreshLayout.AnimateContentToPosition | library/src/main/java/ke/tang/refresh/RefreshLayout.java:543-550 | the fields become `CoordinatorJava.AnimateContentToPosition` of the old ones |
| RefreshLayoutJava.RefreshLayout.AnimateResetContent | library/src/main/java/ke/tang/refresh/RefreshLayout.java:537-541 | the fields become `CoordinatorJava.AnimateResetContent` of the old ones |
| RefreshLayoutJava.RefreshLayout.CompleteRefreshImmediately | library/src/main/java/ke/tang/refresh/RefreshLayout.java:531-535 | the fields become `CoordinatorJava.CompleteRefreshImmediately` of the old ones |
| RefreshLayoutJava.RefreshLayout.OnStartNestedScroll | library/src/main/java/ke/tang/refresh/RefreshLayout.java:315-318 | answers `CoordinatorJava.StartNestedScroll` |
| RefreshLayoutJava.RefreshLayout.OnStopNestedScroll | library/src/main/java/ke/tang/refresh/RefreshLayout.java:325-350 | throws exactly when `CoordinatorJava.StopThrows`, then leaving the fields as they were; otherwise the fields become the specification's result |
| RefreshLayoutJava.RefreshLayout.OnNestedScroll | library/src/main/java/ke/tang/refresh/RefreshLayout.java:353-365 | the fields become `CoordinatorJava.NestedScroll` of the old ones |
| RefreshLayoutJava.RefreshLayout.OnNestedPreScroll | library/src/main/java/ke/tang/refresh/RefreshLayout.java:368-393 | the fields become `CoordinatorJava.NestedPreScroll` of the old ones and `consumed` becomes `CoordinatorJava.PreScrollConsumed` of its old contents |
| RefreshLayoutJava.RefreshLayout.OnNestedFling | library/src/main/java/ke/tang/refresh/RefreshLayout.java:395-398 | answers `CoordinatorJava.ClaimsFling` |
| RefreshLayoutJava.RefreshLayout.OnNestedPreFling | library/src/main/java/ke/tang/refresh/RefreshLayout.java:400-403 | answers `CoordinatorJava.ClaimsFling` |
| RefreshLayoutJava.RefreshLayout.TouchMove | library/src/main/java/ke/tang/refresh/RefreshLayout.java:419-435 | the fields become `CoordinatorJava.TouchMove` of the old ones |
| RefreshLayoutJava.RefreshLayout.OnTouchEvent | library/src/main/java/ke/tang/refresh/RefreshLayout.java:410-447 | `CoordinatorJava.TouchEvent` of the old fields is the exception when thrown, the new fields otherwise |
| RefreshLayoutJava.RefreshLayout.ComputeScroll | library/src/main/java/ke/tang/refresh/RefreshLayout.java:450-475 | the fields become `CoordinatorJava.ComputeScroll` of the old ones |
| RefreshLayoutJava.RefreshLayout.CompleteRefresh | library/src/main/java/ke/tang/refresh/RefreshLayout.java:484-499 | the fields become `CoordinatorJava.CompleteRefresh` of the old ones |
| RefreshLayoutJava.RefreshLayout.NotifyRefreshComplete | library/src/main/java/ke/tang/refresh/RefreshLayout.java:70-75 | the retained observable's notification runs `completeRefreshImmediately` |
| RefreshLayoutJava.RefreshLayout.SetRefresh | library/src/main/java/ke/tang/refresh/RefreshLayout.java:506-517 | the fields become `CoordinatorJava.SetRefresh` of the old ones |
| RefreshLayoutJava.RefreshLayout.SetOnRefreshListener | library/src/main/java/ke/tang/refresh/RefreshLayout.java:574-576 | the fields become `CoordinatorJava.SetRefreshListener` of the old ones |
| RefreshLayoutJava.RefreshLayout.SetOnRefreshStateChangeListener | library/src/main/java/ke/tang/refresh/RefreshLayout.java:583-585 | the fields become `CoordinatorJava.SetStateChangeListener` of the old ones |
| RefreshLayoutJava.RefreshLayout.SetInternalOnRefreshListener | library/src/main/java/ke/tang/refresh/RefreshLayout.java:593-595 | the fields become `CoordinatorJava.SetInternalRefreshListener` of the old ones |
| RefreshLayoutJava.RefreshLayout.OnSaveInstanceState | library/src/main/java/ke/tang/refresh/RefreshLayout.java:628-635 | returns `CoordinatorJava.Save` of the fields |
| RefreshLayoutJava.RefreshLayout.OnRestoreInstanceState | library/src/main/java/ke/tang/refresh/RefreshLayout.java:607-626 | the fields become `CoordinatorJava.Restore` of the old ones |
| PropertiesJava.TicksAppend | library/src/main/java/ke/tang/refresh/RefreshLayout.java:450-475 | polling over two runs of frames is polling over their concatenation |
| PropertiesJava.SettleFollowsFrames | library/src/main/java/ke/tang/refresh/RefreshLayout.java:450-475 | while the animator runs the state stays SETTLE and the offset follows the frames, with only offset calls |
| PropertiesJava.TwoElapsed | library/src/main/java/ke/tang/refresh/RefreshLayout.java:450-475 | the elapsed frame reaches the goal, the next poll completes |
| PropertiesJava.SettleCompletes | library/src/main/java/ke/tang/refresh/RefreshLayout.java:450-475 | every settle ends at the goal in the target state with the completion calls made once |
| PropertiesJava.TicksOutsideSettle | library/src/main/java/ke/tang/refresh/RefreshLayout.java:450-475 | once out of SETTLE frames change nothing |
| PropertiesJava.ReleaseStartsRefresh | library/src/main/java/ke/tang/refresh/RefreshLayout.java:325-350 | a triggering release whose offset is not already at the goal ends in REFRESHING at the last target's size on the offset's side with `onRefreshStart` of that side; at the goal no refresh starts (`PropertiesJava.ReleaseAtGoalStalls`) |
| PropertiesJava.ReleaseAtGoalStalls | library/src/main/java/ke/tang/refresh/RefreshLayout.java:325-350 | a triggering release with the offset already at the goal tells `onRelease(true)` and sets REFRESHING as target state, yet keeps the drag state, and no later frame changes anything |
| PropertiesJava.SetRefreshAtGoalStartsNothing | library/src/main/java/ke/tang/refresh/RefreshLayout.java:506-517 | `setRefresh` with a taking-part last target and the offset already at the signed size enters REFRESHING with `onRelease(true)` only, and no frame then makes the `onRefreshStart` calls |
| PropertiesJava.IndicatorReleaseResets | library/src/main/java/ke/tang/refresh/RefreshLayout.java:325-350 | an indicator released past its size hears `onRelease(true)` and then `onReset` at 0; no refresh |
| PropertiesJava.ShortReleaseResets | library/src/main/java/ke/tang/refresh/RefreshLayout.java:325-350 | a short release: `onRelease(false)`, then `onReset` at 0 |
| PropertiesJava.DragFromTopStaysAbove | library/src/main/java/ke/tang/refresh/RefreshLayout.java:368-393 | over any sequence of pre-scrolls a drag from the top keeps its offset at or below 0 and either goes on or ends in IDLE |
| PropertiesJava.DragFromBottomStaysBelow | library/src/main/java/ke/tang/refresh/RefreshLayout.java:368-393 | the same for a drag from the bottom, at or above 0 |
| PropertiesJava.PreScrollsWhenIdle | library/src/main/java/ke/tang/refresh/RefreshLayout.java:368-393 | once IDLE, pre-scrolls change nothing |
| PropertiesJava.PreScrollStopsAtZero | library/src/main/java/ke/tang/refresh/RefreshLayout.java:368-393 | a top drag at -2 pushed back by 10 stops at 0 in IDLE and consumes nothing |
| PropertiesJava.TouchKeepsPaired | library/src/main/java/ke/tang/refresh/RefreshLayout.java:410-447 | while the targets are paired a touch event never throws and keeps them paired |
| PropertiesJava.StepKeepsPaired | library/src/main/java/ke/tang/refresh/RefreshLayout.java:519-529 | every call but a restore keeps "a target implies a last target" and does not throw |
| PropertiesJava.NoExceptionWithoutRestore | library/src/main/java/ke/tang/refresh/RefreshLayout.java:325-350 | no sequence of calls without a restore throws |
| PropertiesJava.RestoreSetsUpException | library/src/main/java/ke/tang/refresh/RefreshLayout.java:607-626 | restoring HEADER in a drag with a plain header clears the last target and the next release throws |
| PropertiesJava.IndicatorsNeverRefresh | library/src/main/java/ke/tang/refresh/RefreshLayout.java:325-350 | with passive indicators, gestures, frames and completions never reach REFRESHING or tell `onRefreshStart` |
| PropertiesJava.PlainHeaderKeepsStaleSlot | library/src/main/java/ke/tang/refresh/RefreshLayout.java:150-155 | adding a plain header keeps the previous header's Refreshable in the slot |
| PropertiesJava.SaveRestoreRoundTrip | library/src/main/java/ke/tang/refresh/RefreshLayout.java:607-635 | saving and restoring gives back state, offset and a slot-held last target; no last target restores the one present |
| PropertiesJava.WrappedHeaderRestoresAsFooter | library/src/main/java/ke/tang/refresh/RefreshLayout.java:607-635 | a wrapper around the header saves as FOOTER and restores as the footer's Refreshable |
| PropertiesJava.PulledState | library/src/main/java/ke/tang/refresh/RefreshLayout.java:353-365 | a nested scroll with 200 unconsumed at the top drags from the top at -100 with the wrapped header as target |
| PropertiesJava.PullRefreshesShortHeader | library/src/main/java/ke/tang/refresh/RefreshLayout.java:325-350 | that pull refreshes an 80-pixel header at -80 with `onRefreshStart(true)` |
| PropertiesJava.PullFallsShortOfTallHeader | library/src/main/java/ke/tang/refresh/RefreshLayout.java:325-350 | that pull falls short of a 150-pixel header |
| PropertiesJava.PullToExactSizeStalls | library/src/main/java/ke/tang/refresh/RefreshLayout.java:325-350 | the 100-pixel pull released with a 100-pixel header stays dragging from the top at -100 after two frames, with only `onRelease(true)` logged |
| PropertiesJava.TouchPullMovesContent | library/src/main/java/ke/tang/refresh/RefreshLayout.java:410-447 | a press at 0 and a move to 300 drag from the top at -150 |
| FindingsKt.VerticalScrollMovesAgainstDrag | library/src/main/java/ke/tang/refresh/RefreshLayout.kt:377-383 | as written, a drag from the top can move the content toward the footer's side |
| FindingsKt.VerticalTouchPullNeverRefreshes | library/src/main/java/ke/tang/refresh/RefreshLayout.kt:423-476 | as written, a 300-pixel vertical touch pull leaves the content at 0 and ends with `onRelease(false)` |
| FindingsKt.NestedScrollIntended | library/src/main/java/ke/tang/refresh/RefreshLayout.kt:370-393 | intended: the vertical offset moves by the damped unconsumed delta, in the direction of the drag |
| FindingsKt.IntendedPullRefreshes | library/src/main/java/ke/tang/refresh/RefreshLayout.kt:370-393 | intended: a 200-pixel pull moves to -100 and refreshes an 80-pixel header |
| FindingsJava.SetRefreshOnIndicatorRefreshes | library/src/main/java/ke/tang/refresh/RefreshLayout.java:506-517 | as written, `setRefresh` with only indicators makes the next frame enter REFRESHING and tell `onRefreshStart` with the unchanged offset's side |
| FindingsJava.SetRefreshWithoutHeaderRefreshes | library/src/main/java/ke/tang/refresh/RefreshLayout.java:506-517 | as written, with no header `setRefresh(true)` and one frame give REFRESHING at 0 and `onRefreshStart(false)` |
| FindingsJava.SetRefreshIntended | library/src/main/java/ke/tang/refresh/RefreshLayout.java:506-517 | intended: the same as written when a taking-part last target is found, only the target preparation otherwise |
| FindingsJava.SetRefreshIntendedKeepsPassive | library/src/main/java/ke/tang/refresh/RefreshLayout.java:506-517 | intended: a passive layout stays passive |
| FindingsJava.IntendedIndicatorsNeverRefresh | library/src/main/java/ke/tang/refresh/RefreshLayout.java:506-517 | intended: with passive indicators no sequence of calls, `setRefresh` included, reaches REFRESHING |

## Left out

- Measuring and laying out children (`onMeasure`, `onLayout`, the layout helpers): view geometry, not coordination.
- The `Scroller` interpolation and its 300 ms duration: floating point inside Android. Each poll's value is an input; the last value is assumed to be the goal.
- `FastOutSlowInInterpolator`, `postInvalidateOnAnimation` and `scrollTo`: rendering.
- The float fraction `-offset / size` passed to `onOffset`, and the Kotlin guard against an infinite fraction. The pixel offset is recorded instead.
- Floating-point touch coordinates: positions are whole pixels, so `(mLastY - y).toInt()` is an integer subtraction.
- 32-bit `Int` wrap-around: offsets and deltas are unbounded integers, which is exact for screen-sized values. `HalfTowardZero` also assumes that the float product `n * 0.5f` is exact, which holds below 2^24.
- `NestedScrollingChildHelper` (`startNestedScroll` ... `dispatchNestedPreFling`) and `requestDisallowInterceptTouchEvent`: host delegation. What `dispatchNestedPreScroll` reports for a touch move is the `ancestorConsumed` input.
- `getNestedScrollAxes` and `onNestedScrollAccepted`: they do not touch the coordinator.
- `Parcel` reading and writing in `SavedState`: only the three integers are modelled.
- The Java `LayoutParams` role check: its test `role <= 0 && role > 3` can never hold, so it refuses nothing and there is nothing to model.
- The Kotlin `LayoutParams` constructors other than the one reading attributes, and `generateLayoutParams`: they copy values without a check.
- `java.util.Observable`, `RefreshObservable` and its observer registration: the notification is `NotifyRefreshComplete`.
- The listeners' own behaviour: only their presence and what they answer about interception are modelled.
- `AnimationRefreshView` and `TextAnimationRefreshView` (Lottie and text wrappers with float progress), and the sample apps.
- The classes model the code as written. The corrected definitions under "Findings" are used only by the lemmas beside them, so that the class methods stay faithful to the source.

## Findings

| source | as written | input that shows it | evidently intended | confidence | as-written member | corrected member |
|---|---|---|---|---|---|---|
| library/src/main/java/ke/tang/refresh/RefreshLayout.kt:377-383 | the vertical branch of `onNestedScroll` moves the content by `resolveOffset(dyConsumed)`, although the drag side and the target come from `dyUnconsumed`; the horizontal branch uses `dxUnconsumed`, as the Java layout uses `dyUnconsumed` | press at y 0, move to y 300, release, with an 80-pixel header: `onTouchEvent` feeds the move as `onNestedScroll(0, 0, 0, -300)`, the content stays at 0 and the header hears `onRelease(false)`; a nested scroll with `dyConsumed` 20 and `dyUnconsumed` -200 drags from the top while moving 10 pixels the other way | the offset moves by `resolveOffset(dyUnconsumed)` | medium, not executed | FindingsKt.VerticalTouchPullNeverRefreshes | FindingsKt.NestedScrollIntended |
| library/src/main/java/ke/tang/refresh/RefreshLayout.java:506-517 | `setRefresh` sets SETTLE and REFRESHING as target state before it looks for a target, and keeps them when the last target is null or an indicator | no header, a public listener, `setRefresh(true)` and one frame: the layout is REFRESHING at offset 0 and the listener hears `onRefreshStart(false)`; with indicator header and footer the same happens, though no release ever refreshes them | without a taking-part target only the target is prepared and the state stays, as the Kotlin `setRefresh` does | medium, not executed | FindingsJava.SetRefreshWithoutHeaderRefreshes | FindingsJava.SetRefreshIntended |
