/** The Java `setRefresh` enters SETTLE with REFRESHING as the state to
    settle into before it knows whether there is a target that takes part
    in refreshing; without one it leaves that in place, so the next frame
    completes a settle that never started into REFRESHING and tells the
    listeners `onRefreshStart`. The Kotlin layout and the Java release path
    both keep a passive indicator (or no target) out of REFRESHING. This
    module shows the effect on the code as written and states the behaviour
    of the evidently intended version. */
module FindingsJava {
  import opened Base
  import opened Animator
  import opened CoordinatorJava
  import opened PropertiesJava

  // ---------------------------------------------------------------------------
  // As written

  /** As written, `setRefresh` on a passive layout (no target but an
      indicator) with a finished animator makes the next frame enter
      REFRESHING and tell every listener `onRefreshStart` with the side of
      the unchanged offset, whatever side was asked for. */
  lemma SetRefreshOnIndicatorRefreshes(c: Layout, fromHeader: bool, f: Frame)
    requires Passive(c) && c.scroller.finished
    ensures var r := ComputeScroll(SetRefresh(c, fromHeader), f);
      && r.state == StateRefreshing && r.contentOffset == c.contentOffset
      && r.log == c.log + StartNotices(c, c.contentOffset < 0)
  {
    assert !Activates(c, fromHeader);
  }

  /** The smallest case: no header at all, a public listener,
      `setRefresh(true)` and one frame give REFRESHING at offset 0 and
      `onRefreshStart(false)`. */
  lemma SetRefreshWithoutHeaderRefreshes()
    ensures var c := SetRefreshListener(Initial(8), true);
      var r := ComputeScroll(SetRefresh(c, true), Elapsed);
      && r.state == StateRefreshing && r.contentOffset == 0
      && r.log == [RefreshStart(Public, false)]
  {
  }

  // ---------------------------------------------------------------------------
  // Intended

  /** `setRefresh` that enters SETTLE and REFRESHING only once a last target
      that takes part is found; otherwise only the target is prepared. */
  function SetRefreshIntended(c: Layout, fromHeader: bool): (r: Layout)
    ensures Activates(c, fromHeader) ==> r == SetRefresh(c, fromHeader)
    ensures !Activates(c, fromHeader) && c.state != StateRefreshing ==> r == PrepareTarget(c, fromHeader)
    ensures c.state == StateRefreshing ==> r == c
  {
    if Activates(c, fromHeader) then SetRefresh(c, fromHeader)
    else if c.state != StateRefreshing then PrepareTarget(c, fromHeader)
    else c
  }

  /** The intended `setRefresh` keeps a passive layout passive. */
  lemma SetRefreshIntendedKeepsPassive(c: Layout, fromHeader: bool)
    requires Passive(c)
    ensures Passive(SetRefreshIntended(c, fromHeader))
  {
    assert !Activates(c, fromHeader);
  }

  /** One call, with `setRefresh` as intended. */
  function StepIntended(c: Layout, i: Input): Result<Layout>
  {
    if i.SetRefreshIn? then Ok(SetRefreshIntended(c, i.fromHeader)) else Step(c, i)
  }

  function RunIntended(c: Layout, inputs: seq<Input>): Result<Layout>
    decreases |inputs|
  {
    if inputs == [] then Ok(c)
    else match StepIntended(c, inputs[0])
      case Error(m) => Error(m)
      case Ok(c1) => RunIntended(c1, inputs[1..])
  }

  /** With the intended `setRefresh`, passive indicators never reach
      REFRESHING nor tell `onRefreshStart`, `setRefresh` calls included. */
  lemma {:induction false} IntendedIndicatorsNeverRefresh(c: Layout, inputs: seq<Input>)
    requires Passive(c)
    requires forall k :: 0 <= k < |inputs| ==> !inputs[k].AddIn? && !inputs[k].RestoreIn?
    ensures RunIntended(c, inputs).Ok? ==> Passive(RunIntended(c, inputs).value)
    decreases |inputs|
  {
    if inputs != [] && StepIntended(c, inputs[0]).Ok? {
      if inputs[0].SetRefreshIn? {
        SetRefreshIntendedKeepsPassive(c, inputs[0].fromHeader);
      } else {
        StepPassive(c, inputs[0]);
      }
      assert forall k :: 0 <= k < |inputs[1..]| ==> !inputs[1..][k].AddIn? && !inputs[1..][k].RestoreIn? by {
        forall k | 0 <= k < |inputs[1..]| ensures !inputs[1..][k].AddIn? && !inputs[1..][k].RestoreIn? {
          assert inputs[1..][k] == inputs[k + 1];
        }
      }
      IntendedIndicatorsNeverRefresh(StepIntended(c, inputs[0]).value, inputs[1..]);
    }
  }
}
