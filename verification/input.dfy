/**
 * Touch and key input, the children's request to stop interception, and
 * saving and restoring the container's state. What the drag helpers decide
 * from the raw events (whether to intercept, whether the touch slop was
 * crossed, the hit test under a point) arrives as parameters.
 */
module Input {

  import opened Common
  import opened Gravity
  import opened Drawers
  import opened Container

  const KEYCODE_BACK: int := 4

  /** MotionEvent actions the container distinguishes. */
  datatype TouchAction = Down | Up | Move | Cancel | OtherAction

  /** A motion event: its action, its position, and the top child under that position, if any. */
  datatype MotionEvent = MotionEvent(action: TouchAction, x: real, y: real, under: Option<nat>)

  /** The child under the event is one of the container's children. */
  predicate Targets(s: Layout, ev: MotionEvent) {
    ev.under.Some? ==> ev.under.value < |s.children|
  }

  /** The state after an input event and the boolean answer, or the exception thrown instead. */
  datatype Answer = Answer(state: Layout, result: Result<bool>)

  // ---------------------------------------------------------------------
  // onInterceptTouchEvent

  /**
   * The state onInterceptTouchEvent leaves when it does not throw: DOWN
   * records the initial motion and clears the touch flags, a MOVE past the
   * touch slop removes the pending peeks, UP and CANCEL close the peeking
   * drawers and clear the flags, and any other action changes nothing.
   */
  function InterceptState(s: Layout, ev: MotionEvent, pastSlop: bool): (r: Layout)
    requires Wf(s)
    ensures Wf(r) && |r.children| == |s.children|
    ensures ev.action == Down ==>
              r == s.(initialMotionX := ev.x, initialMotionY := ev.y,
                      disallowInterceptRequested := false, childrenCanceledTouch := false)
    ensures ev.action == Move ==> r == if pastSlop then RemoveAllCallbacks(s) else s
    ensures (ev.action == Up || ev.action == Cancel) ==>
              r == CloseDrawers(s, true).(disallowInterceptRequested := false, childrenCanceledTouch := false)
    ensures ev.action == OtherAction ==> r == s
  {
    match ev.action
    case Down =>
      s.(initialMotionX := ev.x, initialMotionY := ev.y, disallowInterceptRequested := false, childrenCanceledTouch := false)
    case Move =>
      if pastSlop then RemoveAllCallbacks(s) else s
    case Up =>
      CloseDrawers(s, true).(disallowInterceptRequested := false, childrenCanceledTouch := false)
    case Cancel =>
      CloseDrawers(s, true).(disallowInterceptRequested := false, childrenCanceledTouch := false)
    case OtherAction =>
      s
  }

  /**
   * onInterceptTouchEvent. A DOWN while the scrim shows and no child is
   * under the touch throws (the hit test returns null); otherwise the state
   * is InterceptState's and the answer is whether a helper intercepts, a
   * DOWN lands on the dimmed content view, a drawer peeks, or child touches
   * were cancelled.
   */
  function OnInterceptTouchEvent(s: Layout, ev: MotionEvent, interceptForDrag: bool, pastSlop: bool): (r: Answer)
    requires Wf(s) && Targets(s, ev)
    ensures Wf(r.state) && |r.state.children| == |s.children|
    ensures r.result.Thrown? <==> ev.action == Down && s.scrimOpacity > 0.0 && ev.under.None?
    ensures r.result.Thrown? ==> r.result.failure == NullChild
    ensures r.result.Thrown? ==> r.state == s.(initialMotionX := ev.x, initialMotionY := ev.y)
    ensures r.result.Value? ==> r.state == InterceptState(s, ev, pastSlop)
    ensures r.result.Value? ==>
              (r.result.value <==>
                 interceptForDrag
                 || (ev.action == Down && s.scrimOpacity > 0.0 && IsContent(s.children[ev.under.value]))
                 || HasPeekingDrawer(r.state) || r.state.childrenCanceledTouch)
  {
    if ev.action == Down && s.scrimOpacity > 0.0 && ev.under.None? then
      Answer(s.(initialMotionX := ev.x, initialMotionY := ev.y), Thrown(NullChild))
    else
      var forTap := ev.action == Down && s.scrimOpacity > 0.0 && IsContent(s.children[ev.under.value]);
      var s1 := InterceptState(s, ev, pastSlop);
      Answer(s1, Value(interceptForDrag || forTap || HasPeekingDrawer(s1) || s1.childrenCanceledTouch))
  }

  /**
   * Once a gesture ends, the container intercepts only what the helpers ask
   * for: closing the peeking drawers leaves none peeking, so unless some
   * non-drawer child has its peeking flag set, the answer is the helpers'.
   */
  lemma ReleaseInterceptsOnlyForDrag(s: Layout, ev: MotionEvent, interceptForDrag: bool, pastSlop: bool)
    requires Wf(s) && Targets(s, ev) && (ev.action == Up || ev.action == Cancel)
    requires forall j :: 0 <= j < |s.children| && !IsDrawer(s.children[j], s.rtl) ==> !s.children[j].isPeeking
    ensures OnInterceptTouchEvent(s, ev, interceptForDrag, pastSlop).result == Value(interceptForDrag)
  {
    var c := CloseDrawers(s, true);
    var s1 := c.(disallowInterceptRequested := false, childrenCanceledTouch := false);
    if HasPeekingDrawer(s1) {
      var j := First(s1.children, IsPeeking()).value;
      assert c.children[j].isPeeking;
      CloseDrawersLeavesNoPeekingDrawer(s, true, j);
      assert false;
    }
  }

  // ---------------------------------------------------------------------
  // onTouchEvent

  /**
   * Whether the UP that ends a gesture closes only the peeking drawers: a
   * tap on the content view within the touch slop closes every drawer,
   * unless the open drawer the lookup finds is locked open.
   */
  function PeekingOnlyOnUp(s: Layout, ev: MotionEvent, touchSlop: int): (peekingOnly: bool)
    requires Targets(s, ev)
    ensures !peekingOnly <==>
              ev.under.Some? && IsContent(s.children[ev.under.value])
              && (ev.x - s.initialMotionX) * (ev.x - s.initialMotionX) + (ev.y - s.initialMotionY) * (ev.y - s.initialMotionY)
                 < (touchSlop * touchSlop) as real
              && FindOpenDrawer(s).Some? && GetDrawerLockModeOfChild(s, FindOpenDrawer(s).value) != LOCK_MODE_LOCKED_OPEN
  {
    if ev.under.Some? && IsContent(s.children[ev.under.value]) then
      var dx := ev.x - s.initialMotionX;
      var dy := ev.y - s.initialMotionY;
      if dx * dx + dy * dy < (touchSlop * touchSlop) as real then
        match FindOpenDrawer(s)
        case None => true
        case Some(o) => GetDrawerLockModeOfChild(s, o) == LOCK_MODE_LOCKED_OPEN
      else true
    else true
  }

  /**
   * onTouchEvent, after the helpers have processed the event (not part of
   * this model): DOWN records the initial motion and clears the touch flags;
   * UP closes the drawers as PeekingOnlyOnUp says; CANCEL closes the peeking
   * drawers and clears the flags. The container always consumes the event.
   */
  function OnTouchEvent(s: Layout, ev: MotionEvent, touchSlop: int): (r: Layout)
    requires Wf(s) && Targets(s, ev)
    ensures Wf(r) && |r.children| == |s.children|
    ensures ev.action == Down ==> r == s.(initialMotionX := ev.x, initialMotionY := ev.y,
                                          disallowInterceptRequested := false, childrenCanceledTouch := false)
    ensures ev.action == Up ==> r == CloseDrawers(s, PeekingOnlyOnUp(s, ev, touchSlop)).(disallowInterceptRequested := false)
    ensures ev.action == Cancel ==>
              r == CloseDrawers(s, true).(disallowInterceptRequested := false, childrenCanceledTouch := false)
    ensures ev.action == Move || ev.action == OtherAction ==> r == s
  {
    match ev.action
    case Down =>
      s.(initialMotionX := ev.x, initialMotionY := ev.y, disallowInterceptRequested := false, childrenCanceledTouch := false)
    case Up =>
      CloseDrawers(s, PeekingOnlyOnUp(s, ev, touchSlop)).(disallowInterceptRequested := false)
    case Cancel =>
      CloseDrawers(s, true).(disallowInterceptRequested := false, childrenCanceledTouch := false)
    case _ => s
  }

  /**
   * A tap on the dimmed content closes every drawer when the open one is
   * not locked open; any other UP asks only the peeking drawers to close.
   * Either way no drawer is left peeking.
   */
  lemma TapOnContentClosesDrawers(s: Layout, ev: MotionEvent, touchSlop: int, j: nat, e: Edge)
    requires Wf(s) && Targets(s, ev) && ev.action == Up && j < |s.children|
    requires IsDrawer(s.children[j], s.rtl)
    ensures var r := OnTouchEvent(s, ev, touchSlop);
            r.children[j] == if !PeekingOnlyOnUp(s, ev, touchSlop) || s.children[j].isPeeking
                             then s.children[j].(isPeeking := false) else s.children[j]
    ensures !OnTouchEvent(s, ev, touchSlop).children[j].isPeeking
    ensures var last := LastClosedThrough(s, PeekingOnlyOnUp(s, ev, touchSlop), e, |s.children|);
            OnTouchEvent(s, ev, touchSlop).draggers.Get(e).request
            == if last.Some? then Some(CloseDrawersRequest(s, last.value)) else s.draggers.Get(e).request
  {
    CloseDrawersChildren(s, PeekingOnlyOnUp(s, ev, touchSlop));
    CloseDrawersRequests(s, PeekingOnlyOnUp(s, ev, touchSlop), e);
  }

  // ---------------------------------------------------------------------
  // requestDisallowInterceptTouchEvent

  /**
   * requestDisallowInterceptTouchEvent: the request is recorded, and a
   * request to stop intercepting also closes the peeking drawers.
   */
  function RequestDisallowInterceptTouchEvent(s: Layout, disallowIntercept: bool): (r: Layout)
    requires Wf(s)
    ensures Wf(r) && |r.children| == |s.children|
    ensures r.disallowInterceptRequested == disallowIntercept
    ensures !disallowIntercept ==> r == s.(disallowInterceptRequested := false)
    ensures disallowIntercept ==> r == CloseDrawers(s.(disallowInterceptRequested := true), true)
  {
    var s1 := s.(disallowInterceptRequested := disallowIntercept);
    if disallowIntercept then CloseDrawers(s1, true) else s1
  }

  // ---------------------------------------------------------------------
  // Keys

  /** The state after a key event and whether the container handled it. */
  datatype Handled = Handled(state: Layout, handled: bool)

  /** onKeyDown: BACK is claimed while a drawer is visible; every other key goes to the superclass. */
  function OnKeyDown(s: Layout, keyCode: int, superResult: bool): (r: bool)
    ensures keyCode == KEYCODE_BACK && FindVisibleDrawer(s).Some? ==> r
    ensures !(keyCode == KEYCODE_BACK && FindVisibleDrawer(s).Some?) ==> r == superResult
  {
    if keyCode == KEYCODE_BACK && FindVisibleDrawer(s).Some? then true else superResult
  }

  /**
   * onKeyUp: BACK is handled exactly when a drawer is visible, and closes
   * every drawer only when that drawer's edge is unlocked; other keys go to
   * the superclass.
   */
  function OnKeyUp(s: Layout, keyCode: int, superResult: bool): (r: Handled)
    requires Wf(s)
    ensures Wf(r.state) && |r.state.children| == |s.children|
    ensures keyCode != KEYCODE_BACK ==> r == Handled(s, superResult)
    ensures keyCode == KEYCODE_BACK ==> (r.handled <==> FindVisibleDrawer(s).Some?)
    ensures keyCode == KEYCODE_BACK ==>
              r.state == if FindVisibleDrawer(s).Some?
                            && GetDrawerLockModeOfChild(s, FindVisibleDrawer(s).value) == LOCK_MODE_UNLOCKED
                         then CloseDrawers(s, false) else s
  {
    if keyCode == KEYCODE_BACK then
      var v := FindVisibleDrawer(s);
      var s1 := if v.Some? && GetDrawerLockModeOfChild(s, v.value) == LOCK_MODE_UNLOCKED then CloseDrawers(s, false) else s;
      Handled(s1, v.Some?)
    else
      Handled(s, superResult)
  }

  /**
   * BACK while a drawer is visible and unlocked asks every drawer to close;
   * while the visible drawer is locked it is consumed and changes nothing.
   */
  lemma BackClosesUnlockedDrawers(s: Layout, j: nat, e: Edge)
    requires Wf(s) && j < |s.children| && FindVisibleDrawer(s).Some?
    ensures var v := FindVisibleDrawer(s).value;
            var r := OnKeyUp(s, KEYCODE_BACK, false);
            r.handled && IsDrawer(s.children[v], s.rtl) && s.children[v].onScreen > 0.0
            && (GetDrawerLockModeOfChild(s, v) == LOCK_MODE_UNLOCKED && IsDrawer(s.children[j], s.rtl) ==>
                  r.state.children[j] == s.children[j].(isPeeking := false))
            && (GetDrawerLockModeOfChild(s, v) != LOCK_MODE_UNLOCKED ==> r.state == s)
    ensures var v := FindVisibleDrawer(s).value;
            var last := LastClosedThrough(s, false, e, |s.children|);
            GetDrawerLockModeOfChild(s, v) == LOCK_MODE_UNLOCKED ==>
              OnKeyUp(s, KEYCODE_BACK, false).state.draggers.Get(e).request
              == if last.Some? then Some(CloseDrawersRequest(s, last.value)) else s.draggers.Get(e).request
  {
    CloseDrawersChildren(s, false);
    CloseDrawersRequests(s, false, e);
  }

  // ---------------------------------------------------------------------
  // Saving and restoring

  /**
   * onSaveInstanceState: the gravity of the first drawer known to be open
   * (NO_GRAVITY when there is none) and the four lock modes.
   */
  function OnSaveInstanceState(s: Layout): (ss: SavedState)
    ensures ss.lockModeLeft == s.lockModeLeft && ss.lockModeRight == s.lockModeRight
    ensures ss.lockModeTop == s.lockModeTop && ss.lockModeBottom == s.lockModeBottom
    ensures First(s.children, IsOpenDrawer(s.rtl)).None? ==> ss.openDrawerGravity == NO_GRAVITY
    ensures First(s.children, IsOpenDrawer(s.rtl)).Some? ==>
              ss.openDrawerGravity == s.children[First(s.children, IsOpenDrawer(s.rtl)).value].gravity
  {
    var g := match First(s.children, IsOpenDrawer(s.rtl))
             case None => NO_GRAVITY
             case Some(i) => s.children[i].gravity;
    SavedState(g, s.lockModeLeft, s.lockModeRight, s.lockModeTop, s.lockModeBottom)
  }

  /** The first half of onRestoreInstanceState: open the child the saved gravity finds, if any. */
  function RestoreOpenDrawer(s: Layout, g: bv32): (r: Effect)
    requires Wf(s)
    ensures Wf(r.state) && |r.state.children| == |s.children|
    ensures SameLocks(r.state, s) && r.state.rtl == s.rtl
    ensures g == NO_GRAVITY || FindDrawerWithGravity(s, g).None? ==> r == Effect(s, Ok)
    ensures g != NO_GRAVITY && FindDrawerWithGravity(s, g).Some? ==> r == OpenDrawer(s, FindDrawerWithGravity(s, g).value)
  {
    if g != NO_GRAVITY then
      match FindDrawerWithGravity(s, g)
      case None => Effect(s, Ok)
      case Some(i) => OpenDrawer(s, i)
    else Effect(s, Ok)
  }

  /**
   * onRestoreInstanceState: open the child the saved gravity finds, then
   * restore the LEFT and RIGHT lock modes; an exception stops the rest.
   */
  function OnRestoreInstanceState(s: Layout, ss: SavedState): (r: Effect)
    requires Wf(s)
    ensures Wf(r.state) && |r.state.children| == |s.children|
  {
    var afterOpen := RestoreOpenDrawer(s, ss.openDrawerGravity);
    if afterOpen.outcome.Err? then afterOpen
    else
      var left := SetDrawerLockMode(afterOpen.state, ss.lockModeLeft, LEFT);
      if left.outcome.Err? then left
      else SetDrawerLockMode(left.state, ss.lockModeRight, RIGHT)
  }

  /**
   * Restoring brings back the LEFT and RIGHT lock modes but never the TOP
   * and BOTTOM ones: those stay as they were, whatever was saved.
   */
  lemma RestoreSetsOnlyHorizontalLockModes(s: Layout, ss: SavedState)
    requires Wf(s)
    ensures var r := OnRestoreInstanceState(s, ss);
            r.state.lockModeTop == s.lockModeTop && r.state.lockModeBottom == s.lockModeBottom
    ensures var r := OnRestoreInstanceState(s, ss);
            r.outcome == Ok ==> r.state.lockModeLeft == ss.lockModeLeft && r.state.lockModeRight == ss.lockModeRight
  {
    var afterOpen := RestoreOpenDrawer(s, ss.openDrawerGravity);
    var left := SetDrawerLockMode(afterOpen.state, ss.lockModeLeft, LEFT);
    SetLeftLockMode(afterOpen.state, ss.lockModeLeft);
    SetRightLockMode(left.state, ss.lockModeRight);
  }

  /**
   * A saved state written to a Parcel and read back (writeToParcel, then
   * the SavedState(Parcel) constructor): only the open drawer's gravity is
   * written, so every lock mode comes back at its field default, UNLOCKED.
   */
  function ThroughParcel(ss: SavedState): (r: SavedState)
    ensures r.openDrawerGravity == ss.openDrawerGravity
    ensures r.lockModeLeft == LOCK_MODE_UNLOCKED && r.lockModeRight == LOCK_MODE_UNLOCKED
    ensures r.lockModeTop == LOCK_MODE_UNLOCKED && r.lockModeBottom == LOCK_MODE_UNLOCKED
  {
    SavedState(ss.openDrawerGravity, LOCK_MODE_UNLOCKED, LOCK_MODE_UNLOCKED, LOCK_MODE_UNLOCKED, LOCK_MODE_UNLOCKED)
  }

  /**
   * A restore from a state that went through a Parcel unlocks the LEFT and
   * RIGHT edges whatever was saved, and leaves TOP and BOTTOM as they were.
   */
  lemma ParcelledRestoreUnlocksHorizontalEdges(s: Layout, t: Layout)
    requires Wf(s)
    ensures var r := OnRestoreInstanceState(s, ThroughParcel(OnSaveInstanceState(t)));
            r.state.lockModeTop == s.lockModeTop && r.state.lockModeBottom == s.lockModeBottom
            && (r.outcome == Ok ==> r.state.lockModeLeft == LOCK_MODE_UNLOCKED && r.state.lockModeRight == LOCK_MODE_UNLOCKED)
  {
    RestoreSetsOnlyHorizontalLockModes(s, ThroughParcel(OnSaveInstanceState(t)));
  }

  /**
   * Saving and then restoring into the same container, with the saved
   * state passed as an object, keeps all four lock modes whenever the
   * restore completes: LEFT and RIGHT because they are restored, TOP and
   * BOTTOM only because the restore never touches them.
   */
  lemma SaveRestoreKeepsLockModes(s: Layout)
    requires Wf(s)
    ensures var r := OnRestoreInstanceState(s, OnSaveInstanceState(s));
            r.outcome == Ok ==> r.state.lockModeLeft == s.lockModeLeft && r.state.lockModeRight == s.lockModeRight
                                && r.state.lockModeTop == s.lockModeTop && r.state.lockModeBottom == s.lockModeBottom
  {
    RestoreSetsOnlyHorizontalLockModes(s, OnSaveInstanceState(s));
  }
}
