/**
 * The callbacks each edge's drag helper makes into the container (one
 * callback object per edge, identified here by its edge): which child may
 * be captured, what a drag-state change or a position change does, where
 * a released drawer settles, the delayed peek after an edge touch, and the
 * capture that starts an edge drag.
 */
module Callbacks {

  import opened Common
  import opened Gravity
  import opened Geometry
  import opened Drawers
  import opened Container

  const EDGE_LEFT: bv32 := 1
  const EDGE_RIGHT: bv32 := 2
  const EDGE_TOP: bv32 := 4
  const EDGE_BOTTOM: bv32 := 8

  /**
   * tryCaptureView: a helper captures only a drawer whose absolute gravity
   * has every bit of its edge's gravity and whose edge is unlocked.
   */
  function TryCaptureView(s: Layout, e: Edge, i: nat): (r: bool)
    requires i < |s.children|
    ensures r <==> IsDrawer(s.children[i], s.rtl) && HasGravity(AbsGravity(s.children[i], s.rtl), EdgeGravity(e))
                   && GetDrawerLockModeOfChild(s, i) == LOCK_MODE_UNLOCKED
  {
    IsDrawer(s.children[i], s.rtl) && HasGravity(AbsGravity(s.children[i], s.rtl), EdgeGravity(e))
    && GetDrawerLockModeOfChild(s, i) == LOCK_MODE_UNLOCKED
  }

  /**
   * A drawer on an exact edge is captured only by its own edge's helper,
   * and only while that edge is unlocked.
   */
  lemma CaptureOnlyByOwnUnlockedEdge(s: Layout, e: Edge, i: nat)
    requires i < |s.children| && ChildEdge(s.children[i], s.rtl).Some?
    ensures TryCaptureView(s, e, i) <==>
              ChildEdge(s.children[i], s.rtl) == Some(e) && LockModeOf(s, Some(e)) == LOCK_MODE_UNLOCKED
  {
    var f := ChildEdge(s.children[i], s.rtl).value;
    assert AbsGravity(s.children[i], s.rtl) == EdgeGravity(f);
    EdgeChecksAreExclusive(f, e);
    ContentIsNotADrawer(s.children[i], s.rtl);
  }

  /**
   * onViewDragStateChanged: updateDrawerState with the helper's captured
   * view. When the helper reports idle while holding a view, that view is
   * recorded closed if its openness is 0 and open if it is 1; the stored
   * state becomes the aggregate of the four helpers. Nothing else but the
   * event log changes.
   */
  function OnViewDragStateChanged(s: Layout, e: Edge, state: DragPhase): (r: Layout)
    requires Wf(s)
    ensures Wf(r) && |r.children| == |s.children| && r.draggers == s.draggers
    ensures r.drawerState == AggregateState(s.draggers)
    ensures var held := s.draggers.Get(e).captured;
            held.Some? && state == Idle ==>
              held.value < |s.children|
              && var c := s.children[held.value];
                 r.children == s.children[held.value := c.(knownOpen := if c.onScreen == 0.0 then false
                                                                      else if c.onScreen == 1.0 then true else c.knownOpen)]
    ensures !(s.draggers.Get(e).captured.Some? && state == Idle) ==> r.children == s.children
    ensures r.(children := s.children, drawerState := s.drawerState, events := s.events) == s
  {
    FitsGet(s.draggers, |s.children|, e);
    UpdateDrawerState(s, state, s.draggers.Get(e).captured)
  }

  /**
   * The children once edge `e`'s helper settles: a drawer it held learns
   * that it is open when it ended fully shown and closed when it ended
   * fully hidden; every other child is unchanged.
   */
  predicate SettledChildren(s: Layout, e: Edge, children: seq<Child>)
  {
    var held := s.draggers.Get(e).captured;
    if held.Some? && held.value < |s.children| then
      var c := s.children[held.value];
      children == s.children[held.value := c.(knownOpen := if c.onScreen == 0.0 then false
                                                          else if c.onScreen == 1.0 then true else c.knownOpen)]
    else children == s.children
  }

  /**
   * The helper changing phase (ViewDragHelper.setDragState): a new phase is
   * stored and reported to the callback, and going idle releases the
   * captured view; the same phase again changes nothing.
   */
  function SetDragState(s: Layout, e: Edge, state: DragPhase): (r: Layout)
    requires Wf(s)
    ensures Wf(r) && |r.children| == |s.children|
    ensures r.draggers.Get(e).phase == state
    ensures s.draggers.Get(e).phase == state ==> r == s
    ensures s.draggers.Get(e).phase != state ==> r.drawerState == AggregateState(s.draggers.Set(e, s.draggers.Get(e).(phase := state)))
    ensures state == Idle ==> r.draggers.Get(e).captured.None? || s.draggers.Get(e).phase == Idle
    ensures state != Idle ==> r.children == s.children && r.draggers == s.draggers.Set(e, s.draggers.Get(e).(phase := state))
    ensures state == Idle && s.draggers.Get(e).phase != Idle ==>
              r.draggers == s.draggers.Set(e, s.draggers.Get(e).(phase := Idle, captured := None))
              && SettledChildren(s, e, r.children)
    ensures r.(children := s.children, draggers := s.draggers, drawerState := s.drawerState, events := s.events) == s
  {
    if s.draggers.Get(e).phase == state then s else ChangeDragState(s, e, state)
  }

  /** SetDragState when the phase really changes. */
  function ChangeDragState(s: Layout, e: Edge, state: DragPhase): (r: Layout)
    requires Wf(s) && s.draggers.Get(e).phase != state
    ensures Wf(r) && |r.children| == |s.children|
    ensures r.draggers.Get(e).phase == state && (state == Idle ==> r.draggers.Get(e).captured.None?)
    ensures r.drawerState == AggregateState(s.draggers.Set(e, s.draggers.Get(e).(phase := state)))
    ensures state != Idle ==> r.children == s.children && r.draggers == s.draggers.Set(e, s.draggers.Get(e).(phase := state))
    ensures state == Idle ==>
              r.draggers == s.draggers.Set(e, s.draggers.Get(e).(phase := Idle, captured := None))
              && SettledChildren(s, e, r.children)
    ensures r.(children := s.children, draggers := s.draggers, drawerState := s.drawerState, events := s.events) == s
  {
    var s1 := WithPhase(s, e, state);
    var s2 := OnViewDragStateChanged(s1, e, state);
    if state == Idle then ReleaseCaptured(s2, e) else s2
  }

  /** Edge `e`'s helper stores phase `state`; nothing else changes. */
  function WithPhase(s: Layout, e: Edge, state: DragPhase): (r: Layout)
    requires Wf(s)
    ensures Wf(r) && r.draggers == s.draggers.Set(e, s.draggers.Get(e).(phase := state))
    ensures r.draggers.Get(e).captured == s.draggers.Get(e).captured
    ensures r.(draggers := s.draggers) == s
  {
    s.(draggers := s.draggers.Set(e, s.draggers.Get(e).(phase := state)))
  }

  /** Edge `e`'s helper lets go of the view it held; nothing else changes. */
  function ReleaseCaptured(s: Layout, e: Edge): (r: Layout)
    requires Wf(s)
    ensures Wf(r) && r.draggers == s.draggers.Set(e, s.draggers.Get(e).(captured := None))
    ensures r.(draggers := s.draggers) == s
  {
    s.(draggers := s.draggers.Set(e, s.draggers.Get(e).(captured := None)))
  }

  /**
   * When a helper settles, a drawer it held fully closed is reported closed
   * (once) and a drawer it held fully open is reported open (once); the
   * aggregate becomes idle exactly when every helper is idle.
   */
  lemma SettlingReportsLifecycle(s: Layout, e: Edge)
    requires Wf(s) && s.draggers.Get(e).phase != Idle && s.draggers.Get(e).captured.Some?
    ensures var i := s.draggers.Get(e).captured.value;
            i < |s.children|
            && SetDragState(s, e, Idle).children[i].knownOpen
               == (if s.children[i].onScreen == 0.0 then false
                   else if s.children[i].onScreen == 1.0 then true
                   else s.children[i].knownOpen)
    ensures SetDragState(s, e, Idle).drawerState == Idle <==> forall f :: f != e ==> s.draggers.Get(f).phase == Idle
  {
    FitsGet(s.draggers, |s.children|, e);
    var d := s.draggers.Get(e);
    var ds := s.draggers.Set(e, d.(phase := Idle));
    var r := SetDragState(s, e, Idle);
    assert SettledChildren(s, e, r.children) && r.drawerState == AggregateState(ds);
    AggregateIdleIffAllIdle(ds.left.phase, ds.right.phase, ds.top.phase, ds.bottom.phase);
    assert ds.Get(e).phase == Idle;
    assert forall f :: f != e ==> ds.Get(f) == s.draggers.Get(f);
    assert ds.Get(Left) == ds.left && ds.Get(Right) == ds.right && ds.Get(Top) == ds.top && ds.Get(Bottom) == ds.bottom;
    assert (forall f :: ds.Get(f).phase == Idle)
           <==> ds.left.phase == Idle && ds.right.phase == Idle && ds.top.phase == Idle && ds.bottom.phase == Idle;
  }

  /**
   * onViewPositionChanged, after the helper has moved the child to
   * (left, top): the openness is recomputed from the new position, stored
   * and reported, and the child is invisible exactly when it is closed.
   */
  function OnViewPositionChanged(s: Layout, i: nat, left: int, top: int): (r: Layout)
    requires i < |s.children|
    requires ExtentPositive(ChildEdge(s.children[i], s.rtl), s.children[i].bounds.width, s.children[i].bounds.height)
    ensures |r.children| == |s.children| && r.draggers == s.draggers
    ensures var c := s.children[i];
            var offset := OffsetForPosition(ChildEdge(c, s.rtl), left, top, c.bounds.width, c.bounds.height, s.width, s.height);
            r.children == s.children[i := c.(bounds := c.bounds.(left := left, top := top), onScreen := offset,
                                             visibility := if offset == 0.0 then Invisible else Visible)]
            && r.events == s.events + (if offset != c.onScreen then [DrawerSlide(i, offset)] else [])
    ensures r.(children := s.children, events := s.events) == s
  {
    var c := s.children[i];
    var offset := OffsetForPosition(ChildEdge(c, s.rtl), left, top, c.bounds.width, c.bounds.height, s.width, s.height);
    var s1 := s.(children := s.children[i := c.(bounds := c.bounds.(left := left, top := top))]);
    var s2 := SetDrawerViewOffset(s1, i, offset);
    var c2 := s2.children[i];
    s2.(children := s2.children[i := c2.(visibility := if offset == 0.0 then Invisible else Visible)])
  }

  /**
   * A drag keeps the openness in [0, 1]: at any position the clamps allow,
   * the recomputed openness is in range, and it is 0 exactly when the child
   * becomes invisible.
   */
  lemma DragKeepsOpennessInRange(s: Layout, i: nat, left: int, top: int)
    requires i < |s.children|
    requires ExtentPositive(ChildEdge(s.children[i], s.rtl), s.children[i].bounds.width, s.children[i].bounds.height)
    ensures var c := s.children[i];
            var edge := ChildEdge(c, s.rtl);
            var r := OnViewPositionChanged(s, i, ClampHorizontal(edge, left, c.bounds, s.width),
                                           ClampVertical(edge, top, c.bounds, s.height));
            0.0 <= r.children[i].onScreen <= 1.0 && (r.children[i].visibility == Invisible <==> r.children[i].onScreen == 0.0)
  {
    var c := s.children[i];
    ClampedOpennessInUnitRange(ChildEdge(c, s.rtl), left, top, c.bounds, s.width, s.height);
  }

  /**
   * closeOtherDrawer: closes the first child the lookup finds for the
   * callback's OWN edge (not the opposite one).
   */
  function CloseOtherDrawer(s: Layout, e: Edge): (r: Effect)
    requires Wf(s)
    ensures Wf(r.state) && |r.state.children| == |s.children|
    ensures FindDrawerWithGravity(s, EdgeGravity(e)).None? ==> r == Effect(s, Ok)
    ensures FindDrawerWithGravity(s, EdgeGravity(e)).Some? ==> r == CloseDrawer(s, FindDrawerWithGravity(s, EdgeGravity(e)).value)
    ensures forall f :: r.state.draggers.Get(f).peekPending == s.draggers.Get(f).peekPending
  {
    match FindDrawerWithGravity(s, EdgeGravity(e))
    case None => Effect(s, Ok)
    case Some(j) => CloseDrawer(s, j)
  }

  /** onViewCaptured: the captured child stops peeking, then closeOtherDrawer runs. */
  function OnViewCaptured(s: Layout, e: Edge, i: nat): (r: Effect)
    requires Wf(s) && i < |s.children|
    ensures Wf(r.state) && |r.state.children| == |s.children|
    ensures r == CloseOtherDrawer(s.(children := s.children[i := s.children[i].(isPeeking := false)]), e)
  {
    CloseOtherDrawer(s.(children := s.children[i := s.children[i].(isPeeking := false)]), e)
  }

  /**
   * Because closeOtherDrawer looks on the callback's own edge, capturing the
   * only LEFT drawer after the first layout asks the LEFT helper to settle
   * that very drawer at its closed position.
   */
  lemma CapturedDrawerIsAskedToClose(s: Layout, i: nat)
    requires Wf(s) && i < |s.children| && !s.firstLayout
    requires ChildEdge(s.children[i], s.rtl) == Some(Left)
    requires forall j :: 0 <= j < i ==> HorizontalBits(AbsGravity(s.children[j], s.rtl)) != HorizontalBits(LEFT)
    ensures var r := OnViewCaptured(s, Left, i);
            var c := s.children[i];
            r.outcome == Ok
            && r.state.draggers.Get(Left).request == Some(SettleRequest(i, -(c.bounds.width as int), c.bounds.top))
  {
    var c := s.children[i];
    var s1 := s.(children := s.children[i := c.(isPeeking := false)]);
    assert AbsGravity(c, s.rtl) == LEFT;
    assert AbsoluteGravity(LEFT, s.rtl) == LEFT;
    assert HorizontalGravityIs(HorizontalBits(LEFT), s.rtl)(s1.children[i]);
    assert forall j :: 0 <= j < i ==> !HorizontalGravityIs(HorizontalBits(LEFT), s.rtl)(s1.children[j]);
    assert FindDrawerWithGravity(s1, EdgeGravity(Left)) == Some(i);
    ContentIsNotADrawer(c, s.rtl);
  }

  /**
   * onViewReleased: the helper is asked to settle the released child where
   * ReleaseTarget says, from its openness, the release velocity and its frame.
   */
  function OnViewReleased(s: Layout, e: Edge, i: nat, xvel: real, yvel: real): (r: Layout)
    requires Wf(s) && i < |s.children|
    ensures Wf(r) && r.children == s.children
    ensures var c := s.children[i];
            var p := ReleaseTarget(ChildEdge(c, s.rtl), c.onScreen, xvel, yvel, c.bounds, s.width, s.height);
            r.draggers.Get(e).request == Some(SettleRequest(i, p.x, p.y))
    ensures r.draggers.Get(e).captured == Some(i)
    ensures r.draggers.Get(e).phase == s.draggers.Get(e).phase && r.draggers.Get(e).cancels == s.draggers.Get(e).cancels
            && r.draggers.Get(e).peekPending == s.draggers.Get(e).peekPending
    ensures forall f :: f != e ==> r.draggers.Get(f) == s.draggers.Get(f)
    ensures r.(draggers := s.draggers) == s
  {
    var c := s.children[i];
    SmoothSlide(s, e, i, ReleaseTarget(ChildEdge(c, s.rtl), c.onScreen, xvel, yvel, c.bounds, s.width, s.height))
  }

  /**
   * A released drawer on an exact edge always settles fully open or fully
   * closed: the requested position has openness 1 or 0.
   */
  lemma ReleaseSettlesOpenOrClosed(s: Layout, e: Edge, i: nat, xvel: real, yvel: real)
    requires Wf(s) && i < |s.children| && ChildEdge(s.children[i], s.rtl).Some?
    requires ExtentPositive(ChildEdge(s.children[i], s.rtl), s.children[i].bounds.width, s.children[i].bounds.height)
    ensures var c := s.children[i];
            var q := OnViewReleased(s, e, i, xvel, yvel).draggers.Get(e).request.value;
            var o := OffsetForPosition(ChildEdge(c, s.rtl), q.left, q.top, c.bounds.width, c.bounds.height, s.width, s.height);
            o == 0.0 || o == 1.0
  {
  }

  /** onEdgeTouched: the delayed peek for the edge is posted. */
  function OnEdgeTouched(s: Layout, e: Edge): (r: Layout)
    requires Wf(s)
    ensures Wf(r) && r.children == s.children
    ensures r.draggers.Get(e).peekPending
    ensures r.draggers.Get(e) == s.draggers.Get(e).(peekPending := true)
    ensures forall f :: f != e ==> r.draggers.Get(f) == s.draggers.Get(f)
    ensures r.(draggers := s.draggers) == s
  {
    s.(draggers := s.draggers.Set(e, s.draggers.Get(e).(peekPending := true)))
  }

  /** cancelChildViewTouch: the children's touches are cancelled once; the flag records it. */
  function CancelChildViewTouch(s: Layout): (r: Layout)
    ensures r.childrenCanceledTouch && r.(childrenCanceledTouch := s.childrenCanceledTouch) == s
  {
    if !s.childrenCanceledTouch then s.(childrenCanceledTouch := true) else s
  }

  /** peekDrawer's guard: the edge's drawer exists, shows less than the peek distance where the guard looks, and is unlocked. */
  predicate PeekAllowed(s: Layout, e: Edge, peekDistance: int) {
    var found := FindDrawerWithGravity(s, EdgeGravity(e));
    found.Some? && found.value < |s.children|
    && PeekEligible(e, s.children[found.value].bounds,
                    PeekTarget(e, Some(s.children[found.value].bounds), peekDistance, s.width, s.height))
    && GetDrawerLockModeOfChild(s, found.value) == LOCK_MODE_UNLOCKED
  }

  /**
   * The guard in its own terms: a drawer is found for the edge, it shows
   * fewer pixels than the peek distance, its cross coordinate is strictly
   * positive, and its edge is unlocked.
   */
  lemma PeekAllowedMeans(s: Layout, e: Edge, peekDistance: int)
    ensures PeekAllowed(s, e, peekDistance) <==>
              var found := FindDrawerWithGravity(s, EdgeGravity(e));
              found.Some?
              && var b := s.children[found.value].bounds;
                 Shown(Some(e), b.left, b.top, b.width, b.height, s.width, s.height) < peekDistance
                 && (if Horizontal(Some(e)) then b.top > 0 else b.left > 0)
                 && GetDrawerLockModeOfChild(s, found.value) == LOCK_MODE_UNLOCKED
  {
    var found := FindDrawerWithGravity(s, EdgeGravity(e));
    if found.Some? {
      PeekNeedsPositiveCrossCoordinate(e, s.children[found.value].bounds, peekDistance, s.width, s.height);
    }
  }

  /**
   * peekDrawer, run when the delayed peek fires (so it is no longer
   * pending): if the guard holds, the drawer is peeked as `Peek` says;
   * otherwise nothing else changes.
   */
  function PeekDrawer(s: Layout, e: Edge, peekDistance: int): (r: Effect)
    requires Wf(s)
    ensures Wf(r.state) && |r.state.children| == |s.children|
    ensures !r.state.draggers.Get(e).peekPending
    ensures !PeekAllowed(s, e, peekDistance) ==>
              r == Effect(s.(draggers := s.draggers.Set(e, s.draggers.Get(e).(peekPending := false))), Ok)
    ensures PeekAllowed(s, e, peekDistance) ==>
              r == Peek(s.(draggers := s.draggers.Set(e, s.draggers.Get(e).(peekPending := false))), e, peekDistance)
  {
    var d := s.draggers.Get(e);
    var s0 := s.(draggers := s.draggers.Set(e, d.(peekPending := false)));
    assert PeekAllowed(s0, e, peekDistance) == PeekAllowed(s, e, peekDistance);
    if PeekAllowed(s0, e, peekDistance) then Peek(s0, e, peekDistance) else Effect(s0, Ok)
  }

  /**
   * The slide that starts a peek: the edge's helper captures the drawer the
   * lookup found and is asked to settle it at the peek target's horizontal
   * coordinate and its own current top (a TOP or BOTTOM drawer is thus not
   * moved into view); the drawer is marked peeking. Nothing else changes.
   */
  function PeekSlide(s: Layout, e: Edge, peekDistance: int): (r: Layout)
    requires Wf(s) && PeekAllowed(s, e, peekDistance)
    ensures Wf(r) && |r.children| == |s.children|
    ensures var j := FindDrawerWithGravity(s, EdgeGravity(e)).value;
            var c := s.children[j];
            var t := PeekTarget(e, Some(c.bounds), peekDistance, s.width, s.height);
            r.children == s.children[j := c.(isPeeking := true)]
            && r.draggers == s.draggers.Set(e, s.draggers.Get(e).(captured := Some(j),
                                                                request := Some(SettleRequest(j, t.x, c.bounds.top))))
    ensures r.(children := s.children, draggers := s.draggers) == s
  {
    var j := FindDrawerWithGravity(s, EdgeGravity(e)).value;
    var c := s.children[j];
    var target := PeekTarget(e, Some(c.bounds), peekDistance, s.width, s.height);
    var s1 := SmoothSlide(s, e, j, Point(target.x, c.bounds.top));
    s1.(children := s1.children[j := c.(isPeeking := true)])
  }

  /**
   * The slide a LEFT or RIGHT peek asks for shows exactly the peek distance;
   * the one a TOP or BOTTOM peek asks for shows as much as the drawer
   * already did.
   */
  lemma PeekSlideShows(s: Layout, e: Edge, peekDistance: int)
    requires Wf(s) && PeekAllowed(s, e, peekDistance)
    ensures var j := FindDrawerWithGravity(s, EdgeGravity(e)).value;
            var b := s.children[j].bounds;
            var q := PeekSlide(s, e, peekDistance).draggers.Get(e).request.value;
            Shown(Some(e), q.left, q.top, b.width, b.height, s.width, s.height)
            == if Horizontal(Some(e)) then peekDistance else Shown(Some(e), b.left, b.top, b.width, b.height, s.width, s.height)
    ensures var j := FindDrawerWithGravity(s, EdgeGravity(e)).value;
            var q := PeekSlide(s, e, peekDistance).draggers.Get(e).request.value;
            (Horizontal(Some(e)) ==> q.top == s.children[j].bounds.top) && (!Horizontal(Some(e)) ==> q.left == 0)
  {
  }

  /**
   * The guarded part of peekDrawer: the peek slide, then closeOtherDrawer;
   * if that completes, the children's touches are cancelled.
   */
  function Peek(s: Layout, e: Edge, peekDistance: int): (r: Effect)
    requires Wf(s) && PeekAllowed(s, e, peekDistance)
    ensures Wf(r.state) && |r.state.children| == |s.children|
    ensures r.state.draggers.Get(e).peekPending == s.draggers.Get(e).peekPending
    ensures var closed := CloseOtherDrawer(PeekSlide(s, e, peekDistance), e);
            r.outcome == closed.outcome
            && r.state == if closed.outcome.Err? then closed.state else CancelChildViewTouch(closed.state)
    ensures r.outcome == Ok ==> r.state.childrenCanceledTouch
  {
    var closed := CloseOtherDrawer(PeekSlide(s, e, peekDistance), e);
    if closed.outcome.Err? then closed
    else Effect(CancelChildViewTouch(closed.state), Ok)
  }

  /**
   * closeOtherDrawer finds the peeking drawer itself, so a peek is undone at
   * once. A found child that is not a drawer makes the peek throw. A drawer
   * stays marked peeking and the children's touches are cancelled; after
   * the first layout, the helper of the drawer's edge is left asked to
   * settle it at its closed position, and before it the drawer is marked
   * fully closed. The peek request itself survives only where that close
   * does not overwrite it.
   */
  lemma PeekIsReplacedByClose(s: Layout, e: Edge, peekDistance: int)
    requires Wf(s) && PeekAllowed(s, e, peekDistance)
    ensures var j := FindDrawerWithGravity(s, EdgeGravity(e)).value;
            var c := s.children[j];
            var route := RouteOf(ChildEdge(c, s.rtl));
            var r := PeekDrawer(s, e, peekDistance);
            var t := PeekTarget(e, Some(c.bounds), peekDistance, s.width, s.height);
            (!IsDrawer(c, s.rtl) ==> r.outcome == Err(NotADrawer(j)))
            && (IsDrawer(c, s.rtl) ==> r.outcome == Ok && r.state.children[j].isPeeking && r.state.childrenCanceledTouch)
            && (IsDrawer(c, s.rtl) && !s.firstLayout ==>
                  var p := ClosedPosition(route, c.bounds, s.width, s.height);
                  r.state.draggers.Get(route).request == Some(SettleRequest(j, p.x, p.y)))
            && (IsDrawer(c, s.rtl) && s.firstLayout ==> r.state.children[j].onScreen == 0.0 && !r.state.children[j].knownOpen)
            && (!IsDrawer(c, s.rtl) || s.firstLayout || route != e ==>
                  r.state.draggers.Get(e).request == Some(SettleRequest(j, t.x, c.bounds.top)))
  {
    var d := s.draggers.Get(e);
    var s0 := s.(draggers := s.draggers.Set(e, d.(peekPending := false)));
    assert FindDrawerWithGravity(s0, EdgeGravity(e)) == FindDrawerWithGravity(s, EdgeGravity(e));
    assert PeekAllowed(s0, e, peekDistance);
    PeekUndone(s0, e, peekDistance);
  }

  /** PeekIsReplacedByClose for the guarded part alone. */
  lemma PeekUndone(s: Layout, e: Edge, peekDistance: int)
    requires Wf(s) && PeekAllowed(s, e, peekDistance)
    ensures var j := FindDrawerWithGravity(s, EdgeGravity(e)).value;
            var c := s.children[j];
            var route := RouteOf(ChildEdge(c, s.rtl));
            var r := Peek(s, e, peekDistance);
            var t := PeekTarget(e, Some(c.bounds), peekDistance, s.width, s.height);
            (!IsDrawer(c, s.rtl) ==> r.outcome == Err(NotADrawer(j)))
            && (IsDrawer(c, s.rtl) ==> r.outcome == Ok && r.state.children[j].isPeeking && r.state.childrenCanceledTouch)
            && (IsDrawer(c, s.rtl) && !s.firstLayout ==>
                  var p := ClosedPosition(route, c.bounds, s.width, s.height);
                  r.state.draggers.Get(route).request == Some(SettleRequest(j, p.x, p.y)))
            && (IsDrawer(c, s.rtl) && s.firstLayout ==> r.state.children[j].onScreen == 0.0 && !r.state.children[j].knownOpen)
            && (!IsDrawer(c, s.rtl) || s.firstLayout || route != e ==>
                  r.state.draggers.Get(e).request == Some(SettleRequest(j, t.x, c.bounds.top)))
  {
    PeekFindsItself(s, e, peekDistance);
    var j := FindDrawerWithGravity(s, EdgeGravity(e)).value;
    var c := s.children[j];
    var s2 := PeekSlide(s, e, peekDistance);
    assert s2.children[j] == c.(isPeeking := true);
    if !IsDrawer(c, s.rtl) {
      assert Peek(s, e, peekDistance) == Effect(s2, Err(NotADrawer(j)));
    } else if s.firstLayout {
      PeekBeforeFirstLayout(s, e, peekDistance, s2, j);
    } else {
      PeekAfterFirstLayout(s, e, peekDistance, s2, j);
    }
  }

  /** Before the first layout the close only marks the slid drawer closed. */
  lemma PeekBeforeFirstLayout(s: Layout, e: Edge, peekDistance: int, s2: Layout, j: nat)
    requires Wf(s) && PeekAllowed(s, e, peekDistance) && s.firstLayout
    requires s2 == PeekSlide(s, e, peekDistance) && j == FindDrawerWithGravity(s, EdgeGravity(e)).value
    requires IsDrawer(s.children[j], s.rtl) && CloseOtherDrawer(s2, e) == CloseDrawer(s2, j)
    ensures var r := Peek(s, e, peekDistance);
            var c := s2.children[j];
            r.outcome == Ok && r.state.childrenCanceledTouch
            && r.state.children[j] == c.(onScreen := 0.0, knownOpen := false)
            && r.state.draggers == s2.draggers
  {
  }

  /** After the first layout the close asks the drawer's own helper to settle it closed. */
  lemma PeekAfterFirstLayout(s: Layout, e: Edge, peekDistance: int, s2: Layout, j: nat)
    requires Wf(s) && PeekAllowed(s, e, peekDistance) && !s.firstLayout
    requires s2 == PeekSlide(s, e, peekDistance) && j == FindDrawerWithGravity(s, EdgeGravity(e)).value
    requires IsDrawer(s.children[j], s.rtl) && CloseOtherDrawer(s2, e) == CloseDrawer(s2, j)
    ensures var r := Peek(s, e, peekDistance);
            var c := s2.children[j];
            var route := RouteOf(ChildEdge(c, s.rtl));
            var p := ClosedPosition(route, c.bounds, s.width, s.height);
            r.outcome == Ok && r.state.childrenCanceledTouch
            && r.state.children == s2.children
            && r.state.draggers == s2.draggers.Set(route, s2.draggers.Get(route).(captured := Some(j), request := Some(SettleRequest(j, p.x, p.y))))
  {
  }

  /** closeOtherDrawer after the peek slide closes the very drawer that was slid. */
  lemma PeekFindsItself(s: Layout, e: Edge, peekDistance: int)
    requires Wf(s) && PeekAllowed(s, e, peekDistance)
    ensures CloseOtherDrawer(PeekSlide(s, e, peekDistance), e)
            == CloseDrawer(PeekSlide(s, e, peekDistance), FindDrawerWithGravity(s, EdgeGravity(e)).value)
  {
    var j := FindDrawerWithGravity(s, EdgeGravity(e)).value;
    var c := s.children[j];
    var s2 := PeekSlide(s, e, peekDistance);
    var s1 := s2.(children := s.children);
    assert s1.(children := s1.children[j := c.(isPeeking := true)]) == s2;
    assert FindDrawerWithGravity(s1, EdgeGravity(e)) == Some(j);
    FindIgnoresUpdate(s1, EdgeGravity(e), j, c.(isPeeking := true));
  }

  /**
   * The gravity onEdgeDragStarted looks up for the edge flags of the drag:
   * LEFT wins over RIGHT, RIGHT over TOP, and BOTTOM is taken for anything
   * else, even with no BOTTOM flag.
   */
  function DragStartGravity(edgeFlags: bv32): (g: bv32)
    ensures edgeFlags & EDGE_LEFT == EDGE_LEFT ==> g == LEFT
    ensures edgeFlags & EDGE_LEFT != EDGE_LEFT && edgeFlags & EDGE_RIGHT == EDGE_RIGHT ==> g == RIGHT
    ensures (edgeFlags & EDGE_LEFT != EDGE_LEFT && edgeFlags & EDGE_RIGHT != EDGE_RIGHT
             && edgeFlags & EDGE_TOP == EDGE_TOP) ==> g == TOP
    ensures edgeFlags & (EDGE_LEFT | EDGE_RIGHT | EDGE_TOP) == 0 ==> g == BOTTOM
  {
    if edgeFlags & EDGE_LEFT == EDGE_LEFT then LEFT
    else if edgeFlags & EDGE_RIGHT == EDGE_RIGHT then RIGHT
    else if edgeFlags & EDGE_TOP == EDGE_TOP then TOP
    else BOTTOM
  }

  /**
   * ViewDragHelper.captureChildView as the container uses it: the child
   * becomes the helper's captured view, onViewCaptured runs, and, unless it
   * threw, the helper enters the dragging phase. The children end as
   * onViewCaptured leaves them.
   */
  function CaptureChildView(s: Layout, e: Edge, i: nat): (r: Effect)
    requires Wf(s) && i < |s.children|
    ensures Wf(r.state) && |r.state.children| == |s.children|
    ensures var cap := OnViewCaptured(s.(draggers := s.draggers.Set(e, s.draggers.Get(e).(captured := Some(i)))), e, i);
            r.outcome == cap.outcome && r.state.children == cap.state.children
            && (r.outcome.Err? ==> r.state == cap.state)
            && (r.outcome == Ok ==>
                  r.state.draggers == cap.state.draggers.Set(e, cap.state.draggers.Get(e).(phase := Dragging)))
    ensures r.outcome == Ok ==> r.state.draggers.Get(e).phase == Dragging
    ensures var cap := OnViewCaptured(s.(draggers := s.draggers.Set(e, s.draggers.Get(e).(captured := Some(i)))), e, i);
            r.outcome == Ok ==>
              r.state == SetDragState(cap.state, e, Dragging)
              && r.state.(draggers := cap.state.draggers, drawerState := cap.state.drawerState, events := cap.state.events) == cap.state
  {
    var d := s.draggers.Get(e);
    var s1 := s.(draggers := s.draggers.Set(e, d.(captured := Some(i))));
    var captured := OnViewCaptured(s1, e, i);
    if captured.outcome.Err? then captured
    else Effect(SetDragState(captured.state, e, Dragging), Ok)
  }

  /**
   * onEdgeDragStarted: the drawer the edge flags name is captured by this
   * callback's helper, provided one is found and its edge is unlocked;
   * otherwise nothing changes.
   */
  function OnEdgeDragStarted(s: Layout, e: Edge, edgeFlags: bv32): (r: Effect)
    requires Wf(s)
    ensures Wf(r.state) && |r.state.children| == |s.children|
    ensures var found := FindDrawerWithGravity(s, DragStartGravity(edgeFlags));
            found.None? || GetDrawerLockModeOfChild(s, found.value) != LOCK_MODE_UNLOCKED ==> r == Effect(s, Ok)
    ensures var found := FindDrawerWithGravity(s, DragStartGravity(edgeFlags));
            found.Some? && GetDrawerLockModeOfChild(s, found.value) == LOCK_MODE_UNLOCKED ==>
              r == CaptureChildView(s, e, found.value)
  {
    match FindDrawerWithGravity(s, DragStartGravity(edgeFlags))
    case None => Effect(s, Ok)
    case Some(j) =>
      if GetDrawerLockModeOfChild(s, j) == LOCK_MODE_UNLOCKED then CaptureChildView(s, e, j)
      else Effect(s, Ok)
  }

  /**
   * An edge drag whose flags name the callback's own edge, onto an unlocked
   * drawer, completes: the edge's helper is dragging with that drawer
   * captured, and the drawer no longer peeks.
   */
  lemma EdgeDragCapturesDrawer(s: Layout, e: Edge, edgeFlags: bv32)
    requires Wf(s) && DragStartGravity(edgeFlags) == EdgeGravity(e)
    requires var found := FindDrawerWithGravity(s, EdgeGravity(e));
             found.Some? && IsDrawer(s.children[found.value], s.rtl)
             && GetDrawerLockModeOfChild(s, found.value) == LOCK_MODE_UNLOCKED
    ensures var j := FindDrawerWithGravity(s, EdgeGravity(e)).value;
            var r := OnEdgeDragStarted(s, e, edgeFlags);
            r.outcome == Ok && r.state.draggers.Get(e).phase == Dragging
            && r.state.draggers.Get(e).captured == Some(j) && !r.state.children[j].isPeeking
  {
    var j := FindDrawerWithGravity(s, EdgeGravity(e)).value;
    EdgeCallbackKeepsDrawer(s, e, j);
  }

  /** The step of EdgeDragCapturesDrawer: onViewCaptured on the edge's own drawer succeeds and keeps it captured. */
  lemma EdgeCallbackKeepsDrawer(s: Layout, e: Edge, j: nat)
    requires Wf(s) && j < |s.children| && IsDrawer(s.children[j], s.rtl)
    requires FindDrawerWithGravity(s, EdgeGravity(e)) == Some(j)
    ensures var cap := OnViewCaptured(s.(draggers := s.draggers.Set(e, s.draggers.Get(e).(captured := Some(j)))), e, j);
            cap.outcome == Ok && cap.state.draggers.Get(e).captured == Some(j) && !cap.state.children[j].isPeeking
  {
    var c := s.children[j];
    var s1 := s.(draggers := s.draggers.Set(e, s.draggers.Get(e).(captured := Some(j))));
    var s2 := s1.(children := s1.children[j := c.(isPeeking := false)]);
    assert FindDrawerWithGravity(s1, EdgeGravity(e)) == Some(j);
    FindIgnoresUpdate(s1, EdgeGravity(e), j, c.(isPeeking := false));
    assert FindDrawerWithGravity(s2, EdgeGravity(e)) == Some(j);
    assert OnViewCaptured(s1, e, j) == CloseDrawer(s2, j);
  }

  /**
   * An edge drag from the top while the content view is the first child
   * captures the content view, whose lock mode reads as UNLOCKED, and then
   * throws: the TOP callback's closeOtherDrawer finds the content view,
   * which is not a drawer.
   */
  lemma TopEdgeDragCapturesContent(s: Layout)
    requires Wf(s) && |s.children| > 0 && IsContent(s.children[0])
    ensures var r := OnEdgeDragStarted(s, Top, EDGE_TOP);
            r.outcome == Err(NotADrawer(0)) && r.state.draggers.Get(Top).captured == Some(0)
  {
    assert DragStartGravity(EDGE_TOP) == TOP;
    VerticalLookupFindsContentFirst(s.children, s.rtl, TOP);
    ContentIsNotADrawer(s.children[0], s.rtl);
    assert AbsGravity(s.children[0], s.rtl) == NO_GRAVITY;
    assert GetDrawerLockModeOfChild(s, 0) == LOCK_MODE_UNLOCKED;
    var d := s.draggers.Get(Top);
    var s1 := s.(draggers := s.draggers.Set(Top, d.(captured := Some(0))));
    var c := s1.children[0].(isPeeking := false);
    FindIgnoresUpdate(s1, TOP, 0, c);
    var s2 := s1.(children := s1.children[0 := c]);
    assert FindDrawerWithGravity(s2, EdgeGravity(Top)) == Some(0);
    assert !IsDrawer(s2.children[0], s2.rtl);
  }
}
