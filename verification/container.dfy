/**
 * The state of the drawer container as one value, and the container's
 * operations as functions of that state: drag-state aggregation and listener
 * dispatch, the lock-mode table, the lookups over the children, and the
 * programmatic open/close paths. The class in layout.dfy updates its fields
 * exactly as these functions say.
 */
module Container {

  import opened Common
  import opened Gravity
  import opened Geometry
  import opened Drawers

  const LOCK_MODE_UNLOCKED: int := 0
  const LOCK_MODE_LOCKED_CLOSED: int := 1
  const LOCK_MODE_LOCKED_OPEN: int := 2

  /**
   * Everything the container's operations read or write: its layout
   * direction and size, its children, the four lock modes, the four drag
   * helpers, the aggregate drawer state, the first-layout flag, the scrim
   * opacity, the touch bookkeeping and the listener calls made so far.
   */
  datatype Layout = Layout(
    rtl: bool,
    width: int,
    height: int,
    children: seq<Child>,
    lockModeLeft: int,
    lockModeRight: int,
    lockModeTop: int,
    lockModeBottom: int,
    draggers: Draggers,
    drawerState: DragPhase,
    firstLayout: bool,
    scrimOpacity: real,
    initialMotionX: real,
    initialMotionY: real,
    disallowInterceptRequested: bool,
    childrenCanceledTouch: bool,
    events: seq<Event>)

  /** The drag helpers only ever refer to existing children. */
  predicate Wf(s: Layout) {
    s.draggers.Fits(|s.children|)
  }

  /** The state after an operation, and whether it completed or threw. */
  datatype Effect = Effect(state: Layout, outcome: Outcome)

  // ---------------------------------------------------------------------
  // Drag helpers as the container drives them

  /** ViewDragHelper.cancel on edge `e`: the edge's helper records one more cancel, and nothing else changes. */
  function Cancel(s: Layout, e: Edge): (r: Layout)
    requires Wf(s)
    ensures Wf(r) && r.children == s.children
    ensures r.draggers.Get(e).cancels == s.draggers.Get(e).cancels + 1
    ensures r.draggers.Get(e) == s.draggers.Get(e).(cancels := s.draggers.Get(e).cancels + 1)
    ensures forall f :: f != e ==> r.draggers.Get(f) == s.draggers.Get(f)
    ensures r.(draggers := s.draggers) == s
  {
    var d := s.draggers.Get(e);
    s.(draggers := s.draggers.Set(e, d.(cancels := d.cancels + 1)))
  }

  /** ViewDragHelper.smoothSlideViewTo on edge `e`: child `i` is to settle at `p`. */
  function SmoothSlide(s: Layout, e: Edge, i: nat, p: Point): (r: Layout)
    requires Wf(s) && i < |s.children|
    ensures Wf(r) && r.children == s.children
    ensures r.draggers.Get(e).request == Some(SettleRequest(i, p.x, p.y))
    ensures r.draggers.Get(e) == s.draggers.Get(e).(captured := Some(i), request := Some(SettleRequest(i, p.x, p.y)))
    ensures r.draggers.Get(e).phase == s.draggers.Get(e).phase
    ensures r.draggers.Get(e).cancels == s.draggers.Get(e).cancels
    ensures r.draggers.Get(e).peekPending == s.draggers.Get(e).peekPending
    ensures forall f :: f != e ==> r.draggers.Get(f) == s.draggers.Get(f)
    ensures r.(draggers := s.draggers) == s
  {
    s.(draggers := s.draggers.Set(e, Slide(s.draggers.Get(e), i, p)))
  }

  /** removeCallbacks on all four edges: no delayed peek remains posted. */
  function RemoveAllCallbacks(s: Layout): (r: Layout)
    requires Wf(s)
    ensures Wf(r) && r.children == s.children && r.(draggers := s.draggers) == s
    ensures forall e :: !r.draggers.Get(e).peekPending
    ensures forall e :: r.draggers.Get(e) == s.draggers.Get(e).(peekPending := false)
  {
    var ds := s.draggers;
    s.(draggers := Draggers(
      ds.left.(peekPending := false), ds.right.(peekPending := false),
      ds.top.(peekPending := false), ds.bottom.(peekPending := false)))
  }

  // ---------------------------------------------------------------------
  // Listener dispatch and the aggregate drawer state

  /** dispatchOnDrawerClosed: fires only for a drawer known to be open, and forgets that it is. */
  function DispatchOnDrawerClosed(s: Layout, i: nat): (r: Layout)
    requires i < |s.children|
    ensures |r.children| == |s.children| && r.draggers == s.draggers
    ensures r.children == s.children[i := s.children[i].(knownOpen := false)]
    ensures r.events == s.events + (if s.children[i].knownOpen then [DrawerClosed(i)] else [])
    ensures r.(children := s.children, events := s.events) == s
  {
    var c := s.children[i];
    if c.knownOpen then
      s.(children := s.children[i := c.(knownOpen := false)], events := s.events + [DrawerClosed(i)])
    else
      s
  }

  /** dispatchOnDrawerOpened: fires only for a drawer not known to be open, and records that it is. */
  function DispatchOnDrawerOpened(s: Layout, i: nat): (r: Layout)
    requires i < |s.children|
    ensures |r.children| == |s.children| && r.draggers == s.draggers
    ensures r.children == s.children[i := s.children[i].(knownOpen := true)]
    ensures r.events == s.events + (if s.children[i].knownOpen then [] else [DrawerOpened(i)])
    ensures r.(children := s.children, events := s.events) == s
  {
    var c := s.children[i];
    if !c.knownOpen then
      s.(children := s.children[i := c.(knownOpen := true)], events := s.events + [DrawerOpened(i)])
    else
      s
  }

  /** Dispatching twice is dispatching once: the second call neither changes nor reports anything. */
  lemma DispatchIsIdempotent(s: Layout, i: nat)
    requires i < |s.children|
    ensures DispatchOnDrawerOpened(DispatchOnDrawerOpened(s, i), i) == DispatchOnDrawerOpened(s, i)
    ensures DispatchOnDrawerClosed(DispatchOnDrawerClosed(s, i), i) == DispatchOnDrawerClosed(s, i)
  {
    var o := DispatchOnDrawerOpened(s, i);
    assert o.children[i].knownOpen;
    assert o.children[i := o.children[i].(knownOpen := true)] == o.children;
    var c := DispatchOnDrawerClosed(s, i);
    assert !c.children[i].knownOpen;
    assert c.children[i := c.children[i].(knownOpen := false)] == c.children;
  }

  /**
   * setDrawerViewOffset: a new openness is stored and reported to the
   * listener once; the openness the drawer already has changes nothing.
   */
  function SetDrawerViewOffset(s: Layout, i: nat, offset: real): (r: Layout)
    requires i < |s.children|
    ensures offset == s.children[i].onScreen ==> r == s
    ensures offset != s.children[i].onScreen ==>
              r == s.(children := s.children[i := s.children[i].(onScreen := offset)],
                      events := s.events + [DrawerSlide(i, offset)])
  {
    var c := s.children[i];
    if offset == c.onScreen then s
    else s.(children := s.children[i := c.(onScreen := offset)], events := s.events + [DrawerSlide(i, offset)])
  }

  /** The aggregate of the four helpers' current phases. */
  function AggregateState(ds: Draggers): DragPhase {
    Aggregate(ds.left.phase, ds.right.phase, ds.top.phase, ds.bottom.phase)
  }

  /**
   * updateDrawerState: when the reporting helper went idle with a captured
   * drawer fully closed (or open), the closed (opened) dispatch runs; then the
   * stored aggregate is refreshed and reported only if it changed.
   */
  function UpdateDrawerState(s: Layout, activeState: DragPhase, activeDrawer: Option<nat>): (r: Layout)
    requires Wf(s)
    requires activeDrawer.Some? ==> activeDrawer.value < |s.children|
    ensures Wf(r) && |r.children| == |s.children| && r.draggers == s.draggers
    ensures r.drawerState == AggregateState(s.draggers)
    ensures activeDrawer.Some? && activeState == Idle ==>
              var i := activeDrawer.value;
              var c := s.children[i];
              r.children == s.children[i := c.(knownOpen := if c.onScreen == 0.0 then false
                                                            else if c.onScreen == 1.0 then true else c.knownOpen)]
    ensures !(activeDrawer.Some? && activeState == Idle) ==> r.children == s.children
    ensures r.(children := s.children, drawerState := s.drawerState, events := s.events) == s
  {
    var s1 :=
      if activeDrawer.Some? && activeState == Idle then
        var i := activeDrawer.value;
        if s.children[i].onScreen == 0.0 then DispatchOnDrawerClosed(s, i)
        else if s.children[i].onScreen == 1.0 then DispatchOnDrawerOpened(s, i)
        else s
      else s;
    var state := AggregateState(s.draggers);
    if state != s1.drawerState then
      s1.(drawerState := state, events := s1.events + [DrawerStateChanged(StateCode(state))])
    else
      s1
  }

  /**
   * What updateDrawerState reports: a state change exactly when the
   * aggregate differs from the stored state, as the last event; an open or
   * close event only for an idle helper whose drawer is exactly open or
   * closed and whose knownOpen flag disagrees.
   */
  lemma UpdateDrawerStateReports(s: Layout, activeState: DragPhase, activeDrawer: Option<nat>)
    requires Wf(s)
    requires activeDrawer.Some? ==> activeDrawer.value < |s.children|
    ensures var r := UpdateDrawerState(s, activeState, activeDrawer);
            var agg := AggregateState(s.draggers);
            var settled := if activeDrawer.Some? && activeState == Idle then activeDrawer else None;
            var lifecycle :=
              if settled.None? then []
              else if s.children[settled.value].onScreen == 0.0 && s.children[settled.value].knownOpen
              then [DrawerClosed(settled.value)]
              else if s.children[settled.value].onScreen == 1.0 && !s.children[settled.value].knownOpen
              then [DrawerOpened(settled.value)]
              else [];
            r.events == s.events + lifecycle + (if agg != s.drawerState then [DrawerStateChanged(StateCode(agg))] else [])
  {
  }

  // ---------------------------------------------------------------------
  // Lock modes

  /** The lock mode the container stores for an edge; UNLOCKED when the gravity matches no edge. */
  function LockModeOf(s: Layout, edge: Option<Edge>): int {
    match edge
    case Some(Left) => s.lockModeLeft
    case Some(Right) => s.lockModeRight
    case Some(Top) => s.lockModeTop
    case Some(Bottom) => s.lockModeBottom
    case None => LOCK_MODE_UNLOCKED
  }

  /** getDrawerLockMode(int edgeGravity): the mode stored for the edge the absolute gravity names, UNLOCKED for any other gravity. */
  function GetDrawerLockMode(s: Layout, g: bv32): (r: int)
    ensures AbsoluteGravity(g, s.rtl) == LEFT ==> r == s.lockModeLeft
    ensures AbsoluteGravity(g, s.rtl) == RIGHT ==> r == s.lockModeRight
    ensures AbsoluteGravity(g, s.rtl) == TOP ==> r == s.lockModeTop
    ensures AbsoluteGravity(g, s.rtl) == BOTTOM ==> r == s.lockModeBottom
    ensures EdgeOf(AbsoluteGravity(g, s.rtl)).None? ==> r == LOCK_MODE_UNLOCKED
  {
    LockModeOf(s, EdgeOf(AbsoluteGravity(g, s.rtl)))
  }

  /** getDrawerLockMode(View drawerView): the lock mode of the child's own gravity. */
  function GetDrawerLockModeOfChild(s: Layout, i: nat): (r: int)
    requires i < |s.children|
    ensures r == GetDrawerLockMode(s, s.children[i].gravity)
  {
    LockModeOf(s, ChildEdge(s.children[i], s.rtl))
  }

  /** The lock-mode fields after storing `mode` for `edge`: only that edge's field changes. */
  function WithLockMode(s: Layout, edge: Option<Edge>, mode: int): (r: Layout)
    ensures edge.Some? ==> LockModeOf(r, edge) == mode
    ensures forall f :: Some(f) != edge ==> LockModeOf(r, Some(f)) == LockModeOf(s, Some(f))
    ensures r.(lockModeLeft := s.lockModeLeft, lockModeRight := s.lockModeRight,
               lockModeTop := s.lockModeTop, lockModeBottom := s.lockModeBottom) == s
  {
    match edge
    case Some(Left) => s.(lockModeLeft := mode)
    case Some(Right) => s.(lockModeRight := mode)
    case Some(Top) => s.(lockModeTop := mode)
    case Some(Bottom) => s.(lockModeBottom := mode)
    case None => s
  }

  /**
   * The first half of setDrawerLockMode(int lockMode, int edgeGravity):
   * store the mode for the edge, and cancel the edge's helper (BOTTOM's for
   * an unknown gravity) unless the mode is UNLOCKED.
   */
  function LockAndCancel(s: Layout, mode: int, g: bv32): (r: Layout)
    requires Wf(s)
    ensures Wf(r) && r.children == s.children && r.rtl == s.rtl
    ensures r.(lockModeLeft := s.lockModeLeft, lockModeRight := s.lockModeRight, lockModeTop := s.lockModeTop,
               lockModeBottom := s.lockModeBottom, draggers := s.draggers) == s
    ensures var e := RouteOf(EdgeOf(AbsoluteGravity(g, s.rtl)));
            r.draggers.Get(e) == s.draggers.Get(e).(cancels := s.draggers.Get(e).cancels + if mode != LOCK_MODE_UNLOCKED then 1 else 0)
            && forall f :: f != e ==> r.draggers.Get(f) == s.draggers.Get(f)
  {
    var edge := EdgeOf(AbsoluteGravity(g, s.rtl));
    var s1 := WithLockMode(s, edge, mode);
    if mode != LOCK_MODE_UNLOCKED then Cancel(s1, RouteOf(edge)) else s1
  }

  /**
   * setDrawerLockMode(int lockMode, int edgeGravity): after storing the mode
   * and cancelling, open (LOCKED_OPEN) or close (LOCKED_CLOSED) whatever
   * child the lookup by gravity finds; that changes no lock mode.
   */
  function SetDrawerLockMode(s: Layout, mode: int, g: bv32): (r: Effect)
    requires Wf(s)
    ensures Wf(r.state) && |r.state.children| == |s.children|
    ensures SameLocks(r.state, LockAndCancel(s, mode, g)) && r.state.rtl == s.rtl
    ensures var f := FindDrawerWithGravity(s, AbsoluteGravity(g, s.rtl));
            mode == LOCK_MODE_LOCKED_OPEN && f.Some? ==> r == OpenDrawer(LockAndCancel(s, mode, g), f.value)
    ensures var f := FindDrawerWithGravity(s, AbsoluteGravity(g, s.rtl));
            mode == LOCK_MODE_LOCKED_CLOSED && f.Some? ==> r == CloseDrawer(LockAndCancel(s, mode, g), f.value)
    ensures var f := FindDrawerWithGravity(s, AbsoluteGravity(g, s.rtl));
            !((mode == LOCK_MODE_LOCKED_OPEN || mode == LOCK_MODE_LOCKED_CLOSED) && f.Some?) ==>
              r == Effect(LockAndCancel(s, mode, g), Ok)
  {
    var s2 := LockAndCancel(s, mode, g);
    // the lookup reads only the children and the direction, which storing and cancelling keep
    var f := FindDrawerWithGravity(s2, AbsoluteGravity(g, s.rtl));
    assert f == FindDrawerWithGravity(s, AbsoluteGravity(g, s.rtl));
    if f.None? then Effect(s2, Ok)
    else if mode == LOCK_MODE_LOCKED_OPEN then OpenDrawer(s2, f.value)
    else if mode == LOCK_MODE_LOCKED_CLOSED then CloseDrawer(s2, f.value)
    else Effect(s2, Ok)
  }

  /**
   * The lock table: after setting a mode for a gravity the getter returns
   * it for an edge gravity and UNLOCKED for any other, and the other edges
   * keep theirs.
   */
  lemma LockModeTable(s: Layout, mode: int, g: bv32, f: Edge)
    requires Wf(s)
    ensures GetDrawerLockMode(SetDrawerLockMode(s, mode, g).state, g)
            == (if EdgeOf(AbsoluteGravity(g, s.rtl)).Some? then mode else LOCK_MODE_UNLOCKED)
    ensures Some(f) != EdgeOf(AbsoluteGravity(g, s.rtl)) ==>
              LockModeOf(SetDrawerLockMode(s, mode, g).state, Some(f)) == LockModeOf(s, Some(f))
  {
    var edge := EdgeOf(AbsoluteGravity(g, s.rtl));
    var s2 := LockAndCancel(s, mode, g);
    LockAndCancelStores(s, mode, g, f);
    var r := SetDrawerLockMode(s, mode, g).state;
    assert LockModeOf(r, edge) == LockModeOf(s2, edge);
    assert LockModeOf(r, Some(f)) == LockModeOf(s2, Some(f));
  }

  lemma LockAndCancelStores(s: Layout, mode: int, g: bv32, f: Edge)
    requires Wf(s)
    ensures var edge := EdgeOf(AbsoluteGravity(g, s.rtl));
            LockModeOf(LockAndCancel(s, mode, g), edge) == (if edge.Some? then mode else LOCK_MODE_UNLOCKED)
    ensures var edge := EdgeOf(AbsoluteGravity(g, s.rtl));
            Some(f) != edge ==> LockModeOf(LockAndCancel(s, mode, g), Some(f)) == LockModeOf(s, Some(f))
  {
  }

  /** Any mode but UNLOCKED cancels the edge's helper (BOTTOM's for an unknown gravity) exactly once. */
  lemma LockModeCancels(s: Layout, mode: int, g: bv32)
    requires Wf(s)
    ensures var e := RouteOf(EdgeOf(AbsoluteGravity(g, s.rtl)));
            SetDrawerLockMode(s, mode, g).state.draggers.Get(e).cancels
            == s.draggers.Get(e).cancels + (if mode != LOCK_MODE_UNLOCKED then 1 else 0)
  {
  }

  /** Setting the LEFT lock mode stores it and leaves the other three edges' modes alone. */
  lemma SetLeftLockMode(s: Layout, mode: int)
    requires Wf(s)
    ensures var r := SetDrawerLockMode(s, mode, LEFT).state;
            r.lockModeLeft == mode && r.lockModeRight == s.lockModeRight
            && r.lockModeTop == s.lockModeTop && r.lockModeBottom == s.lockModeBottom
  {
    LockModeTable(s, mode, LEFT, Right);
    LockModeTable(s, mode, LEFT, Top);
    LockModeTable(s, mode, LEFT, Bottom);
  }

  /** Setting the RIGHT lock mode stores it and leaves the other three edges' modes alone. */
  lemma SetRightLockMode(s: Layout, mode: int)
    requires Wf(s)
    ensures var r := SetDrawerLockMode(s, mode, RIGHT).state;
            r.lockModeRight == mode && r.lockModeLeft == s.lockModeLeft
            && r.lockModeTop == s.lockModeTop && r.lockModeBottom == s.lockModeBottom
  {
    LockModeTable(s, mode, RIGHT, Left);
    LockModeTable(s, mode, RIGHT, Top);
    LockModeTable(s, mode, RIGHT, Bottom);
  }

  /** Two states agree on the lock modes and on every helper's cancel count. */
  predicate SameLocks(a: Layout, b: Layout) {
    a.lockModeLeft == b.lockModeLeft && a.lockModeRight == b.lockModeRight
    && a.lockModeTop == b.lockModeTop && a.lockModeBottom == b.lockModeBottom
    && forall e :: a.draggers.Get(e).cancels == b.draggers.Get(e).cancels
  }

  /** setDrawerLockMode(int lockMode, View drawerView): only drawer views are accepted. */
  function SetDrawerLockModeForChild(s: Layout, mode: int, i: nat): (r: Effect)
    requires Wf(s) && i < |s.children|
    ensures Wf(r.state) && |r.state.children| == |s.children|
    ensures !IsDrawer(s.children[i], s.rtl) ==> r == Effect(s, Err(NotADrawer(i)))
    ensures IsDrawer(s.children[i], s.rtl) ==> r == SetDrawerLockMode(s, mode, s.children[i].gravity)
  {
    if !IsDrawer(s.children[i], s.rtl) then Effect(s, Err(NotADrawer(i)))
    else SetDrawerLockMode(s, mode, s.children[i].gravity)
  }

  // ---------------------------------------------------------------------
  // Lookups

  /** findDrawerWithGravity: the first child whose absolute gravity has the requested horizontal bits. */
  function FindDrawerWithGravity(s: Layout, g: bv32): (r: Option<nat>)
    ensures r.Some? ==> r.value < |s.children|
                        && HorizontalBits(AbsGravity(s.children[r.value], s.rtl)) == HorizontalBits(AbsoluteGravity(g, s.rtl))
    ensures r.Some? ==> forall j :: 0 <= j < r.value ==>
                          HorizontalBits(AbsGravity(s.children[j], s.rtl)) != HorizontalBits(AbsoluteGravity(g, s.rtl))
    ensures r.None? ==> forall j :: 0 <= j < |s.children| ==>
                          HorizontalBits(AbsGravity(s.children[j], s.rtl)) != HorizontalBits(AbsoluteGravity(g, s.rtl))
  {
    First(s.children, HorizontalGravityIs(HorizontalBits(AbsoluteGravity(g, s.rtl)), s.rtl))
  }

  /** The lookup by gravity does not see changes to a child that keep its gravity. */
  lemma FindIgnoresUpdate(s: Layout, g: bv32, j: nat, c: Child)
    requires j < |s.children| && c.gravity == s.children[j].gravity
    ensures FindDrawerWithGravity(s.(children := s.children[j := c]), g) == FindDrawerWithGravity(s, g)
  {
    FirstIgnoresUpdate(s.children, HorizontalGravityIs(HorizontalBits(AbsoluteGravity(g, s.rtl)), s.rtl), j, c);
  }

  /** findOpenDrawer */
  function FindOpenDrawer(s: Layout): (r: Option<nat>)
    ensures r.Some? ==> r.value < |s.children| && s.children[r.value].knownOpen
                        && forall j :: 0 <= j < r.value ==> !s.children[j].knownOpen
    ensures r.None? ==> forall j :: 0 <= j < |s.children| ==> !s.children[j].knownOpen
  {
    First(s.children, IsKnownOpen())
  }

  /** hasPeekingDrawer */
  function HasPeekingDrawer(s: Layout): (r: bool)
    ensures r <==> exists j :: 0 <= j < |s.children| && s.children[j].isPeeking
  {
    First(s.children, IsPeeking()).Some?
  }

  /** findVisibleDrawer */
  function FindVisibleDrawer(s: Layout): (r: Option<nat>)
    ensures r.Some? ==> r.value < |s.children| && IsDrawer(s.children[r.value], s.rtl)
                        && s.children[r.value].onScreen > 0.0
    ensures r.Some? ==> forall j :: 0 <= j < r.value ==> !(IsDrawer(s.children[j], s.rtl) && s.children[j].onScreen > 0.0)
    ensures r.None? ==> forall j :: 0 <= j < |s.children| ==> !(IsDrawer(s.children[j], s.rtl) && s.children[j].onScreen > 0.0)
  {
    First(s.children, IsVisibleDrawer(s.rtl))
  }

  /** isDrawerOpen(View): whether a drawer is known to be open; only drawer views are accepted. */
  function IsDrawerOpen(s: Layout, i: nat): (r: Result<bool>)
    requires i < |s.children|
    ensures r.Thrown? <==> !IsDrawer(s.children[i], s.rtl)
    ensures r.Thrown? ==> r.failure == NotADrawer(i)
    ensures r.Value? ==> r.value == s.children[i].knownOpen
  {
    if !IsDrawer(s.children[i], s.rtl) then Thrown(NotADrawer(i)) else Value(s.children[i].knownOpen)
  }

  /** isDrawerVisible(View): whether any part of a drawer is on screen; only drawer views are accepted. */
  function IsDrawerVisible(s: Layout, i: nat): (r: Result<bool>)
    requires i < |s.children|
    ensures r.Thrown? <==> !IsDrawer(s.children[i], s.rtl)
    ensures r.Thrown? ==> r.failure == NotADrawer(i)
    ensures r.Value? ==> (r.value <==> s.children[i].onScreen > 0.0)
  {
    if !IsDrawer(s.children[i], s.rtl) then Thrown(NotADrawer(i)) else Value(s.children[i].onScreen > 0.0)
  }

  /** isDrawerOpen(int gravity): false when no child has the gravity, otherwise the child's answer. */
  function IsDrawerOpenWithGravity(s: Layout, g: bv32): (r: Result<bool>)
    ensures FindDrawerWithGravity(s, g).None? ==> r == Value(false)
    ensures FindDrawerWithGravity(s, g).Some? ==> r == IsDrawerOpen(s, FindDrawerWithGravity(s, g).value)
  {
    match FindDrawerWithGravity(s, g)
    case None => Value(false)
    case Some(i) => IsDrawerOpen(s, i)
  }

  /** isDrawerVisible(int gravity): false when no child has the gravity, otherwise the child's answer. */
  function IsDrawerVisibleWithGravity(s: Layout, g: bv32): (r: Result<bool>)
    ensures FindDrawerWithGravity(s, g).None? ==> r == Value(false)
    ensures FindDrawerWithGravity(s, g).Some? ==> r == IsDrawerVisible(s, FindDrawerWithGravity(s, g).value)
  {
    match FindDrawerWithGravity(s, g)
    case None => Value(false)
    case Some(i) => IsDrawerVisible(s, i)
  }

  /**
   * The queries by gravity answer for the first child with the gravity's
   * horizontal bits, and throw exactly when that child is not a drawer.
   */
  lemma QueryByGravityThrowsOnlyForContent(s: Layout, g: bv32)
    requires |s.children| > 0 && IsContent(s.children[0])
    requires g == TOP || g == BOTTOM
    ensures IsDrawerOpenWithGravity(s, g) == Thrown(NotADrawer(0))
    ensures IsDrawerVisibleWithGravity(s, g) == Thrown(NotADrawer(0))
  {
    VerticalLookupFindsContentFirst(s.children, s.rtl, g);
    ContentIsNotADrawer(s.children[0], s.rtl);
  }

  // ---------------------------------------------------------------------
  // Programmatic open and close

  /**
   * openDrawer(View): only a drawer view is accepted. Before the first
   * layout the drawer is marked fully and known open at once; afterwards the
   * helper of its edge is asked to settle it at the open target.
   */
  function OpenDrawer(s: Layout, i: nat): (r: Effect)
    requires Wf(s) && i < |s.children|
    ensures Wf(r.state) && |r.state.children| == |s.children|
    ensures r.outcome == (if IsDrawer(s.children[i], s.rtl) then Ok else Err(NotADrawer(i)))
    ensures SameLocks(r.state, s)
    ensures !IsDrawer(s.children[i], s.rtl) ==> r.state == s
    ensures IsDrawer(s.children[i], s.rtl) && s.firstLayout ==>
              r.state == s.(children := s.children[i := s.children[i].(onScreen := 1.0, knownOpen := true)])
    ensures IsDrawer(s.children[i], s.rtl) && !s.firstLayout ==>
              var c := s.children[i];
              var edge := ChildEdge(c, s.rtl);
              r.state == SmoothSlide(s, RouteOf(edge), i, OpenTarget(edge, c.bounds, s.width, s.height))
  {
    var c := s.children[i];
    if !IsDrawer(c, s.rtl) then Effect(s, Err(NotADrawer(i)))
    else if s.firstLayout then
      Effect(s.(children := s.children[i := c.(onScreen := 1.0, knownOpen := true)]), Ok)
    else
      var edge := ChildEdge(c, s.rtl);
      Effect(SmoothSlide(s, RouteOf(edge), i, OpenTarget(edge, c.bounds, s.width, s.height)), Ok)
  }

  /**
   * closeDrawer(View): only a drawer view is accepted. Before the first
   * layout the drawer is marked fully and known closed at once; afterwards
   * the helper of its edge is asked to settle it at the closed position.
   */
  function CloseDrawer(s: Layout, i: nat): (r: Effect)
    requires Wf(s) && i < |s.children|
    ensures Wf(r.state) && |r.state.children| == |s.children|
    ensures r.outcome == (if IsDrawer(s.children[i], s.rtl) then Ok else Err(NotADrawer(i)))
    ensures SameLocks(r.state, s)
    ensures forall f :: r.state.draggers.Get(f).peekPending == s.draggers.Get(f).peekPending
    ensures !IsDrawer(s.children[i], s.rtl) ==> r.state == s
    ensures IsDrawer(s.children[i], s.rtl) && s.firstLayout ==>
              r.state == s.(children := s.children[i := s.children[i].(onScreen := 0.0, knownOpen := false)])
    ensures IsDrawer(s.children[i], s.rtl) && !s.firstLayout ==>
              var c := s.children[i];
              var e := RouteOf(ChildEdge(c, s.rtl));
              r.state == SmoothSlide(s, e, i, ClosedPosition(e, c.bounds, s.width, s.height))
  {
    var c := s.children[i];
    if !IsDrawer(c, s.rtl) then Effect(s, Err(NotADrawer(i)))
    else if s.firstLayout then
      Effect(s.(children := s.children[i := c.(onScreen := 0.0, knownOpen := false)]), Ok)
    else
      var edge := ChildEdge(c, s.rtl);
      Effect(SmoothSlide(s, RouteOf(edge), i, CloseTarget(edge, c.bounds, s.width, s.height)), Ok)
  }

  /** openDrawer(int gravity): the lookup's child is opened; no match throws with the gravity's name. */
  function OpenDrawerWithGravity(s: Layout, g: bv32): (r: Effect)
    requires Wf(s)
    ensures Wf(r.state) && |r.state.children| == |s.children|
    ensures FindDrawerWithGravity(s, g).None? ==> r == Effect(s, Err(NoDrawerWithGravity(GravityToString(g))))
    ensures FindDrawerWithGravity(s, g).Some? ==> r == OpenDrawer(s, FindDrawerWithGravity(s, g).value)
  {
    match FindDrawerWithGravity(s, g)
    case None => Effect(s, Err(NoDrawerWithGravity(GravityToString(g))))
    case Some(i) => OpenDrawer(s, i)
  }

  /** closeDrawer(int gravity): the lookup's child is closed; no match throws with the gravity's name. */
  function CloseDrawerWithGravity(s: Layout, g: bv32): (r: Effect)
    requires Wf(s)
    ensures Wf(r.state) && |r.state.children| == |s.children|
    ensures FindDrawerWithGravity(s, g).None? ==> r == Effect(s, Err(NoDrawerWithGravity(GravityToString(g))))
    ensures FindDrawerWithGravity(s, g).Some? ==> r == CloseDrawer(s, FindDrawerWithGravity(s, g).value)
  {
    match FindDrawerWithGravity(s, g)
    case None => Effect(s, Err(NoDrawerWithGravity(GravityToString(g))))
    case Some(i) => CloseDrawer(s, i)
  }

  /**
   * Opening by TOP or BOTTOM while the content view is the first child
   * throws: the lookup finds the content view, which is not a drawer.
   */
  lemma VerticalOpenHitsContent(s: Layout, g: bv32)
    requires Wf(s) && (g == TOP || g == BOTTOM)
    requires |s.children| > 0 && IsContent(s.children[0])
    ensures OpenDrawerWithGravity(s, g) == Effect(s, Err(NotADrawer(0)))
    ensures CloseDrawerWithGravity(s, g) == Effect(s, Err(NotADrawer(0)))
  {
    VerticalLookupFindsContentFirst(s.children, s.rtl, g);
    ContentIsNotADrawer(s.children[0], s.rtl);
  }

  // ---------------------------------------------------------------------
  // closeDrawers

  /** Whether closeDrawers(peekingOnly) acts on a child. */
  predicate Touched(c: Child, peekingOnly: bool, rtl: bool) {
    IsDrawer(c, rtl) && (!peekingOnly || c.isPeeking)
  }

  /**
   * The settle request closeDrawers sends for child `j`: LEFT and RIGHT
   * drawers to their closed position, every other one to (width, top).
   */
  function CloseDrawersRequest(s: Layout, j: nat): (q: SettleRequest)
    requires j < |s.children|
    ensures q.child == j && q.top == s.children[j].bounds.top
    ensures Horizontal(ChildEdge(s.children[j], s.rtl)) ==>
              Point(q.left, q.top) == ClosedPosition(ChildEdge(s.children[j], s.rtl).value, s.children[j].bounds, s.width, 0)
    ensures !Horizontal(ChildEdge(s.children[j], s.rtl)) ==> q.left == s.width
  {
    var c := s.children[j];
    var p := CloseDrawersTarget(ChildEdge(c, s.rtl), c.bounds, s.width);
    SettleRequest(j, p.x, p.y)
  }

  /** The helper closeDrawers' `switch (absGravity)` asks to move child `c`. */
  function CloseRoute(c: Child, rtl: bool): Edge {
    RouteOf(ChildEdge(c, rtl))
  }

  /**
   * One iteration of closeDrawers' loop, for child `i`: a drawer it acts on
   * stops peeking, and its helper captures it and is asked to settle it at
   * its close target; any other child leaves everything as it was.
   */
  function CloseDrawersStep(s: Layout, peekingOnly: bool, i: nat): (r: Layout)
    requires Wf(s) && i < |s.children|
    ensures Wf(r) && |r.children| == |s.children|
    ensures r.children == if Touched(s.children[i], peekingOnly, s.rtl)
                          then s.children[i := s.children[i].(isPeeking := false)] else s.children
    ensures var e := CloseRoute(s.children[i], s.rtl);
            r.draggers == if Touched(s.children[i], peekingOnly, s.rtl)
                          then s.draggers.Set(e, s.draggers.Get(e).(captured := Some(i), request := Some(CloseDrawersRequest(s, i))))
                          else s.draggers
    ensures r.(children := s.children, draggers := s.draggers) == s
  {
    var c := s.children[i];
    if !Touched(c, peekingOnly, s.rtl) then s
    else
      var edge := ChildEdge(c, s.rtl);
      var s1 := SmoothSlide(s, RouteOf(edge), i, CloseDrawersTarget(edge, c.bounds, s.width));
      s1.(children := s1.children[i := c.(isPeeking := false)])
  }

  /** closeDrawers' loop over the first `n` children. */
  function CloseDrawersUpTo(s: Layout, peekingOnly: bool, n: nat): (r: Layout)
    requires Wf(s) && n <= |s.children|
    ensures Wf(r) && |r.children| == |s.children|
    ensures r.(children := s.children, draggers := s.draggers) == s
    decreases n
  {
    if n == 0 then s else CloseDrawersStep(CloseDrawersUpTo(s, peekingOnly, n - 1), peekingOnly, n - 1)
  }

  /** closeDrawers(boolean peekingOnly): the loop, then every edge's pending peek is removed. */
  function CloseDrawers(s: Layout, peekingOnly: bool): (r: Layout)
    requires Wf(s)
    ensures Wf(r) && |r.children| == |s.children|
    ensures r.(children := s.children, draggers := s.draggers) == s
    ensures forall e :: !r.draggers.Get(e).peekPending
  {
    RemoveAllCallbacks(CloseDrawersUpTo(s, peekingOnly, |s.children|))
  }

  /**
   * What the loop does to the children: after `n` iterations, each of the
   * first `n` children that the loop acts on has stopped peeking, and every
   * other child is as it was. Nothing but children and helpers changes.
   */
  lemma {:induction false} CloseDrawersUpToChildren(s: Layout, peekingOnly: bool, n: nat)
    requires Wf(s) && n <= |s.children|
    ensures var r := CloseDrawersUpTo(s, peekingOnly, n);
            forall j :: 0 <= j < |s.children| ==>
              r.children[j] == (if j < n && Touched(s.children[j], peekingOnly, s.rtl)
                                then s.children[j].(isPeeking := false) else s.children[j])
    ensures var r := CloseDrawersUpTo(s, peekingOnly, n);
            r.(children := s.children, draggers := s.draggers) == s
    decreases n
  {
    if n > 0 {
      CloseDrawersUpToChildren(s, peekingOnly, n - 1);
    }
  }

  /**
   * closeDrawers(peekingOnly) acts on exactly the drawers (the peeking ones
   * when `peekingOnly`), each of which ends not peeking; no other child and
   * nothing but the helpers changes.
   */
  lemma CloseDrawersChildren(s: Layout, peekingOnly: bool)
    requires Wf(s)
    ensures var r := CloseDrawers(s, peekingOnly);
            forall j :: 0 <= j < |s.children| ==>
              r.children[j] == (if Touched(s.children[j], peekingOnly, s.rtl)
                                then s.children[j].(isPeeking := false) else s.children[j])
    ensures CloseDrawers(s, peekingOnly).(children := s.children, draggers := s.draggers) == s
  {
    CloseDrawersUpToChildren(s, peekingOnly, |s.children|);
  }

  /** After closeDrawers only a non-drawer child can still be peeking. */
  lemma CloseDrawersLeavesNoPeekingDrawer(s: Layout, peekingOnly: bool, j: nat)
    requires Wf(s) && j < |s.children|
    requires CloseDrawers(s, peekingOnly).children[j].isPeeking
    ensures !IsDrawer(s.children[j], s.rtl) && s.children[j].isPeeking
  {
    CloseDrawersChildren(s, peekingOnly);
  }

  /**
   * The last of the first `n` children that closeDrawers acts on through
   * edge `e`'s helper, if any.
   */
  function LastClosedThrough(s: Layout, peekingOnly: bool, e: Edge, n: nat): (r: Option<nat>)
    requires n <= |s.children|
    ensures r.Some? ==> r.value < n && Touched(s.children[r.value], peekingOnly, s.rtl)
                        && CloseRoute(s.children[r.value], s.rtl) == e
    ensures r.Some? ==> forall j :: r.value < j < n ==>
                          !(Touched(s.children[j], peekingOnly, s.rtl) && CloseRoute(s.children[j], s.rtl) == e)
    ensures r.None? ==> forall j :: 0 <= j < n ==>
                          !(Touched(s.children[j], peekingOnly, s.rtl) && CloseRoute(s.children[j], s.rtl) == e)
    decreases n
  {
    if n == 0 then None
    else if Touched(s.children[n - 1], peekingOnly, s.rtl) && CloseRoute(s.children[n - 1], s.rtl) == e then Some(n - 1)
    else LastClosedThrough(s, peekingOnly, e, n - 1)
  }

  /**
   * Edge `e`'s helper `d`, once the loop has passed the first `n` children
   * of `s`: it holds the close request of the last of them routed to it, or
   * is `d0` when none was; its phase and cancel count are `d0`'s.
   */
  predicate AskedToClose(s: Layout, peekingOnly: bool, e: Edge, n: nat, d0: EdgeController, d: EdgeController)
    requires n <= |s.children|
  {
    var last := LastClosedThrough(s, peekingOnly, e, n);
    d.phase == d0.phase && d.cancels == d0.cancels
    && (last.None? ==> d == d0)
    && (last.Some? ==> d.captured == Some(last.value) && d.request == Some(CloseDrawersRequest(s, last.value)))
  }

  /** One iteration seen from edge `e`'s helper. */
  lemma CloseDrawersStepHelper(s: Layout, peekingOnly: bool, i: nat, e: Edge)
    requires Wf(s) && i < |s.children|
    ensures var d := CloseDrawersStep(s, peekingOnly, i).draggers.Get(e);
            d == if Touched(s.children[i], peekingOnly, s.rtl) && CloseRoute(s.children[i], s.rtl) == e
                 then s.draggers.Get(e).(captured := Some(i), request := Some(CloseDrawersRequest(s, i)))
                 else s.draggers.Get(e)
  {
  }

  /**
   * What the loop asks of the helpers: after `n` iterations, edge `e`'s
   * helper holds the close request of the last child it was asked to move,
   * or is as it was when it was asked nothing; its phase, cancel count and
   * pending peek never change.
   */
  lemma {:induction false} CloseDrawersUpToRequests(s: Layout, peekingOnly: bool, e: Edge, n: nat)
    requires Wf(s) && n <= |s.children|
    ensures AskedToClose(s, peekingOnly, e, n, s.draggers.Get(e), CloseDrawersUpTo(s, peekingOnly, n).draggers.Get(e))
    ensures CloseDrawersUpTo(s, peekingOnly, n).draggers.Get(e).peekPending == s.draggers.Get(e).peekPending
    decreases n
  {
    if n > 0 {
      CloseDrawersUpToRequests(s, peekingOnly, e, n - 1);
      CloseDrawersUpToChildren(s, peekingOnly, n - 1);
      var t := CloseDrawersUpTo(s, peekingOnly, n - 1);
      assert t.children[n - 1] == s.children[n - 1];
      AskedToCloseStep(s, peekingOnly, e, n, t);
    }
  }

  /** The induction step of CloseDrawersUpToRequests, for `t`, the state after `n - 1` iterations. */
  lemma AskedToCloseStep(s: Layout, peekingOnly: bool, e: Edge, n: nat, t: Layout)
    requires Wf(s) && Wf(t) && 0 < n <= |s.children| == |t.children|
    requires t.children[n - 1] == s.children[n - 1] && t.rtl == s.rtl && t.width == s.width
    requires AskedToClose(s, peekingOnly, e, n - 1, s.draggers.Get(e), t.draggers.Get(e))
    ensures AskedToClose(s, peekingOnly, e, n, s.draggers.Get(e), CloseDrawersStep(t, peekingOnly, n - 1).draggers.Get(e))
    ensures CloseDrawersStep(t, peekingOnly, n - 1).draggers.Get(e).peekPending == t.draggers.Get(e).peekPending
  {
    CloseDrawersStepHelper(t, peekingOnly, n - 1, e);
    AskedToCloseNext(s, peekingOnly, e, n, t, t.draggers.Get(e), CloseDrawersStep(t, peekingOnly, n - 1).draggers.Get(e));
  }

  /** The same step stated on the helper before (`dt`) and after (`d`) iteration `n - 1`. */
  lemma AskedToCloseNext(s: Layout, peekingOnly: bool, e: Edge, n: nat, t: Layout, dt: EdgeController, d: EdgeController)
    requires Wf(s) && Wf(t) && 0 < n <= |s.children| == |t.children|
    requires t.children[n - 1] == s.children[n - 1] && t.rtl == s.rtl && t.width == s.width
    requires AskedToClose(s, peekingOnly, e, n - 1, s.draggers.Get(e), dt)
    requires d == if Touched(t.children[n - 1], peekingOnly, t.rtl) && CloseRoute(t.children[n - 1], t.rtl) == e
                  then dt.(captured := Some(n - 1), request := Some(CloseDrawersRequest(t, n - 1)))
                  else dt
    ensures AskedToClose(s, peekingOnly, e, n, s.draggers.Get(e), d) && d.peekPending == dt.peekPending
  {
    var c := s.children[n - 1];
    if Touched(c, peekingOnly, s.rtl) && CloseRoute(c, s.rtl) == e {
      assert CloseDrawersRequest(t, n - 1) == CloseDrawersRequest(s, n - 1);
    } else {
      assert LastClosedThrough(s, peekingOnly, e, n) == LastClosedThrough(s, peekingOnly, e, n - 1);
    }
  }

  /**
   * closeDrawers asks every helper to settle the last child routed to it at
   * that child's close target, and leaves a helper that was asked nothing as
   * it was, apart from its pending peek, which is removed.
   */
  lemma CloseDrawersRequests(s: Layout, peekingOnly: bool, e: Edge)
    requires Wf(s)
    ensures var d := CloseDrawers(s, peekingOnly).draggers.Get(e);
            var d0 := s.draggers.Get(e);
            var last := LastClosedThrough(s, peekingOnly, e, |s.children|);
            d.phase == d0.phase && d.cancels == d0.cancels && !d.peekPending
            && (last.None? ==> d == d0.(peekPending := false))
            && (last.Some? ==> d.captured == Some(last.value) && d.request == Some(CloseDrawersRequest(s, last.value)))
  {
    CloseDrawersUpToRequests(s, peekingOnly, e, |s.children|);
    assert AskedToClose(s, peekingOnly, e, |s.children|, s.draggers.Get(e), CloseDrawersUpTo(s, peekingOnly, |s.children|).draggers.Get(e));
  }

  /**
   * A drawer closeDrawers acts on, with no later such drawer on the same
   * helper, is the one that helper is left asked to settle at its close
   * target.
   */
  lemma CloseDrawersAsksDrawerToClose(s: Layout, peekingOnly: bool, j: nat)
    requires Wf(s) && j < |s.children| && Touched(s.children[j], peekingOnly, s.rtl)
    requires forall k :: j < k < |s.children| && Touched(s.children[k], peekingOnly, s.rtl) ==>
               CloseRoute(s.children[k], s.rtl) != CloseRoute(s.children[j], s.rtl)
    ensures CloseDrawers(s, peekingOnly).draggers.Get(CloseRoute(s.children[j], s.rtl)).request
            == Some(CloseDrawersRequest(s, j))
  {
    var e := CloseRoute(s.children[j], s.rtl);
    CloseDrawersRequests(s, peekingOnly, e);
    var last := LastClosedThrough(s, peekingOnly, e, |s.children|);
    assert last.Some?;
    assert last.value == j;
  }

  /** With no peeking child, closeDrawers(true) does nothing but remove the pending peeks. */
  lemma {:induction false} PeekingOnlyWithoutPeekers(s: Layout, n: nat)
    requires Wf(s) && n <= |s.children|
    requires forall j :: 0 <= j < |s.children| ==> !s.children[j].isPeeking
    ensures CloseDrawersUpTo(s, true, n) == s
    decreases n
  {
    if n > 0 {
      PeekingOnlyWithoutPeekers(s, n - 1);
    }
  }
}
