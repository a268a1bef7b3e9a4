/**
 * The per-child record of the drawer container (its layout params plus the
 * parts of the child view the container reads), the abstract per-edge drag
 * helper, the events a drawer listener observes, and the pure rules over
 * them: the drag-state fold, the first-match searches, the settle targets of
 * the programmatic open/close paths and the scrim maximum.
 */
module Drawers {

  import opened Common
  import opened Gravity
  import opened Geometry

  // ---------------------------------------------------------------------
  // Drag phases and the aggregate drawer state

  /** ViewDragHelper's drag state of one edge. */
  datatype DragPhase = Idle | Dragging | Settling

  /** STATE_IDLE, STATE_DRAGGING and STATE_SETTLING as the listener receives them. */
  function StateCode(p: DragPhase): (code: int)
    ensures 0 <= code <= 2
    ensures p == Idle <==> code == 0
  {
    match p
    case Idle => 0
    case Dragging => 1
    case Settling => 2
  }

  /** How strongly a phase dominates the aggregate: dragging beats settling beats idle. */
  function Priority(p: DragPhase): nat {
    match p
    case Idle => 0
    case Settling => 1
    case Dragging => 2
  }

  /**
   * updateDrawerState's fold of the four edge phases: DRAGGING if any edge
   * drags, else SETTLING if any settles, else IDLE. Equivalently, the input
   * of highest priority.
   */
  function Aggregate(l: DragPhase, r: DragPhase, t: DragPhase, b: DragPhase): (s: DragPhase)
    ensures s == l || s == r || s == t || s == b
    ensures Priority(s) >= Priority(l) && Priority(s) >= Priority(r)
    ensures Priority(s) >= Priority(t) && Priority(s) >= Priority(b)
  {
    if l == Dragging || r == Dragging || t == Dragging || b == Dragging then Dragging
    else if l == Settling || r == Settling || t == Settling || b == Settling then Settling
    else assert l.Idle?; Idle
  }

  /** The aggregate is idle exactly when every edge is idle, and it does not depend on the edges' order. */
  lemma AggregateIdleIffAllIdle(l: DragPhase, r: DragPhase, t: DragPhase, b: DragPhase)
    ensures Aggregate(l, r, t, b) == Idle <==> l == Idle && r == Idle && t == Idle && b == Idle
    ensures Aggregate(l, r, t, b) == Aggregate(b, t, r, l)
  {
    var s := Aggregate(l, r, t, b);
    if s == Idle {
      assert Priority(l) == 0 && Priority(r) == 0 && Priority(t) == 0 && Priority(b) == 0;
    }
  }

  // ---------------------------------------------------------------------
  // Children

  /** View.VISIBLE, View.INVISIBLE and View.GONE. */
  datatype Visibility = Visible | Invisible | Gone

  /**
   * One child of the container: its layout params (gravity, openness
   * `onScreen`, `isPeeking`, `knownOpen`, margins), its current frame and the
   * size it was measured at. Children are identified by their index.
   */
  datatype Child = Child(
    gravity: bv32,
    onScreen: real,
    isPeeking: bool,
    knownOpen: bool,
    bounds: Bounds,
    measuredWidth: nat,
    measuredHeight: nat,
    margins: Margins,
    visibility: Visibility)

  /**
   * getDrawerViewAbsoluteGravity: the child's gravity resolved against the
   * layout direction; it never keeps the relative flag, and an absolute
   * gravity is kept as it is.
   */
  function AbsGravity(c: Child, rtl: bool): (g: bv32)
    ensures g & RELATIVE_LAYOUT_DIRECTION == 0
    ensures c.gravity & RELATIVE_LAYOUT_DIRECTION == 0 ==> g == c.gravity
    ensures c.gravity == START ==> g == (if rtl then RIGHT else LEFT)
    ensures c.gravity == END ==> g == (if rtl then LEFT else RIGHT)
  {
    AbsoluteGravity(c.gravity, rtl)
  }

  /**
   * isDrawerView: the absolute gravity has a bit of an edge. The content
   * view never is one; a child on an exact edge always is.
   */
  predicate IsDrawer(c: Child, rtl: bool)
    ensures IsContent(c) ==> !IsDrawer(c, rtl)
    ensures EdgeOf(AbsGravity(c, rtl)).Some? ==> IsDrawer(c, rtl)
  {
    IsDrawerGravity(AbsGravity(c, rtl))
  }

  /** isContentView */
  predicate IsContent(c: Child) {
    IsContentGravity(c.gravity)
  }

  /** The edge a child's absolute gravity selects in the container's `switch` statements. */
  function ChildEdge(c: Child, rtl: bool): Option<Edge> {
    EdgeOf(AbsGravity(c, rtl))
  }

  /** The content view is never a drawer, and a child with an exact edge gravity always is. */
  lemma ContentIsNotADrawer(c: Child, rtl: bool)
    ensures IsContent(c) ==> !IsDrawer(c, rtl)
    ensures ChildEdge(c, rtl).Some? ==> IsDrawer(c, rtl) && !IsContent(c)
  {
    if ChildEdge(c, rtl).Some? {
      var e := ChildEdge(c, rtl).value;
      assert AbsGravity(c, rtl) == EdgeGravity(e);
      if c.gravity & RELATIVE_LAYOUT_DIRECTION == 0 {
        assert c.gravity == AbsGravity(c, rtl);
      }
    }
  }

  // ---------------------------------------------------------------------
  // First-match search over the children

  /**
   * The index of the first child satisfying `p`: the shape of every
   * "for each child, return the first that ..." loop of the container.
   */
  function First(cs: seq<Child>, p: Child -> bool): (r: Option<nat>)
    ensures r.Some? ==> r.value < |cs| && p(cs[r.value])
    ensures r.Some? ==> forall j :: 0 <= j < r.value ==> !p(cs[j])
    ensures r.None? ==> forall j :: 0 <= j < |cs| ==> !p(cs[j])
  {
    if cs == [] then None
    else if p(cs[0]) then Some(0)
    else
      match First(cs[1..], p)
      case None => None
      case Some(k) => Some(k + 1)
  }

  /** The first match is the index a search loop stops at, or none when the loop runs out. */
  lemma FirstIs(cs: seq<Child>, p: Child -> bool, r: Option<nat>)
    requires r.Some? ==> r.value < |cs| && p(cs[r.value]) && forall j :: 0 <= j < r.value ==> !p(cs[j])
    requires r.None? ==> forall j :: 0 <= j < |cs| ==> !p(cs[j])
    ensures First(cs, p) == r
  {
  }

  /** Replacing a child by one the test judges alike does not change the first match. */
  lemma FirstIgnoresUpdate(cs: seq<Child>, p: Child -> bool, j: nat, c: Child)
    requires j < |cs| && p(c) == p(cs[j])
    ensures First(cs[j := c], p) == First(cs, p)
  {
    var ds := cs[j := c];
    assert forall k :: 0 <= k < |cs| ==> p(ds[k]) == p(cs[k]);
  }

  /** findDrawerWithGravity's test: the child's absolute gravity has the given horizontal bits. */
  function HorizontalGravityIs(hg: bv32, rtl: bool): Child -> bool {
    c => HorizontalBits(AbsGravity(c, rtl)) == hg
  }

  /** findOpenDrawer's test. */
  function IsKnownOpen(): Child -> bool {
    (c: Child) => c.knownOpen
  }

  /** hasPeekingDrawer's test. */
  function IsPeeking(): Child -> bool {
    (c: Child) => c.isPeeking
  }

  /** findVisibleDrawer's test: a drawer with some openness. */
  function IsVisibleDrawer(rtl: bool): Child -> bool {
    c => IsDrawer(c, rtl) && c.onScreen > 0.0
  }

  /** onSaveInstanceState's test: a drawer known to be open. */
  function IsOpenDrawer(rtl: bool): Child -> bool {
    c => IsDrawer(c, rtl) && c.knownOpen
  }

  /**
   * The lookup by gravity cannot tell TOP from BOTTOM from NO_GRAVITY: when
   * the content view comes first, a TOP or BOTTOM request finds it.
   */
  lemma VerticalLookupFindsContentFirst(cs: seq<Child>, rtl: bool, g: bv32)
    requires g == TOP || g == BOTTOM
    requires |cs| > 0 && IsContent(cs[0])
    ensures First(cs, HorizontalGravityIs(HorizontalBits(AbsoluteGravity(g, rtl)), rtl)) == Some(0)
  {
    assert AbsoluteGravity(g, rtl) == g;
    assert AbsGravity(cs[0], rtl) == NO_GRAVITY;
    VerticalEdgesShareHorizontalBits();
  }

  // ---------------------------------------------------------------------
  // The abstract drag helper of one edge

  /** A settle the drag helper was asked to perform: move `child` to (left, top). */
  datatype SettleRequest = SettleRequest(child: nat, left: int, top: int)

  /**
   * What the container can observe of one edge's ViewDragHelper: its phase,
   * the captured child, the last settle it was asked for, how many times it
   * was cancelled, and whether the edge's delayed peek is posted.
   */
  datatype EdgeController = EdgeController(
    phase: DragPhase,
    captured: Option<nat>,
    request: Option<SettleRequest>,
    cancels: nat,
    peekPending: bool)

  /** A freshly created, idle drag helper. */
  function FreshController(): (d: EdgeController)
    ensures d.phase == Idle && d.captured.None? && d.request.None? && !d.peekPending
  {
    EdgeController(Idle, None, None, 0, false)
  }

  /** The four drag helpers of the container, one per edge. */
  datatype Draggers = Draggers(left: EdgeController, right: EdgeController, top: EdgeController, bottom: EdgeController)
  {
    function Get(e: Edge): EdgeController {
      match e
      case Left => left
      case Right => right
      case Top => top
      case Bottom => bottom
    }

    /** This set of helpers with the one of edge `e` replaced. */
    function Set(e: Edge, d: EdgeController): (r: Draggers)
      ensures r.Get(e) == d
      ensures forall f :: f != e ==> r.Get(f) == Get(f)
    {
      match e
      case Left => this.(left := d)
      case Right => this.(right := d)
      case Top => this.(top := d)
      case Bottom => this.(bottom := d)
    }

    /** Every captured child and every settle request names one of `n` children. */
    predicate Fits(n: nat) {
      ControllerFits(left, n) && ControllerFits(right, n) && ControllerFits(top, n) && ControllerFits(bottom, n)
    }
  }

  predicate ControllerFits(d: EdgeController, n: nat) {
    (d.captured.Some? ==> d.captured.value < n) && (d.request.Some? ==> d.request.value.child < n)
  }

  lemma FitsGet(ds: Draggers, n: nat, e: Edge)
    requires ds.Fits(n)
    ensures ControllerFits(ds.Get(e), n)
  {
  }

  /** smoothSlideViewTo / settleCapturedViewAt: the helper captures `child` and records where it must settle. */
  function Slide(d: EdgeController, child: nat, target: Point): (r: EdgeController)
    ensures r.captured == Some(child) && r.request == Some(SettleRequest(child, target.x, target.y))
    ensures r.phase == d.phase && r.cancels == d.cancels && r.peekPending == d.peekPending
  {
    d.(captured := Some(child), request := Some(SettleRequest(child, target.x, target.y)))
  }

  /** The drag helper a `switch (absGravity)` of the container uses: the edge's own, BOTTOM's by default. */
  function RouteOf(edge: Option<Edge>): (e: Edge)
    ensures edge.Some? ==> e == edge.value
    ensures edge.None? ==> e == Bottom
  {
    match edge
    case Some(x) => x
    case None => Bottom
  }

  // ---------------------------------------------------------------------
  // Settle targets of the programmatic open/close paths

  /**
   * The target openDrawer hands the drag helper when not in first layout.
   * LEFT, RIGHT and TOP use the fully open position; BOTTOM (and an
   * unmatched gravity) passes the open position with its two coordinates
   * swapped.
   */
  function OpenTarget(edge: Option<Edge>, b: Bounds, width: int, height: int): (p: Point)
    ensures edge == Some(Left) || edge == Some(Right) || edge == Some(Top) ==>
              p == OpenPosition(edge.value, b, width, height)
    ensures edge == Some(Bottom) || edge.None? ==>
              p == Point(OpenPosition(Bottom, b, width, height).y, OpenPosition(Bottom, b, width, height).x)
  {
    match edge
    case Some(Left) => Point(0, b.top)
    case Some(Right) => Point(width - b.width, b.top)
    case Some(Top) => Point(b.left, 0)
    case _ => Point(height - b.height, b.left)
  }

  /**
   * Where the swapped BOTTOM target puts a drawer: its top goes to its own
   * left coordinate, so it shows `height - left` pixels, and the target is
   * the open position only when the left happens to equal the open top.
   * A drawer flush with the left edge is sent to top 0, fully over the
   * container.
   */
  lemma BottomOpenTargetOvershoots(b: Bounds, width: int, height: int)
    ensures var p := OpenTarget(Some(Bottom), b, width, height);
            p == Point(height - b.height, b.left)
            && (p == OpenPosition(Bottom, b, width, height) <==> b.left == height - b.height)
            && Shown(Some(Bottom), p.x, p.y, b.width, b.height, width, height) == height - b.left
  {
  }

  /** The target closeDrawer hands the drag helper: the fully closed position of the helper's edge. */
  function CloseTarget(edge: Option<Edge>, b: Bounds, width: int, height: int): (p: Point)
    ensures p == ClosedPosition(RouteOf(edge), b, width, height)
  {
    match edge
    case Some(Left) => Point(-(b.width as int), b.top)
    case Some(Right) => Point(width, b.top)
    case Some(Top) => Point(b.left, -(b.height as int))
    case _ => Point(b.left, height)
  }

  /**
   * The target closeDrawers hands the drag helper: LEFT drawers go to their
   * closed position, every other drawer to (container width, current top).
   */
  function CloseDrawersTarget(edge: Option<Edge>, b: Bounds, width: int): (p: Point)
    ensures Horizontal(edge) ==> p == ClosedPosition(edge.value, b, width, 0)
    ensures p.y == b.top
  {
    match edge
    case Some(Left) => Point(-(b.width as int), b.top)
    case _ => Point(width, b.top)
  }

  /**
   * For TOP, BOTTOM and unmatched drawers closeDrawers' target keeps the
   * drawer's top, so the openness it settles at is the one it already had:
   * such drawers are not closed by closeDrawers.
   */
  lemma CloseDrawersKeepsVerticalOpenness(edge: Option<Edge>, b: Bounds, width: int, height: int)
    requires !Horizontal(edge) && ExtentPositive(edge, b.width, b.height)
    ensures var p := CloseDrawersTarget(edge, b, width);
            OffsetForPosition(edge, p.x, p.y, b.width, b.height, width, height)
            == OffsetForPosition(edge, b.left, b.top, b.width, b.height, width, height)
  {
  }

  // ---------------------------------------------------------------------
  // computeScroll's scrim opacity

  function RealMax(a: real, b: real): real { if a >= b then a else b }

  /** The running `Math.max` over the children's openness, starting from 0. */
  function MaxOpenness(cs: seq<Child>): (m: real)
    ensures m >= 0.0
    ensures forall i :: 0 <= i < |cs| ==> cs[i].onScreen <= m
    ensures m == 0.0 || exists i :: 0 <= i < |cs| && cs[i].onScreen == m
  {
    if cs == [] then 0.0
    else RealMax(MaxOpenness(cs[..|cs| - 1]), cs[|cs| - 1].onScreen)
  }

  // ---------------------------------------------------------------------
  // Listener events

  /** A call a registered DrawerListener receives. */
  datatype Event =
    | DrawerSlide(child: nat, offset: real)
    | DrawerOpened(child: nat)
    | DrawerClosed(child: nat)
    | DrawerStateChanged(state: int)

  // ---------------------------------------------------------------------
  // Saved instance state

  /** The snapshot onSaveInstanceState builds. */
  datatype SavedState = SavedState(
    openDrawerGravity: bv32,
    lockModeLeft: int,
    lockModeRight: int,
    lockModeTop: int,
    lockModeBottom: int)
}
