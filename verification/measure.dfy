/**
 * Measuring and laying out the children, the scrim opacity, and the
 * first-layout flag that attaching and detaching reset.
 */
module Measure {

  import opened Common
  import opened Gravity
  import opened Geometry
  import opened Drawers
  import opened Container

  // ---------------------------------------------------------------------
  // onMeasure

  /** MeasureSpec modes. */
  datatype MeasureMode = Exactly | AtMost | Unspecified

  /** A measured width and height. */
  datatype Size = Size(width: int, height: int)

  /** The size edit mode gives an unspecified dimension. */
  const EDIT_MODE_DEFAULT_SIZE: int := 300

  /**
   * The container's own measured size: both dimensions must be EXACTLY,
   * except in edit mode, where AT_MOST keeps its size and UNSPECIFIED
   * becomes 300.
   */
  function MeasuredSize(widthMode: MeasureMode, widthSize: int, heightMode: MeasureMode, heightSize: int,
                        inEditMode: bool): (r: Result<Size>)
    ensures r.Thrown? ==> r.failure == NotMeasuredExactly
    ensures r.Thrown? <==> !inEditMode && (widthMode != Exactly || heightMode != Exactly)
    ensures r.Value? ==> r.value.width == (if widthMode == Unspecified then EDIT_MODE_DEFAULT_SIZE else widthSize)
    ensures r.Value? ==> r.value.height == (if heightMode == Unspecified then EDIT_MODE_DEFAULT_SIZE else heightSize)
  {
    if widthMode != Exactly || heightMode != Exactly then
      if inEditMode then
        Value(Size(if widthMode == Unspecified then EDIT_MODE_DEFAULT_SIZE else widthSize,
                   if heightMode == Unspecified then EDIT_MODE_DEFAULT_SIZE else heightSize))
      else
        Thrown(NotMeasuredExactly)
    else
      Value(Size(widthSize, heightSize))
  }

  /** A child onMeasure rejects: not GONE, and neither the content view nor a drawer. */
  predicate HasInvalidGravity(c: Child, rtl: bool) {
    c.visibility != Gone && !IsContent(c) && !IsDrawer(c, rtl)
  }

  function InvalidGravity(rtl: bool): Child -> bool {
    (c: Child) => HasInvalidGravity(c, rtl)
  }

  /**
   * onMeasure: the container's size, or the exception for the first child
   * with an invalid gravity. Several drawers on the same edge are accepted:
   * the set of edges already seen is never updated, so its check never fires.
   */
  function OnMeasure(s: Layout, widthMode: MeasureMode, widthSize: int, heightMode: MeasureMode, heightSize: int,
                     inEditMode: bool): (r: Result<Size>)
    ensures r.Value? ==> r == MeasuredSize(widthMode, widthSize, heightMode, heightSize, inEditMode)
    ensures MeasuredSize(widthMode, widthSize, heightMode, heightSize, inEditMode).Thrown? ==>
              r == MeasuredSize(widthMode, widthSize, heightMode, heightSize, inEditMode)
    ensures MeasuredSize(widthMode, widthSize, heightMode, heightSize, inEditMode).Value? && r.Thrown? ==>
              r.failure.InvalidLayoutGravity?
    ensures r.Value? <==> MeasuredSize(widthMode, widthSize, heightMode, heightSize, inEditMode).Value?
                          && forall i :: 0 <= i < |s.children| ==> !HasInvalidGravity(s.children[i], s.rtl)
    ensures r.Thrown? && r.failure.InvalidLayoutGravity? ==>
              var i := r.failure.child;
              i < |s.children| && HasInvalidGravity(s.children[i], s.rtl)
              && forall j :: 0 <= j < i ==> !HasInvalidGravity(s.children[j], s.rtl)
  {
    match MeasuredSize(widthMode, widthSize, heightMode, heightSize, inEditMode)
    case Thrown(f) => Thrown(f)
    case Value(size) =>
      match First(s.children, InvalidGravity(s.rtl))
      case Some(i) => Thrown(InvalidLayoutGravity(i))
      case None => Value(size)
  }

  /** onMeasure never throws the duplicate-edge exception, even for two drawers on one edge. */
  lemma MeasureNeverReportsDuplicateEdge(s: Layout, widthMode: MeasureMode, widthSize: int,
                                         heightMode: MeasureMode, heightSize: int, inEditMode: bool)
    ensures var r := OnMeasure(s, widthMode, widthSize, heightMode, heightSize, inEditMode);
            r.Thrown? ==> r.failure == NotMeasuredExactly || r.failure.InvalidLayoutGravity?
  {
  }

  // ---------------------------------------------------------------------
  // onLayout

  /**
   * The top of a CENTER_VERTICAL drawer: centred in the container, then
   * pushed below the top margin, or else above the bottom margin.
   */
  function CenteredTop(height: int, childHeight: nat, m: Margins): (t: int)
    ensures JavaHalf(height - childHeight) < m.top ==> t == m.top
    ensures JavaHalf(height - childHeight) >= m.top && JavaHalf(height - childHeight) + childHeight > height - m.bottom
            ==> t + childHeight == height - m.bottom
    ensures m.top <= JavaHalf(height - childHeight) && JavaHalf(height - childHeight) + childHeight <= height - m.bottom
            ==> t == JavaHalf(height - childHeight)
  {
    var t := JavaHalf(height - childHeight);
    if t < m.top then m.top
    else if t + childHeight > height - m.bottom then height - m.bottom - childHeight
    else t
  }

  /** A child onLayout can place: GONE, the content view, or a drawer with a non-empty extent. */
  predicate Placeable(c: Child, rtl: bool) {
    c.visibility == Gone || IsContent(c) || ExtentPositive(ChildEdge(c, rtl), c.measuredWidth, c.measuredHeight)
  }

  predicate LayoutReady(s: Layout) {
    forall i :: 0 <= i < |s.children| ==> Placeable(s.children[i], s.rtl)
  }

  /** Where onLayout puts a drawer child, by its edge and its openness. */
  function DrawerPlacement(c: Child, rtl: bool, width: int, height: int): Placement
    requires !IsContent(c) && Placeable(c, rtl) && c.visibility != Gone
  {
    LayoutPlacement(ChildEdge(c, rtl), c.onScreen, c.measuredWidth, c.measuredHeight, width, height)
  }

  /**
   * A drawer child with its frame set by onLayout: only a CENTER_VERTICAL
   * drawer is moved, to the computed left and the centred top.
   */
  function Framed(c: Child, rtl: bool, width: int, height: int): (d: Child)
    requires !IsContent(c) && Placeable(c, rtl) && c.visibility != Gone
    ensures d.(bounds := c.bounds) == c
    ensures c.gravity & VERTICAL_GRAVITY_MASK != CENTER_VERTICAL ==> d == c
    ensures c.gravity & VERTICAL_GRAVITY_MASK == CENTER_VERTICAL ==>
              d.bounds.left == DrawerPlacement(c, rtl, width, height).left
              && d.bounds.top == CenteredTop(height, c.measuredHeight, c.margins)
              && d.bounds.width == c.measuredWidth && d.bounds.height == c.measuredHeight
  {
    if c.gravity & VERTICAL_GRAVITY_MASK == CENTER_VERTICAL then
      c.(bounds := Bounds(DrawerPlacement(c, rtl, width, height).left, CenteredTop(height, c.measuredHeight, c.margins),
                          c.measuredWidth, c.measuredHeight))
    else c
  }

  /**
   * A child as one pass of onLayout leaves it: a GONE child is skipped; the
   * content view is framed at its margins with its measured size; a drawer
   * is framed as Framed says, takes the openness its placement gives, and is
   * visible exactly when that openness is positive.
   */
  function LaidOut(c: Child, rtl: bool, width: int, height: int): (d: Child)
    requires Placeable(c, rtl)
    ensures c.visibility == Gone ==> d == c
    ensures c.visibility != Gone && IsContent(c) ==>
              d == c.(bounds := Bounds(c.margins.left, c.margins.top, c.measuredWidth, c.measuredHeight))
    ensures c.visibility != Gone && !IsContent(c) ==>
              var offset := DrawerPlacement(c, rtl, width, height).offset;
              d.bounds == Framed(c, rtl, width, height).bounds && d.onScreen == offset
              && (d.visibility == Visible <==> offset > 0.0) && d.visibility != Gone
              && d.(bounds := c.bounds, onScreen := c.onScreen, visibility := c.visibility) == c
  {
    if c.visibility == Gone then c
    else if IsContent(c) then
      c.(bounds := Bounds(c.margins.left, c.margins.top, c.measuredWidth, c.measuredHeight))
    else
      var offset := DrawerPlacement(c, rtl, width, height).offset;
      Framed(c, rtl, width, height).(onScreen := offset, visibility := if offset > 0.0 then Visible else Invisible)
  }

  /** One iteration of onLayout's loop, for child `i`. */
  function LayoutChild(s: Layout, i: nat): (r: Layout)
    requires i < |s.children| && Placeable(s.children[i], s.rtl)
    ensures r.children == s.children[i := LaidOut(s.children[i], s.rtl, s.width, s.height)]
    ensures r.(children := s.children, events := s.events) == s
    ensures var c := s.children[i];
            r.events == s.events + if c.visibility != Gone && !IsContent(c)
                                      && DrawerPlacement(c, s.rtl, s.width, s.height).offset != c.onScreen
                                   then [DrawerSlide(i, DrawerPlacement(c, s.rtl, s.width, s.height).offset)] else []
  {
    var c := s.children[i];
    if c.visibility == Gone then s
    else if IsContent(c) then
      s.(children := s.children[i := c.(bounds := Bounds(c.margins.left, c.margins.top, c.measuredWidth, c.measuredHeight))])
    else
      var p := DrawerPlacement(c, s.rtl, s.width, s.height);
      var s1 := s.(children := s.children[i := Framed(c, s.rtl, s.width, s.height)]);
      ShowOffset(if p.offset != c.onScreen then SetDrawerViewOffset(s1, i, p.offset) else s1, i)
  }

  /** The end of onLayout's iteration: a drawer is visible exactly when its openness is positive. */
  function ShowOffset(s: Layout, i: nat): (r: Layout)
    requires i < |s.children|
    ensures r == s.(children := s.children[i := s.children[i].(visibility :=
                                 if s.children[i].onScreen > 0.0 then Visible else Invisible)])
  {
    var c := s.children[i];
    s.(children := s.children[i := c.(visibility := if c.onScreen > 0.0 then Visible else Invisible)])
  }

  /** onLayout's loop over the first `n` children. */
  function LayoutUpTo(s: Layout, n: nat): (r: Layout)
    requires LayoutReady(s) && n <= |s.children|
    ensures |r.children| == |s.children| && r.rtl == s.rtl && r.width == s.width && r.height == s.height
    ensures r.draggers == s.draggers
    ensures forall j :: n <= j < |s.children| ==> r.children[j] == s.children[j]
    decreases n
  {
    if n == 0 then s
    else
      var prev := LayoutUpTo(s, n - 1);
      assert prev.children[n - 1] == s.children[n - 1];
      LayoutChild(prev, n - 1)
  }

  /**
   * onLayout(l, t, r, b): the container's frame is now (l, t, r, b), every
   * child is laid out in order, and the first layout is over.
   */
  function OnLayout(s: Layout, l: int, t: int, r: int, b: int): (res: Layout)
    requires LayoutReady(s)
    ensures Wf(s) ==> Wf(res)
    ensures !res.firstLayout && res.width == r - l && res.height == b - t
  {
    LayoutUpTo(s.(width := r - l, height := b - t), |s.children|).(firstLayout := false)
  }

  /**
   * After `n` iterations the first `n` children are laid out and the rest
   * untouched; the helpers, lock modes and touch state are as before.
   */
  lemma {:induction false} LayoutUpToChildren(s: Layout, n: nat)
    requires LayoutReady(s) && n <= |s.children|
    ensures var r := LayoutUpTo(s, n);
            forall j :: 0 <= j < |s.children| ==>
              r.children[j] == if j < n then LaidOut(s.children[j], s.rtl, s.width, s.height) else s.children[j]
    ensures LayoutUpTo(s, n).(children := s.children, events := s.events) == s
    decreases n
  {
    if n > 0 {
      LayoutUpToChildren(s, n - 1);
    }
  }

  /**
   * What onLayout does to each child: the content view is placed at its
   * margins with its measured size; a drawer's openness becomes the one its
   * truncated pixel position stands for, and it is visible exactly when that
   * is positive; GONE children are skipped. Nothing but the children, the
   * size, the first-layout flag and the reported slides changes.
   */
  lemma OnLayoutChildren(s: Layout, l: int, t: int, r: int, b: int)
    requires LayoutReady(s)
    ensures var res := OnLayout(s, l, t, r, b);
            forall j :: 0 <= j < |s.children| ==> res.children[j] == LaidOut(s.children[j], s.rtl, r - l, b - t)
  {
    LayoutUpToChildren(s.(width := r - l, height := b - t), |s.children|);
  }

  /** onLayout changes nothing but the children, the size, the first-layout flag and the reported slides. */
  lemma OnLayoutFrame(s: Layout, l: int, t: int, r: int, b: int)
    requires LayoutReady(s)
    ensures OnLayout(s, l, t, r, b).(children := s.children, events := s.events, width := s.width,
                                     height := s.height, firstLayout := s.firstLayout) == s
  {
    LayoutUpToChildren(s.(width := r - l, height := b - t), |s.children|);
  }

  /**
   * A laid-out drawer whose openness was in [0, 1] stays in [0, 1], loses
   * less than one pixel's worth of it, and keeps 0 and 1 exactly.
   */
  lemma LaidOutOpenness(c: Child, rtl: bool, width: int, height: int)
    requires Placeable(c, rtl) && c.visibility != Gone && !IsContent(c)
    requires 0.0 <= c.onScreen <= 1.0
    ensures var d := LaidOut(c, rtl, width, height);
            var e := Extent(ChildEdge(c, rtl), c.measuredWidth, c.measuredHeight);
            0.0 <= d.onScreen <= c.onScreen && c.onScreen - d.onScreen < 1.0 / e as real
            && (c.onScreen == 0.0 ==> d.onScreen == 0.0) && (c.onScreen == 1.0 ==> d.onScreen == 1.0)
            && (d.visibility == Visible <==> d.onScreen > 0.0)
  {
    LayoutSnapsOpenness(ChildEdge(c, rtl), c.onScreen, c.measuredWidth, c.measuredHeight, width, height);
  }

  /** Laying a child out twice at the same size is laying it out once. */
  lemma LaidOutIsIdempotent(c: Child, rtl: bool, width: int, height: int)
    requires Placeable(c, rtl)
    ensures Placeable(LaidOut(c, rtl, width, height), rtl)
    ensures LaidOut(LaidOut(c, rtl, width, height), rtl, width, height) == LaidOut(c, rtl, width, height)
  {
    if c.visibility != Gone && !IsContent(c) {
      LayoutIsIdempotent(ChildEdge(c, rtl), c.onScreen, c.measuredWidth, c.measuredHeight, width, height);
    }
  }

  // ---------------------------------------------------------------------
  // computeScroll, attaching and detaching

  /** computeScroll: the scrim opacity becomes the largest openness of any child, or 0. */
  function ComputeScroll(s: Layout): (r: Layout)
    ensures r.scrimOpacity >= 0.0
    ensures forall i :: 0 <= i < |s.children| ==> r.scrimOpacity >= s.children[i].onScreen
    ensures r.scrimOpacity == 0.0 || exists i :: 0 <= i < |s.children| && r.scrimOpacity == s.children[i].onScreen
    ensures r.(scrimOpacity := s.scrimOpacity) == s
  {
    s.(scrimOpacity := MaxOpenness(s.children))
  }

  /** onAttachedToWindow and onDetachedFromWindow: the next layout is a first layout again. */
  function ResetFirstLayout(s: Layout): (r: Layout)
    ensures r.firstLayout && r.(firstLayout := s.firstLayout) == s
  {
    s.(firstLayout := true)
  }

  /**
   * The first-layout flag decides whether opening is instantaneous: after
   * attaching, OpenDrawer marks a drawer open at once without asking any
   * helper; after a layout pass it only asks its edge's helper to settle it.
   */
  lemma FirstLayoutMakesOpenInstant(s: Layout, i: nat, l: int, t: int, r: int, b: int)
    requires Wf(s) && LayoutReady(s) && i < |s.children| && IsDrawer(s.children[i], s.rtl)
    ensures var a := OpenDrawer(ResetFirstLayout(s), i).state;
            a.children[i].onScreen == 1.0 && a.children[i].knownOpen && a.draggers == s.draggers
    ensures var o := OnLayout(s, l, t, r, b);
            Wf(o) && OpenDrawer(o, i).state.children == o.children
  {
    OnLayoutChildren(s, l, t, r, b);
    OnLayoutFrame(s, l, t, r, b);
    var o := OnLayout(s, l, t, r, b);
    var c := s.children[i];
    assert IsDrawer(o.children[i], o.rtl) by {
      if c.visibility != Gone && !IsContent(c) {
        assert o.children[i].gravity == c.gravity;
      }
    }
  }
}
