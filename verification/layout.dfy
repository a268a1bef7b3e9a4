/**
 * The drawer container as an object whose fields its methods update in
 * place. Each method changes the fields exactly as the matching function of
 * Container, Measure, Input or Callbacks says, so everything proved about
 * those functions holds of the object.
 */
module DrawerLayout {

  import opened Common
  import opened Gravity
  import opened Geometry
  import opened Drawers
  import C = Container
  import M = Measure
  import I = Input
  import K = Callbacks

  class AllDrawerLayout {
    var rtl: bool
    var width: int
    var height: int
    var children: seq<Child>
    var lockModeLeft: int
    var lockModeRight: int
    var lockModeTop: int
    var lockModeBottom: int
    var draggers: Draggers
    var drawerState: DragPhase
    var firstLayout: bool
    var scrimOpacity: real
    var initialMotionX: real
    var initialMotionY: real
    var disallowInterceptRequested: bool
    var childrenCanceledTouch: bool
    var events: seq<Event>

    /** The object's fields as one value. */
    function State(): C.Layout
      reads this
    {
      C.Layout(rtl, width, height, children, lockModeLeft, lockModeRight, lockModeTop, lockModeBottom,
               draggers, drawerState, firstLayout, scrimOpacity, initialMotionX, initialMotionY,
               disallowInterceptRequested, childrenCanceledTouch, events)
    }

    predicate Valid()
      reads this
    {
      C.Wf(State())
    }

    /**
     * A container holding `children`, laid out in the given direction: four
     * idle helpers, every edge unlocked, no drawer state yet, and the first
     * layout still to come.
     */
    constructor(rtl: bool, children: seq<Child>)
      ensures Valid()
      ensures State() == C.Layout(rtl, 0, 0, children, C.LOCK_MODE_UNLOCKED, C.LOCK_MODE_UNLOCKED,
                                  C.LOCK_MODE_UNLOCKED, C.LOCK_MODE_UNLOCKED,
                                  Draggers(FreshController(), FreshController(), FreshController(), FreshController()),
                                  Idle, true, 0.0, 0.0, 0.0, false, false, [])
    {
      this.rtl := rtl;
      width := 0;
      height := 0;
      this.children := children;
      lockModeLeft := C.LOCK_MODE_UNLOCKED;
      lockModeRight := C.LOCK_MODE_UNLOCKED;
      lockModeTop := C.LOCK_MODE_UNLOCKED;
      lockModeBottom := C.LOCK_MODE_UNLOCKED;
      draggers := Draggers(FreshController(), FreshController(), FreshController(), FreshController());
      drawerState := Idle;
      firstLayout := true;
      scrimOpacity := 0.0;
      initialMotionX := 0.0;
      initialMotionY := 0.0;
      disallowInterceptRequested := false;
      childrenCanceledTouch := false;
      events := [];
    }

    // -------------------------------------------------------------------
    // The drag helpers as the container drives them

    /** ViewDragHelper.cancel on edge `e`. */
    method CancelDragger(e: Edge)
      requires Valid()
      modifies this
      ensures Valid() && State() == C.Cancel(old(State()), e)
    {
      var d := draggers.Get(e);
      draggers := draggers.Set(e, d.(cancels := d.cancels + 1));
    }

    /** ViewDragHelper.smoothSlideViewTo on edge `e`. */
    method SmoothSlideViewTo(e: Edge, i: nat, p: Point)
      requires Valid() && i < |children|
      modifies this
      ensures Valid() && State() == C.SmoothSlide(old(State()), e, i, p)
    {
      draggers := draggers.Set(e, Slide(draggers.Get(e), i, p));
    }

    /** The edge callback's removeCallbacks: its delayed peek is no longer posted. */
    method RemoveCallbacks(e: Edge)
      requires Valid()
      modifies this
      ensures Valid() && State() == old(State()).(draggers := old(draggers).Set(e, old(draggers).Get(e).(peekPending := false)))
    {
      draggers := draggers.Set(e, draggers.Get(e).(peekPending := false));
    }

    /** removeCallbacks on all four edge callbacks. */
    method RemoveAllCallbacks()
      requires Valid()
      modifies this
      ensures Valid() && State() == C.RemoveAllCallbacks(old(State()))
    {
      RemoveCallbacks(Left);
      RemoveCallbacks(Right);
      RemoveCallbacks(Top);
      RemoveCallbacks(Bottom);
    }

    // -------------------------------------------------------------------
    // Listener dispatch and the drawer state

    method DispatchOnDrawerClosed(i: nat)
      requires Valid() && i < |children|
      modifies this
      ensures Valid() && State() == C.DispatchOnDrawerClosed(old(State()), i)
    {
      var c := children[i];
      if c.knownOpen {
        children := children[i := c.(knownOpen := false)];
        events := events + [DrawerClosed(i)];
      }
    }

    method DispatchOnDrawerOpened(i: nat)
      requires Valid() && i < |children|
      modifies this
      ensures Valid() && State() == C.DispatchOnDrawerOpened(old(State()), i)
    {
      var c := children[i];
      if !c.knownOpen {
        children := children[i := c.(knownOpen := true)];
        events := events + [DrawerOpened(i)];
      }
    }

    method SetDrawerViewOffset(i: nat, offset: real)
      requires Valid() && i < |children|
      modifies this
      ensures Valid() && State() == C.SetDrawerViewOffset(old(State()), i, offset)
    {
      var c := children[i];
      if offset == c.onScreen {
        return;
      }
      children := children[i := c.(onScreen := offset)];
      events := events + [DrawerSlide(i, offset)];
    }

    method UpdateDrawerState(activeState: DragPhase, activeDrawer: Option<nat>)
      requires Valid() && (activeDrawer.Some? ==> activeDrawer.value < |children|)
      modifies this
      ensures Valid() && State() == C.UpdateDrawerState(old(State()), activeState, activeDrawer)
    {
      var state := Aggregate(draggers.left.phase, draggers.right.phase, draggers.top.phase, draggers.bottom.phase);
      if activeDrawer.Some? && activeState == Idle {
        var i := activeDrawer.value;
        if children[i].onScreen == 0.0 {
          DispatchOnDrawerClosed(i);
        } else if children[i].onScreen == 1.0 {
          DispatchOnDrawerOpened(i);
        }
      }
      if state != drawerState {
        drawerState := state;
        events := events + [DrawerStateChanged(StateCode(state))];
      }
    }

    // -------------------------------------------------------------------
    // Lookups

    method FindDrawerWithGravity(g: bv32) returns (r: Option<nat>)
      ensures r == C.FindDrawerWithGravity(State(), g)
      ensures r.Some? ==> r.value < |children|
                          && HorizontalBits(AbsGravity(children[r.value], rtl)) == HorizontalBits(AbsoluteGravity(g, rtl))
      ensures r.None? ==> forall j :: 0 <= j < |children| ==>
                            HorizontalBits(AbsGravity(children[j], rtl)) != HorizontalBits(AbsoluteGravity(g, rtl))
    {
      var hg := HorizontalBits(AbsoluteGravity(g, rtl));
      var i := 0;
      while i < |children|
        invariant 0 <= i <= |children|
        invariant forall j :: 0 <= j < i ==> HorizontalBits(AbsGravity(children[j], rtl)) != hg
      {
        if HorizontalBits(AbsGravity(children[i], rtl)) == hg {
          FirstIs(children, HorizontalGravityIs(hg, rtl), Some(i));
          return Some(i);
        }
        i := i + 1;
      }
      FirstIs(children, HorizontalGravityIs(hg, rtl), None);
      return None;
    }

    method FindOpenDrawer() returns (r: Option<nat>)
      ensures r == C.FindOpenDrawer(State())
      ensures r.Some? ==> r.value < |children| && children[r.value].knownOpen
      ensures r.None? ==> forall j :: 0 <= j < |children| ==> !children[j].knownOpen
    {
      var i := 0;
      while i < |children|
        invariant 0 <= i <= |children|
        invariant forall j :: 0 <= j < i ==> !children[j].knownOpen
      {
        if children[i].knownOpen {
          FirstIs(children, IsKnownOpen(), Some(i));
          return Some(i);
        }
        i := i + 1;
      }
      FirstIs(children, IsKnownOpen(), None);
      return None;
    }

    method HasPeekingDrawer() returns (r: bool)
      ensures r == C.HasPeekingDrawer(State())
      ensures r <==> exists j :: 0 <= j < |children| && children[j].isPeeking
    {
      var i := 0;
      while i < |children|
        invariant 0 <= i <= |children|
        invariant forall j :: 0 <= j < i ==> !children[j].isPeeking
      {
        if children[i].isPeeking {
          FirstIs(children, IsPeeking(), Some(i));
          return true;
        }
        i := i + 1;
      }
      FirstIs(children, IsPeeking(), None);
      return false;
    }

    method FindVisibleDrawer() returns (r: Option<nat>)
      ensures r == C.FindVisibleDrawer(State())
      ensures r.Some? ==> r.value < |children| && IsDrawer(children[r.value], rtl) && children[r.value].onScreen > 0.0
      ensures r.None? ==> forall j :: 0 <= j < |children| ==> !(IsDrawer(children[j], rtl) && children[j].onScreen > 0.0)
    {
      var i := 0;
      while i < |children|
        invariant 0 <= i <= |children|
        invariant forall j :: 0 <= j < i ==> !(IsDrawer(children[j], rtl) && children[j].onScreen > 0.0)
      {
        if IsDrawer(children[i], rtl) && children[i].onScreen > 0.0 {
          FirstIs(children, IsVisibleDrawer(rtl), Some(i));
          return Some(i);
        }
        i := i + 1;
      }
      FirstIs(children, IsVisibleDrawer(rtl), None);
      return None;
    }

    /** isDrawerOpen(int gravity), through the lookup loop. */
    method IsDrawerOpenWithGravity(g: bv32) returns (r: Result<bool>)
      ensures r == C.IsDrawerOpenWithGravity(State(), g)
    {
      var found := FindDrawerWithGravity(g);
      if found.None? {
        return Value(false);
      }
      return C.IsDrawerOpen(State(), found.value);
    }

    /** isDrawerVisible(int gravity), through the lookup loop. */
    method IsDrawerVisibleWithGravity(g: bv32) returns (r: Result<bool>)
      ensures r == C.IsDrawerVisibleWithGravity(State(), g)
    {
      var found := FindDrawerWithGravity(g);
      if found.None? {
        return Value(false);
      }
      return C.IsDrawerVisible(State(), found.value);
    }

    // -------------------------------------------------------------------
    // Lock modes

    /** The lock-mode field of an edge takes `mode`; an unknown gravity stores nothing. */
    method StoreLockMode(edge: Option<Edge>, mode: int)
      requires Valid()
      modifies this
      ensures Valid() && State() == C.WithLockMode(old(State()), edge, mode)
    {
      match edge
      case Some(Left) => lockModeLeft := mode;
      case Some(Right) => lockModeRight := mode;
      case Some(Top) => lockModeTop := mode;
      case Some(Bottom) => lockModeBottom := mode;
      case None =>
    }

    method SetDrawerLockMode(mode: int, g: bv32) returns (o: Outcome)
      requires Valid()
      modifies this
      ensures Valid()
      ensures State() == C.SetDrawerLockMode(old(State()), mode, g).state
      ensures o == C.SetDrawerLockMode(old(State()), mode, g).outcome
    {
      var abs := AbsoluteGravity(g, rtl);
      var edge := EdgeOf(abs);
      StoreLockMode(edge, mode);
      if mode != C.LOCK_MODE_UNLOCKED {
        CancelDragger(RouteOf(edge));
      }
      assert State() == C.LockAndCancel(old(State()), mode, g);
      o := Ok;
      if mode == C.LOCK_MODE_LOCKED_OPEN {
        var found := FindDrawerWithGravity(abs);
        if found.Some? {
          o := OpenDrawer(found.value);
        }
      } else if mode == C.LOCK_MODE_LOCKED_CLOSED {
        var found := FindDrawerWithGravity(abs);
        if found.Some? {
          o := CloseDrawer(found.value);
        }
      }
    }

    method SetDrawerLockModeForChild(mode: int, i: nat) returns (o: Outcome)
      requires Valid() && i < |children|
      modifies this
      ensures Valid()
      ensures State() == C.SetDrawerLockModeForChild(old(State()), mode, i).state
      ensures o == C.SetDrawerLockModeForChild(old(State()), mode, i).outcome
    {
      if !IsDrawer(children[i], rtl) {
        return Err(NotADrawer(i));
      }
      o := SetDrawerLockMode(mode, children[i].gravity);
    }

    // -------------------------------------------------------------------
    // Programmatic open and close

    method OpenDrawer(i: nat) returns (o: Outcome)
      requires Valid() && i < |children|
      modifies this
      ensures Valid()
      ensures State() == C.OpenDrawer(old(State()), i).state && o == C.OpenDrawer(old(State()), i).outcome
    {
      var c := children[i];
      if !IsDrawer(c, rtl) {
        return Err(NotADrawer(i));
      }
      if firstLayout {
        children := children[i := c.(onScreen := 1.0, knownOpen := true)];
      } else {
        var edge := ChildEdge(c, rtl);
        SmoothSlideViewTo(RouteOf(edge), i, OpenTarget(edge, c.bounds, width, height));
      }
      return Ok;
    }

    method CloseDrawer(i: nat) returns (o: Outcome)
      requires Valid() && i < |children|
      modifies this
      ensures Valid()
      ensures State() == C.CloseDrawer(old(State()), i).state && o == C.CloseDrawer(old(State()), i).outcome
    {
      var c := children[i];
      if !IsDrawer(c, rtl) {
        return Err(NotADrawer(i));
      }
      if firstLayout {
        children := children[i := c.(onScreen := 0.0, knownOpen := false)];
      } else {
        var edge := ChildEdge(c, rtl);
        SmoothSlideViewTo(RouteOf(edge), i, CloseTarget(edge, c.bounds, width, height));
      }
      return Ok;
    }

    method OpenDrawerWithGravity(g: bv32) returns (o: Outcome)
      requires Valid()
      modifies this
      ensures Valid()
      ensures State() == C.OpenDrawerWithGravity(old(State()), g).state
      ensures o == C.OpenDrawerWithGravity(old(State()), g).outcome
    {
      var found := FindDrawerWithGravity(g);
      if found.None? {
        return Err(NoDrawerWithGravity(GravityToString(g)));
      }
      o := OpenDrawer(found.value);
    }

    method CloseDrawerWithGravity(g: bv32) returns (o: Outcome)
      requires Valid()
      modifies this
      ensures Valid()
      ensures State() == C.CloseDrawerWithGravity(old(State()), g).state
      ensures o == C.CloseDrawerWithGravity(old(State()), g).outcome
    {
      var found := FindDrawerWithGravity(g);
      if found.None? {
        return Err(NoDrawerWithGravity(GravityToString(g)));
      }
      o := CloseDrawer(found.value);
    }

    /** One iteration of closeDrawers' loop. */
    method CloseDrawersStep(peekingOnly: bool, i: nat)
      requires Valid() && i < |children|
      modifies this
      ensures Valid() && State() == C.CloseDrawersStep(old(State()), peekingOnly, i)
    {
      var c := children[i];
      if !IsDrawer(c, rtl) || (peekingOnly && !c.isPeeking) {
        return;
      }
      var edge := ChildEdge(c, rtl);
      SmoothSlideViewTo(RouteOf(edge), i, CloseDrawersTarget(edge, c.bounds, width));
      children := children[i := c.(isPeeking := false)];
    }

    method CloseDrawers(peekingOnly: bool)
      requires Valid()
      modifies this
      ensures Valid() && State() == C.CloseDrawers(old(State()), peekingOnly)
    {
      ghost var start := State();
      var i := 0;
      while i < |children|
        invariant 0 <= i <= |children| == |start.children|
        invariant Valid() && State() == C.CloseDrawersUpTo(start, peekingOnly, i)
      {
        CloseDrawersStep(peekingOnly, i);
        i := i + 1;
      }
      RemoveAllCallbacks();
    }

    // -------------------------------------------------------------------
    // Measuring and layout

    method OnMeasure(widthMode: M.MeasureMode, widthSize: int, heightMode: M.MeasureMode, heightSize: int,
                     inEditMode: bool) returns (r: Result<M.Size>)
      ensures r == M.OnMeasure(State(), widthMode, widthSize, heightMode, heightSize, inEditMode)
    {
      var wMode, wSize, hMode, hSize := widthMode, widthSize, heightMode, heightSize;
      if wMode != M.Exactly || hMode != M.Exactly {
        if inEditMode {
          if wMode == M.AtMost {
            wMode := M.Exactly;
          } else if wMode == M.Unspecified {
            wMode := M.Exactly;
            wSize := M.EDIT_MODE_DEFAULT_SIZE;
          }
          if hMode == M.AtMost {
            hMode := M.Exactly;
          } else if hMode == M.Unspecified {
            hMode := M.Exactly;
            hSize := M.EDIT_MODE_DEFAULT_SIZE;
          }
        } else {
          return Thrown(NotMeasuredExactly);
        }
      }
      var foundDrawers: bv32 := 0;
      var i := 0;
      while i < |children|
        invariant 0 <= i <= |children|
        invariant forall j :: 0 <= j < i ==> !M.HasInvalidGravity(children[j], rtl)
      {
        var c := children[i];
        if c.visibility != Gone {
          if IsContent(c) {
          } else if IsDrawer(c, rtl) {
            var childGravity := HorizontalBits(AbsGravity(c, rtl));
            if foundDrawers & childGravity != 0 {
              // foundDrawers is never updated, so this check cannot fire
              assert false;
            }
          } else {
            FirstIs(children, M.InvalidGravity(rtl), Some(i));
            return Thrown(InvalidLayoutGravity(i));
          }
        }
        i := i + 1;
      }
      FirstIs(children, M.InvalidGravity(rtl), None);
      return Value(M.Size(wSize, hSize));
    }

    /** One iteration of onLayout's loop. */
    method LayoutChild(i: nat)
      requires Valid() && i < |children| && M.Placeable(children[i], rtl)
      modifies this
      ensures Valid() && State() == M.LayoutChild(old(State()), i)
    {
      var c := children[i];
      if c.visibility == Gone {
        return;
      }
      if IsContent(c) {
        children := children[i := c.(bounds := Bounds(c.margins.left, c.margins.top, c.measuredWidth, c.measuredHeight))];
        return;
      }
      var p := M.DrawerPlacement(c, rtl, width, height);
      children := children[i := M.Framed(c, rtl, width, height)];
      if p.offset != c.onScreen {
        SetDrawerViewOffset(i, p.offset);
      }
      var c2 := children[i];
      children := children[i := c2.(visibility := if c2.onScreen > 0.0 then Visible else Invisible)];
    }

    /** onLayout's loop: every child is laid out in order. */
    method LayoutChildren()
      requires Valid() && M.LayoutReady(State())
      modifies this
      ensures Valid() && State() == M.LayoutUpTo(old(State()), |old(children)|)
    {
      ghost var start := State();
      var i := 0;
      while i < |children|
        invariant 0 <= i <= |children| == |start.children|
        invariant Valid() && State() == M.LayoutUpTo(start, i)
      {
        assert children[i] == start.children[i];
        LayoutChild(i);
        i := i + 1;
      }
    }

    /** onLayout; the framework has already given the container the frame (l, t, r, b). */
    method OnLayout(l: int, t: int, r: int, b: int)
      requires Valid() && M.LayoutReady(State())
      modifies this
      ensures Valid() && State() == M.OnLayout(old(State()), l, t, r, b)
    {
      width := r - l;
      height := b - t;
      ghost var framed := State();
      assert framed == old(State()).(width := r - l, height := b - t);
      assert M.LayoutReady(framed);
      LayoutChildren();
      assert State() == M.LayoutUpTo(framed, |framed.children|);
      firstLayout := false;
    }

    method ComputeScroll()
      requires Valid()
      modifies this
      ensures Valid() && State() == M.ComputeScroll(old(State()))
    {
      var opacity := 0.0;
      var i := 0;
      while i < |children|
        invariant 0 <= i <= |children|
        invariant opacity == MaxOpenness(children[..i])
      {
        assert children[..i + 1][..i] == children[..i];
        opacity := RealMax(opacity, children[i].onScreen);
        i := i + 1;
      }
      assert children[..i] == children;
      scrimOpacity := opacity;
    }

    method OnAttachedToWindow()
      requires Valid()
      modifies this
      ensures Valid() && State() == M.ResetFirstLayout(old(State()))
    {
      firstLayout := true;
    }

    method OnDetachedFromWindow()
      requires Valid()
      modifies this
      ensures Valid() && State() == M.ResetFirstLayout(old(State()))
    {
      firstLayout := true;
    }

    // -------------------------------------------------------------------
    // Input

    /** An UP or CANCEL ends the gesture: peeking drawers close and the touch flags reset. */
    method EndGesture()
      requires Valid()
      modifies this
      ensures Valid()
      ensures State() == C.CloseDrawers(old(State()), true).(disallowInterceptRequested := false,
                                                            childrenCanceledTouch := false)
    {
      CloseDrawers(true);
      disallowInterceptRequested := false;
      childrenCanceledTouch := false;
    }

    /** A DOWN records where the gesture started and resets the touch flags. */
    method StartGesture(ev: I.MotionEvent)
      requires Valid()
      modifies this
      ensures Valid()
      ensures State() == old(State()).(initialMotionX := ev.x, initialMotionY := ev.y,
                                       disallowInterceptRequested := false, childrenCanceledTouch := false)
    {
      initialMotionX := ev.x;
      initialMotionY := ev.y;
      disallowInterceptRequested := false;
      childrenCanceledTouch := false;
    }

    method OnInterceptTouchEvent(ev: I.MotionEvent, interceptForDrag: bool, pastSlop: bool) returns (r: Result<bool>)
      requires Valid() && I.Targets(State(), ev)
      modifies this
      ensures Valid()
      ensures State() == I.OnInterceptTouchEvent(old(State()), ev, interceptForDrag, pastSlop).state
      ensures r == I.OnInterceptTouchEvent(old(State()), ev, interceptForDrag, pastSlop).result
    {
      if ev.action == I.Down && scrimOpacity > 0.0 && ev.under.None? {
        initialMotionX := ev.x;
        initialMotionY := ev.y;
        return Thrown(NullChild);
      }
      var interceptForTap := ev.action == I.Down && scrimOpacity > 0.0 && IsContent(children[ev.under.value]);
      InterceptState(ev, pastSlop);
      var peeking := HasPeekingDrawer();
      return Value(interceptForDrag || interceptForTap || peeking || childrenCanceledTouch);
    }

    /** What onInterceptTouchEvent does to the container, per action, when it does not throw. */
    method InterceptState(ev: I.MotionEvent, pastSlop: bool)
      requires Valid()
      modifies this
      ensures Valid() && State() == I.InterceptState(old(State()), ev, pastSlop)
    {
      match ev.action {
        case Down =>
          StartGesture(ev);
        case Move =>
          if pastSlop {
            RemoveAllCallbacks();
          }
        case Up =>
          EndGesture();
        case Cancel =>
          EndGesture();
        case OtherAction =>
      }
    }

    method OnTouchEvent(ev: I.MotionEvent, touchSlop: int) returns (r: bool)
      requires Valid() && I.Targets(State(), ev)
      modifies this
      ensures Valid() && State() == I.OnTouchEvent(old(State()), ev, touchSlop)
      ensures r
    {
      match ev.action {
        case Down =>
          StartGesture(ev);
        case Up =>
          var peekingOnly := PeekingOnlyOnUp(ev, touchSlop);
          CloseDrawers(peekingOnly);
          disallowInterceptRequested := false;
        case Cancel =>
          EndGesture();
        case _ =>
      }
      return true;
    }

    /** The decision onTouchEvent makes on an UP: close only the peeking drawers, or all of them. */
    method PeekingOnlyOnUp(ev: I.MotionEvent, touchSlop: int) returns (peekingOnly: bool)
      requires I.Targets(State(), ev)
      ensures peekingOnly == I.PeekingOnlyOnUp(State(), ev, touchSlop)
    {
      peekingOnly := true;
      if ev.under.Some? && IsContent(children[ev.under.value]) {
        var dx := ev.x - initialMotionX;
        var dy := ev.y - initialMotionY;
        if dx * dx + dy * dy < (touchSlop * touchSlop) as real {
          var openDrawer := FindOpenDrawer();
          if openDrawer.Some? {
            peekingOnly := C.GetDrawerLockModeOfChild(State(), openDrawer.value) == C.LOCK_MODE_LOCKED_OPEN;
          }
        }
      }
    }

    method RequestDisallowInterceptTouchEvent(disallowIntercept: bool)
      requires Valid()
      modifies this
      ensures Valid() && State() == I.RequestDisallowInterceptTouchEvent(old(State()), disallowIntercept)
    {
      disallowInterceptRequested := disallowIntercept;
      if disallowIntercept {
        CloseDrawers(true);
      }
    }

    method OnKeyDown(keyCode: int, superResult: bool) returns (r: bool)
      ensures r == I.OnKeyDown(State(), keyCode, superResult)
    {
      if keyCode == I.KEYCODE_BACK {
        var visible := FindVisibleDrawer();
        if visible.Some? {
          return true;
        }
      }
      return superResult;
    }

    method OnKeyUp(keyCode: int, superResult: bool) returns (r: bool)
      requires Valid()
      modifies this
      ensures Valid()
      ensures State() == I.OnKeyUp(old(State()), keyCode, superResult).state
      ensures r == I.OnKeyUp(old(State()), keyCode, superResult).handled
    {
      if keyCode == I.KEYCODE_BACK {
        var visibleDrawer := FindVisibleDrawer();
        if visibleDrawer.Some? && C.GetDrawerLockModeOfChild(State(), visibleDrawer.value) == C.LOCK_MODE_UNLOCKED {
          CloseDrawers(false);
        }
        return visibleDrawer.Some?;
      }
      return superResult;
    }

    method OnSaveInstanceState() returns (ss: SavedState)
      ensures ss == I.OnSaveInstanceState(State())
      ensures ss.openDrawerGravity != NO_GRAVITY ==>
                exists j :: 0 <= j < |children| && IsDrawer(children[j], rtl) && children[j].knownOpen
                            && children[j].gravity == ss.openDrawerGravity
    {
      var g := NO_GRAVITY;
      var i := 0;
      while i < |children|
        invariant 0 <= i <= |children|
        invariant forall j :: 0 <= j < i ==> !(IsDrawer(children[j], rtl) && children[j].knownOpen)
      {
        if IsDrawer(children[i], rtl) && children[i].knownOpen {
          FirstIs(children, IsOpenDrawer(rtl), Some(i));
          g := children[i].gravity;
          break;
        }
        i := i + 1;
      }
      if i == |children| {
        FirstIs(children, IsOpenDrawer(rtl), None);
      }
      ss := SavedState(g, lockModeLeft, lockModeRight, lockModeTop, lockModeBottom);
    }

    method OnRestoreInstanceState(ss: SavedState) returns (o: Outcome)
      requires Valid()
      modifies this
      ensures Valid()
      ensures State() == I.OnRestoreInstanceState(old(State()), ss).state
      ensures o == I.OnRestoreInstanceState(old(State()), ss).outcome
    {
      if ss.openDrawerGravity != NO_GRAVITY {
        var toOpen := FindDrawerWithGravity(ss.openDrawerGravity);
        if toOpen.Some? {
          o := OpenDrawer(toOpen.value);
          if o.Err? {
            return;
          }
        }
      }
      o := SetDrawerLockMode(ss.lockModeLeft, LEFT);
      if o.Err? {
        return;
      }
      o := SetDrawerLockMode(ss.lockModeRight, RIGHT);
    }

    // -------------------------------------------------------------------
    // The edge callbacks

    method OnViewDragStateChanged(e: Edge, state: DragPhase)
      requires Valid()
      modifies this
      ensures Valid() && State() == K.OnViewDragStateChanged(old(State()), e, state)
    {
      FitsGet(draggers, |children|, e);
      UpdateDrawerState(state, draggers.Get(e).captured);
    }

    /** Going idle, the helper of edge `e` lets go of the view it held. */
    method ReleaseCaptured(e: Edge)
      requires Valid()
      modifies this
      ensures Valid()
      ensures State() == old(State()).(draggers := old(draggers).Set(e, old(draggers).Get(e).(captured := None)))
    {
      draggers := draggers.Set(e, draggers.Get(e).(captured := None));
    }

    /** ViewDragHelper.setDragState, which reports a change of phase to the edge's callback. */
    method SetDragState(e: Edge, state: DragPhase)
      requires Valid()
      modifies this
      ensures Valid() && State() == K.SetDragState(old(State()), e, state)
    {
      var d := draggers.Get(e);
      if d.phase == state {
        return;
      }
      draggers := draggers.Set(e, d.(phase := state));
      ghost var s1 := State();
      assert s1 == old(State()).(draggers := old(draggers).Set(e, d.(phase := state)));
      OnViewDragStateChanged(e, state);
      assert State() == K.OnViewDragStateChanged(s1, e, state);
      if state == Idle {
        ReleaseCaptured(e);
      }
    }

    method OnViewPositionChanged(i: nat, left: int, top: int)
      requires Valid() && i < |children|
      requires ExtentPositive(ChildEdge(children[i], rtl), children[i].bounds.width, children[i].bounds.height)
      modifies this
      ensures Valid() && State() == K.OnViewPositionChanged(old(State()), i, left, top)
    {
      var c := children[i];
      var offset := OffsetForPosition(ChildEdge(c, rtl), left, top, c.bounds.width, c.bounds.height, width, height);
      children := children[i := c.(bounds := c.bounds.(left := left, top := top))];
      SetDrawerViewOffset(i, offset);
      var c2 := children[i];
      children := children[i := c2.(visibility := if offset == 0.0 then Invisible else Visible)];
    }

    method CloseOtherDrawer(e: Edge) returns (o: Outcome)
      requires Valid()
      modifies this
      ensures Valid()
      ensures State() == K.CloseOtherDrawer(old(State()), e).state && o == K.CloseOtherDrawer(old(State()), e).outcome
    {
      var toClose := FindDrawerWithGravity(EdgeGravity(e));
      o := Ok;
      if toClose.Some? {
        o := CloseDrawer(toClose.value);
      }
    }

    method OnViewCaptured(e: Edge, i: nat) returns (o: Outcome)
      requires Valid() && i < |children|
      modifies this
      ensures Valid()
      ensures State() == K.OnViewCaptured(old(State()), e, i).state && o == K.OnViewCaptured(old(State()), e, i).outcome
    {
      children := children[i := children[i].(isPeeking := false)];
      o := CloseOtherDrawer(e);
    }

    method OnViewReleased(e: Edge, i: nat, xvel: real, yvel: real)
      requires Valid() && i < |children|
      modifies this
      ensures Valid() && State() == K.OnViewReleased(old(State()), e, i, xvel, yvel)
    {
      var c := children[i];
      SmoothSlideViewTo(e, i, ReleaseTarget(ChildEdge(c, rtl), c.onScreen, xvel, yvel, c.bounds, width, height));
    }

    method OnEdgeTouched(e: Edge)
      requires Valid()
      modifies this
      ensures Valid() && State() == K.OnEdgeTouched(old(State()), e)
    {
      draggers := draggers.Set(e, draggers.Get(e).(peekPending := true));
    }

    method CancelChildViewTouch()
      requires Valid()
      modifies this
      ensures Valid() && State() == K.CancelChildViewTouch(old(State()))
    {
      if !childrenCanceledTouch {
        childrenCanceledTouch := true;
      }
    }

    /** The edge's delayed peek firing. */
    method PeekDrawer(e: Edge, peekDistance: int) returns (o: Outcome)
      requires Valid()
      modifies this
      ensures Valid()
      ensures State() == K.PeekDrawer(old(State()), e, peekDistance).state
      ensures o == K.PeekDrawer(old(State()), e, peekDistance).outcome
    {
      RemoveCallbacks(e);
      ghost var s0 := State();
      var toCapture := FindDrawerWithGravity(EdgeGravity(e));
      o := Ok;
      if toCapture.None? {
        return;
      }
      var j := toCapture.value;
      var c := children[j];
      var target := PeekTarget(e, Some(c.bounds), peekDistance, width, height);
      if !PeekEligible(e, c.bounds, target) || C.GetDrawerLockModeOfChild(State(), j) != C.LOCK_MODE_UNLOCKED {
        return;
      }
      assert K.PeekAllowed(s0, e, peekDistance);
      o := Peek(e, peekDistance, j, target);
    }

    /** The peek itself, once the edge's drawer `j` is found, eligible and unlocked. */
    method Peek(e: Edge, peekDistance: int, j: nat, target: Point) returns (o: Outcome)
      requires Valid() && K.PeekAllowed(State(), e, peekDistance)
      requires C.FindDrawerWithGravity(State(), EdgeGravity(e)) == Some(j)
      requires target == PeekTarget(e, Some(children[j].bounds), peekDistance, width, height)
      modifies this
      ensures Valid()
      ensures State() == K.Peek(old(State()), e, peekDistance).state && o == K.Peek(old(State()), e, peekDistance).outcome
    {
      ghost var s0 := State();
      var c := children[j];
      SmoothSlideViewTo(e, j, Point(target.x, c.bounds.top));
      children := children[j := c.(isPeeking := true)];
      ghost var s2 := State();
      assert s2 == K.PeekSlide(s0, e, peekDistance);
      o := CloseOtherDrawer(e);
      assert State() == K.CloseOtherDrawer(s2, e).state;
      if o.Err? {
        return;
      }
      CancelChildViewTouch();
    }

    /** ViewDragHelper.captureChildView. */
    method CaptureChildView(e: Edge, i: nat) returns (o: Outcome)
      requires Valid() && i < |children|
      modifies this
      ensures Valid()
      ensures State() == K.CaptureChildView(old(State()), e, i).state && o == K.CaptureChildView(old(State()), e, i).outcome
    {
      draggers := draggers.Set(e, draggers.Get(e).(captured := Some(i)));
      o := OnViewCaptured(e, i);
      if o.Err? {
        return;
      }
      SetDragState(e, Dragging);
    }

    method OnEdgeDragStarted(e: Edge, edgeFlags: bv32) returns (o: Outcome)
      requires Valid()
      modifies this
      ensures Valid()
      ensures State() == K.OnEdgeDragStarted(old(State()), e, edgeFlags).state
      ensures o == K.OnEdgeDragStarted(old(State()), e, edgeFlags).outcome
    {
      var toCapture := FindDrawerWithGravity(K.DragStartGravity(edgeFlags));
      o := Ok;
      if toCapture.Some? && C.GetDrawerLockModeOfChild(State(), toCapture.value) == C.LOCK_MODE_UNLOCKED {
        o := CaptureChildView(e, toCapture.value);
      }
    }
  }
}
