/**
 * The edge geometry of the drawer container: how a drawer's position along
 * its sliding axis relates to its openness, the clamps applied while it is
 * dragged, where layout places it, where a release settles it and where a
 * peek moves it. Everything here is integer and ratio arithmetic; openness is
 * a real number (the Java float without rounding).
 */
module Geometry {

  import opened Common
  import opened Gravity

  /** Java's `(int)` cast of a float: truncation toward zero. */
  function JavaIntCast(x: real): (r: int)
    ensures x >= 0.0 ==> r >= 0 && r as real <= x < r as real + 1.0
    ensures x < 0.0 ==> r <= 0 && r as real - 1.0 < x <= r as real
  {
    if x >= 0.0 then x.Floor else -((-x).Floor)
  }

  /** The whole pixels of an extent that an openness shows: `(int) (extent * onScreen)`. */
  function Pixels(e: nat, onScreen: real): int {
    JavaIntCast(e as real * onScreen)
  }

  /** A pixel count as a fraction of the extent, by float division. */
  function Fraction(n: int, e: nat): real
    requires e > 0
  {
    n as real / e as real
  }

  /** Java's `a / 2` on int: the quotient truncated toward zero. */
  function JavaHalf(a: int): (r: int)
    ensures a >= 0 ==> 0 <= 2 * r <= a < 2 * r + 2
    ensures a < 0 ==> 2 * r - 2 < a <= 2 * r <= 0
  {
    if a >= 0 then a / 2 else -((-a) / 2)
  }

  /** LEFT/RIGHT drawers slide horizontally; TOP, BOTTOM and unmatched gravities vertically. */
  predicate Horizontal(edge: Option<Edge>) {
    edge == Some(Left) || edge == Some(Right)
  }

  /** The drawer's size along its sliding axis. */
  function Extent(edge: Option<Edge>, w: nat, h: nat): nat {
    if Horizontal(edge) then w else h
  }

  /** The offset formulas divide by the extent; they are only meaningful when it is positive. */
  predicate ExtentPositive(edge: Option<Edge>, w: nat, h: nat) {
    Extent(edge, w, h) > 0
  }

  /** How many pixels of the drawer lie inside the container, measured from its edge. */
  function Shown(edge: Option<Edge>, left: int, top: int, w: nat, h: nat, width: int, height: int): int {
    match edge
    case Some(Left) => w + left
    case Some(Right) => width - left
    case Some(Top) => h + top
    case _ => height - top
  }

  /**
   * The openness computed in onViewPositionChanged from a drawer's new
   * position (an unmatched gravity uses the BOTTOM formula).
   */
  function OffsetForPosition(edge: Option<Edge>, left: int, top: int, w: nat, h: nat, width: int, height: int): (r: real)
    requires ExtentPositive(edge, w, h)
    ensures r == Fraction(Shown(edge, left, top, w, h, width, height), Extent(edge, w, h))
    ensures 0.0 <= r <= 1.0 <==> 0 <= Shown(edge, left, top, w, h, width, height) <= Extent(edge, w, h)
    ensures r == 1.0 <==> Shown(edge, left, top, w, h, width, height) == Extent(edge, w, h)
    ensures r == 0.0 <==> Shown(edge, left, top, w, h, width, height) == 0
  {
    var r := match edge
      case Some(Left) => (w + left) as real / w as real
      case Some(Right) => (width - left) as real / w as real
      case Some(Top) => (h + top) as real / h as real
      case _ => (height - top) as real / h as real;
    FractionFacts(Shown(edge, left, top, w, h, width, height), Extent(edge, w, h), r);
    r
  }

  /** What a fraction of a positive extent says about the pixel count. */
  lemma FractionFacts(n: int, e: nat, r: real)
    requires e > 0 && r == Fraction(n, e)
    ensures r * e as real == n as real
    ensures 0.0 <= r <= 1.0 <==> 0 <= n <= e
    ensures r == 1.0 <==> n == e
    ensures r == 0.0 <==> n == 0
  {
    assert r * e as real == n as real;
    if r > 1.0 {
      PositiveProduct(r - 1.0, e as real);
    }
    if r < 0.0 {
      PositiveProduct(-r, e as real);
    }
  }

  lemma PositiveProduct(a: real, b: real)
    requires a > 0.0 && b > 0.0
    ensures a * b > 0.0
  {
  }

  /**
   * clampViewPositionHorizontal: LEFT drawers stay in [-w, 0]; RIGHT drawers and
   * unmatched gravities in [width - w, width]; TOP and BOTTOM drawers keep
   * their current left.
   */
  function ClampHorizontal(edge: Option<Edge>, left: int, cur: Bounds, width: int): (r: int)
    ensures edge == Some(Top) || edge == Some(Bottom) ==> r == cur.left
    ensures edge == Some(Left) ==> -(cur.width as int) <= r <= 0
    ensures edge == Some(Left) ==>
              (-(cur.width as int) <= left <= 0 ==> r == left)
              && (left < -(cur.width as int) ==> r == -(cur.width as int)) && (left > 0 ==> r == 0)
    ensures edge == Some(Right) || edge.None? ==> width - cur.width <= r <= width
    ensures edge == Some(Right) || edge.None? ==>
              (width - cur.width <= left <= width ==> r == left)
              && (left < width - cur.width ==> r == width - cur.width) && (left > width ==> r == width)
  {
    match edge
    case Some(Left) => Max(-(cur.width as int), Min(left, 0))
    case Some(Top) => cur.left
    case Some(Bottom) => cur.left
    case _ => Max(width - cur.width, Min(left, width))
  }

  /**
   * clampViewPositionVertical: TOP drawers stay in [-h, 0]; BOTTOM drawers and
   * unmatched gravities in [height - h, height]; LEFT and RIGHT drawers keep
   * their current top.
   */
  function ClampVertical(edge: Option<Edge>, top: int, cur: Bounds, height: int): (r: int)
    ensures Horizontal(edge) ==> r == cur.top
    ensures edge == Some(Top) ==> -(cur.height as int) <= r <= 0
    ensures edge == Some(Top) ==>
              (-(cur.height as int) <= top <= 0 ==> r == top)
              && (top < -(cur.height as int) ==> r == -(cur.height as int)) && (top > 0 ==> r == 0)
    ensures edge == Some(Bottom) || edge.None? ==> height - cur.height <= r <= height
    ensures edge == Some(Bottom) || edge.None? ==>
              (height - cur.height <= top <= height ==> r == top)
              && (top < height - cur.height ==> r == height - cur.height) && (top > height ==> r == height)
  {
    match edge
    case Some(Left) => cur.top
    case Some(Right) => cur.top
    case Some(Top) => Max(-(cur.height as int), Min(top, 0))
    case _ => Max(height - cur.height, Min(top, height))
  }

  function Max(a: int, b: int): int { if a >= b then a else b }
  function Min(a: int, b: int): int { if a <= b then a else b }

  /**
   * Whatever position a drag proposes, once both clamps are applied the
   * openness computed from it lies in [0, 1].
   */
  lemma ClampedOpennessInUnitRange(edge: Option<Edge>, left: int, top: int, cur: Bounds, width: int, height: int)
    requires ExtentPositive(edge, cur.width, cur.height)
    ensures var x := ClampHorizontal(edge, left, cur, width);
            var y := ClampVertical(edge, top, cur, height);
            0.0 <= OffsetForPosition(edge, x, y, cur.width, cur.height, width, height) <= 1.0
  {
  }

  /** The fully open position of a drawer of the given edge and size. */
  function OpenPosition(e: Edge, cur: Bounds, width: int, height: int): (p: Point)
    ensures ExtentPositive(Some(e), cur.width, cur.height) ==>
              OffsetForPosition(Some(e), p.x, p.y, cur.width, cur.height, width, height) == 1.0
    ensures ClampHorizontal(Some(e), p.x, cur, width) == p.x && ClampVertical(Some(e), p.y, cur, height) == p.y
  {
    match e
    case Left => Point(0, cur.top)
    case Right => Point(width - cur.width, cur.top)
    case Top => Point(cur.left, 0)
    case Bottom => Point(cur.left, height - cur.height)
  }

  /** The fully closed (hidden) position of a drawer of the given edge and size. */
  function ClosedPosition(e: Edge, cur: Bounds, width: int, height: int): (p: Point)
    ensures ExtentPositive(Some(e), cur.width, cur.height) ==>
              OffsetForPosition(Some(e), p.x, p.y, cur.width, cur.height, width, height) == 0.0
    ensures ClampHorizontal(Some(e), p.x, cur, width) == p.x && ClampVertical(Some(e), p.y, cur, height) == p.y
  {
    match e
    case Left => Point(-(cur.width as int), cur.top)
    case Right => Point(width, cur.top)
    case Top => Point(cur.left, -(cur.height as int))
    case Bottom => Point(cur.left, height)
  }

  // ---------------------------------------------------------------------
  // onLayout: openness to position

  /** Where onLayout places a drawer (its left and top) and the openness it then records. */
  datatype Placement = Placement(left: int, top: int, offset: real)

  /**
   * The position arithmetic of onLayout for one drawer: the visible part is
   * the truncated product of extent and openness; the cross coordinate is 0.
   * An unmatched gravity is placed like a BOTTOM drawer.
   */
  function LayoutPlacement(edge: Option<Edge>, onScreen: real, w: nat, h: nat, width: int, height: int): (p: Placement)
    requires ExtentPositive(edge, w, h)
    ensures Shown(edge, p.left, p.top, w, h, width, height) == Pixels(Extent(edge, w, h), onScreen)
    ensures p.offset == Fraction(Pixels(Extent(edge, w, h), onScreen), Extent(edge, w, h))
    ensures Horizontal(edge) ==> p.top == 0
    ensures !Horizontal(edge) ==> p.left == 0
  {
    PlaceShowing(edge, Pixels(Extent(edge, w, h), onScreen), w, h, width, height)
  }

  /** The placement that leaves `k` pixels of the drawer inside the container. */
  function PlaceShowing(edge: Option<Edge>, k: int, w: nat, h: nat, width: int, height: int): (p: Placement)
    requires ExtentPositive(edge, w, h)
    ensures Shown(edge, p.left, p.top, w, h, width, height) == k
    ensures p.offset == Fraction(k, Extent(edge, w, h))
    ensures Horizontal(edge) ==> p.top == 0
    ensures !Horizontal(edge) ==> p.left == 0
  {
    match edge
    case Some(Left) =>
      var childLeft := -(w as int) + k;
      Placement(childLeft, 0, (w + childLeft) as real / w as real)
    case Some(Right) =>
      var childLeft := width - k;
      Placement(childLeft, 0, (width - childLeft) as real / w as real)
    case Some(Top) =>
      var childTop := -(h as int) + k;
      Placement(0, childTop, (h + childTop) as real / h as real)
    case _ =>
      var childTop := height - k;
      Placement(0, childTop, (height - childTop) as real / h as real)
  }

  /** Layout records the same openness that the drag callback would compute for the position it chose. */
  lemma LayoutAgreesWithDragOffset(edge: Option<Edge>, onScreen: real, w: nat, h: nat, width: int, height: int)
    requires ExtentPositive(edge, w, h)
    ensures var p := LayoutPlacement(edge, onScreen, w, h, width, height);
            p.offset == OffsetForPosition(edge, p.left, p.top, w, h, width, height)
  {
  }

  /**
   * Layout never moves an openness in [0, 1] outside it: it rounds it down to
   * a whole number of pixels, so it loses less than one pixel's worth, and it
   * keeps 0 and 1 exactly.
   */
  lemma LayoutSnapsOpenness(edge: Option<Edge>, onScreen: real, w: nat, h: nat, width: int, height: int)
    requires ExtentPositive(edge, w, h)
    requires 0.0 <= onScreen <= 1.0
    ensures 0.0 <= LayoutPlacement(edge, onScreen, w, h, width, height).offset <= onScreen
    ensures onScreen - LayoutPlacement(edge, onScreen, w, h, width, height).offset < 1.0 / Extent(edge, w, h) as real
    ensures onScreen == 0.0 ==> LayoutPlacement(edge, onScreen, w, h, width, height).offset == 0.0
    ensures onScreen == 1.0 ==> LayoutPlacement(edge, onScreen, w, h, width, height).offset == 1.0
  {
    TruncatedRatio(Extent(edge, w, h), onScreen, LayoutPlacement(edge, onScreen, w, h, width, height).offset);
  }

  /** Truncating `e * s` to whole pixels and dividing by `e` again rounds `s` down by less than `1 / e`. */
  lemma TruncatedRatio(e: nat, s: real, q: real)
    requires e > 0 && 0.0 <= s <= 1.0
    requires q == Fraction(Pixels(e, s), e)
    ensures 0.0 <= q <= s && s - q < 1.0 / e as real
    ensures s == 0.0 ==> q == 0.0
    ensures s == 1.0 ==> q == 1.0
  {
    var x := e as real * s;
    var k := Pixels(e, s);
    assert k == JavaIntCast(x);
    assert q == k as real / e as real;
    MulBounds(e as real, s);
    QuotientBounds(k as real, e as real, s);
    if s == 1.0 {
      assert x == e as real;
      assert k == e;
    }
  }

  lemma MulBounds(e: real, s: real)
    requires e > 0.0 && 0.0 <= s <= 1.0
    ensures 0.0 <= e * s <= e
  {
  }

  lemma QuotientBounds(k: real, e: real, s: real)
    requires e > 0.0 && 0.0 <= k <= e * s < k + 1.0
    ensures 0.0 <= k / e <= s && s - k / e < 1.0 / e
  {
    assert k / e * e == k;
    assert s * e == e * s;
    assert (s - k / e) * e < 1.0;
  }

  /** Truncating a whole number of pixels again gives the same whole number. */
  lemma RecastIsExact(e: nat, k: int, q: real)
    requires e > 0 && q == Fraction(k, e)
    ensures Pixels(e, q) == k
  {
    assert e as real * q == k as real;
  }

  /** Laying out an already laid-out drawer again changes neither its place nor its openness. */
  lemma LayoutIsIdempotent(edge: Option<Edge>, onScreen: real, w: nat, h: nat, width: int, height: int)
    requires ExtentPositive(edge, w, h)
    ensures var p := LayoutPlacement(edge, onScreen, w, h, width, height);
            LayoutPlacement(edge, p.offset, w, h, width, height) == p
  {
    var e := Extent(edge, w, h);
    var k := Pixels(e, onScreen);
    var p := LayoutPlacement(edge, onScreen, w, h, width, height);
    RecastIsExact(e, k, p.offset);
    assert LayoutPlacement(edge, p.offset, w, h, width, height) == PlaceShowing(edge, k, w, h, width, height);
  }

  // ---------------------------------------------------------------------
  // onViewReleased: where a released drawer settles

  /** The release velocity along the drawer's axis, positive when it points toward open. */
  function VelocityTowardOpen(e: Edge, xvel: real, yvel: real): real {
    match e
    case Left => xvel
    case Right => -xvel
    case Top => yvel
    case Bottom => -yvel
  }

  /**
   * onViewReleased: a fling toward open opens, a fling toward closed closes,
   * and without velocity the drawer opens only when it is more than half open
   * (exactly half closes). A gravity that matches no edge settles at (0, 0).
   */
  function ReleaseTarget(edge: Option<Edge>, offset: real, xvel: real, yvel: real, cur: Bounds, width: int, height: int): (p: Point)
    ensures edge.None? ==> p == Point(0, 0)
    ensures edge.Some? && VelocityTowardOpen(edge.value, xvel, yvel) > 0.0 ==> p == OpenPosition(edge.value, cur, width, height)
    ensures edge.Some? && VelocityTowardOpen(edge.value, xvel, yvel) < 0.0 ==> p == ClosedPosition(edge.value, cur, width, height)
    ensures edge.Some? && VelocityTowardOpen(edge.value, xvel, yvel) == 0.0 ==>
              p == (if offset > 0.5 then OpenPosition(edge.value, cur, width, height)
                    else ClosedPosition(edge.value, cur, width, height))
  {
    match edge
    case Some(Left) =>
      Point(if xvel > 0.0 || (xvel == 0.0 && offset > 0.5) then 0 else -(cur.width as int), cur.top)
    case Some(Right) =>
      Point(if xvel < 0.0 || (xvel == 0.0 && offset > 0.5) then width - cur.width else width, cur.top)
    case Some(Top) =>
      Point(cur.left, if yvel > 0.0 || (yvel == 0.0 && offset > 0.5) then 0 else -(cur.height as int))
    case Some(Bottom) =>
      Point(cur.left, if yvel < 0.0 || (yvel == 0.0 && offset > 0.5) then height - cur.height else height)
    case None => Point(0, 0)
  }

  // ---------------------------------------------------------------------
  // peekDrawer

  /**
   * The position peekDrawer slides a drawer to: `peekDistance` pixels of it
   * showing. `found` is the drawer the edge's lookup returned, if any.
   */
  function PeekTarget(e: Edge, found: Option<Bounds>, peekDistance: int, width: int, height: int): (p: Point)
    ensures found.Some? ==> Shown(Some(e), p.x, p.y, found.value.width, found.value.height, width, height) == peekDistance
    ensures Horizontal(Some(e)) ==> p.y == 0
    ensures !Horizontal(Some(e)) ==> p.x == 0
  {
    match e
    case Left => Point((if found.Some? then -(found.value.width as int) else 0) + peekDistance, 0)
    case Right => Point(width - peekDistance, 0)
    case Top => Point(0, (if found.Some? then -(found.value.height as int) else 0) + peekDistance)
    case Bottom => Point(0, height - peekDistance)
  }

  /**
   * The geometric part of peekDrawer's guard. It compares both coordinates
   * with the target, whose cross coordinate is 0, so a drawer peeks only when
   * it shows fewer pixels than the target would AND its cross coordinate is
   * strictly positive.
   */
  predicate PeekEligible(e: Edge, cur: Bounds, target: Point)
  {
    var leftEdge := e == Left;
    var topEdge := e == Top;
    ((leftEdge && cur.left < target.x) || (!leftEdge && cur.left > target.x))
    && ((topEdge && cur.top < target.y) || (!topEdge && cur.top > target.y))
  }

  /** What the peek guard demands of the drawer found for the edge. */
  lemma PeekNeedsPositiveCrossCoordinate(e: Edge, cur: Bounds, peekDistance: int, width: int, height: int)
    ensures var t := PeekTarget(e, Some(cur), peekDistance, width, height);
            PeekEligible(e, cur, t) <==>
              Shown(Some(e), cur.left, cur.top, cur.width, cur.height, width, height) < peekDistance
              && (if Horizontal(Some(e)) then cur.top > 0 else cur.left > 0)
  {
  }
}
