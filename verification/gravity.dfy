/**
 * Android gravity values as 32-bit masks, the resolution of relative gravities
 * (START/END) into absolute ones, and the gravity predicates the drawer
 * container uses to classify its children.
 */
module Gravity {

  import opened Common

  const NO_GRAVITY: bv32 := 0x00
  const LEFT: bv32 := 0x03
  const RIGHT: bv32 := 0x05
  const TOP: bv32 := 0x30
  const BOTTOM: bv32 := 0x50
  const CENTER_VERTICAL: bv32 := 0x10
  const HORIZONTAL_GRAVITY_MASK: bv32 := 0x07
  const VERTICAL_GRAVITY_MASK: bv32 := 0x70
  const RELATIVE_LAYOUT_DIRECTION: bv32 := 0x0080_0000
  const START: bv32 := 0x0080_0003
  const END: bv32 := 0x0080_0005

  /** The four container edges a drawer can be anchored to. */
  datatype Edge = Left | Right | Top | Bottom

  /** The absolute gravity constant of an edge. */
  function EdgeGravity(e: Edge): (g: bv32)
    ensures EdgeOf(g) == Some(e)
    ensures IsDrawerGravity(g) && !IsContentGravity(g)
  {
    match e
    case Left => LEFT
    case Right => RIGHT
    case Top => TOP
    case Bottom => BOTTOM
  }

  /**
   * The `switch (absGravity)` the container uses everywhere: only the four
   * exact constants select an edge; every other value falls to `default`.
   */
  function EdgeOf(abs: bv32): (r: Option<Edge>)
    ensures r.None? <==> abs != LEFT && abs != RIGHT && abs != TOP && abs != BOTTOM
    ensures r.Some? ==> abs == (match r.value
                                case Left => LEFT
                                case Right => RIGHT
                                case Top => TOP
                                case Bottom => BOTTOM)
  {
    if abs == LEFT then Some(Left)
    else if abs == RIGHT then Some(Right)
    else if abs == TOP then Some(Top)
    else if abs == BOTTOM then Some(Bottom)
    else None
  }

  /**
   * GravityCompat.getAbsoluteGravity: a relative START/END gravity becomes
   * LEFT/RIGHT according to the layout direction, and the relative flag is
   * dropped; an absolute gravity is returned unchanged.
   */
  function AbsoluteGravity(g: bv32, rtl: bool): (r: bv32)
    ensures r & RELATIVE_LAYOUT_DIRECTION == 0
    ensures g & RELATIVE_LAYOUT_DIRECTION == 0 ==> r == g
    ensures g == START ==> r == (if rtl then RIGHT else LEFT)
    ensures g == END ==> r == (if rtl then LEFT else RIGHT)
  {
    if g & RELATIVE_LAYOUT_DIRECTION != 0 then
      var resolved :=
        if g & START == START then (g & !START) | (if rtl then RIGHT else LEFT)
        else if g & END == END then (g & !END) | (if rtl then LEFT else RIGHT)
        else g;
      resolved & !RELATIVE_LAYOUT_DIRECTION
    else
      g
  }

  /** `gravity & Gravity.HORIZONTAL_GRAVITY_MASK` */
  function HorizontalBits(g: bv32): (h: bv32)
    ensures h & !HORIZONTAL_GRAVITY_MASK == 0
    ensures (g ^ h) & HORIZONTAL_GRAVITY_MASK == 0
  {
    g & HORIZONTAL_GRAVITY_MASK
  }

  /** isDrawerView: the absolute gravity has a bit of LEFT, RIGHT, TOP or BOTTOM. */
  predicate IsDrawerGravity(abs: bv32) {
    abs & (LEFT | RIGHT | TOP | BOTTOM) != 0
  }

  /** isContentView: the (unresolved) gravity is NO_GRAVITY. */
  predicate IsContentGravity(g: bv32) {
    g == NO_GRAVITY
  }

  /** checkDrawerViewAbsoluteGravity: every bit of `checkFor` is set in `abs`. */
  predicate HasGravity(abs: bv32, checkFor: bv32) {
    abs & checkFor == checkFor
  }

  /**
   * For the exact edge constants, checking one edge's gravity against another
   * succeeds only for the same edge, so a drag callback for one edge never
   * accepts another edge's drawer.
   */
  lemma EdgeChecksAreExclusive(e: Edge, f: Edge)
    ensures HasGravity(EdgeGravity(e), EdgeGravity(f)) <==> e == f
  {
  }

  /**
   * The lookup by gravity compares horizontal bits only: TOP, BOTTOM and
   * NO_GRAVITY all have none, so they are indistinguishable to it.
   */
  lemma VerticalEdgesShareHorizontalBits()
    ensures HorizontalBits(TOP) == HorizontalBits(BOTTOM) == HorizontalBits(NO_GRAVITY) == 0
    ensures HorizontalBits(LEFT) != HorizontalBits(RIGHT)
  {
  }

  // ---------------------------------------------------------------------
  // gravityToString and Integer.toHexString

  predicate IsHexDigit(c: char) {
    ('0' <= c <= '9') || ('a' <= c <= 'f')
  }

  function HexDigit(d: nat): (c: char)
    requires d < 16
    ensures IsHexDigit(c) && DigitValue(c) == d
  {
    if d < 10 then ('0' as int + d) as char else ('a' as int + d - 10) as char
  }

  function DigitValue(c: char): (d: nat)
    requires IsHexDigit(c)
    ensures d < 16
  {
    if '0' <= c <= '9' then c as int - '0' as int else c as int - 'a' as int + 10
  }

  /** Integer.toHexString of a non-negative value: lower case, no leading zeros. */
  function HexString(n: nat): (s: string)
    ensures |s| >= 1
    ensures forall k :: 0 <= k < |s| ==> IsHexDigit(s[k])
    decreases n
  {
    if n < 16 then [HexDigit(n)] else HexString(n / 16) + [HexDigit(n % 16)]
  }

  /** The value a string of hexadecimal digits denotes. */
  function ParseHex(s: string): nat
    requires forall k :: 0 <= k < |s| ==> IsHexDigit(s[k])
  {
    if s == [] then 0 else ParseHex(s[..|s| - 1]) * 16 + DigitValue(s[|s| - 1])
  }

  /** The hexadecimal rendering denotes the value it was made from. */
  lemma {:induction false} HexStringRoundTrip(n: nat)
    ensures ParseHex(HexString(n)) == n
    decreases n
  {
    if n >= 16 {
      HexStringRoundTrip(n / 16);
      var s := HexString(n);
      assert s[..|s| - 1] == HexString(n / 16);
    }
  }

  /** The hexadecimal rendering has no leading zero, except for zero itself. */
  lemma {:induction false} HexStringNoLeadingZero(n: nat)
    ensures HexString(n)[0] == '0' <==> n == 0
    decreases n
  {
    if n >= 16 {
      HexStringNoLeadingZero(n / 16);
    }
  }

  /**
   * gravityToString: the first of LEFT, RIGHT, TOP, BOTTOM whose bits are all
   * set, otherwise the gravity as an unsigned hexadecimal number.
   */
  function GravityToString(g: bv32): (s: string)
    ensures HasGravity(g, LEFT) ==> s == "LEFT"
    ensures !HasGravity(g, LEFT) && HasGravity(g, RIGHT) ==> s == "RIGHT"
    ensures !HasGravity(g, LEFT) && !HasGravity(g, RIGHT) && HasGravity(g, TOP) ==> s == "TOP"
    ensures (!HasGravity(g, LEFT) && !HasGravity(g, RIGHT) && !HasGravity(g, TOP) && HasGravity(g, BOTTOM))
            ==> s == "BOTTOM"
    ensures (!HasGravity(g, LEFT) && !HasGravity(g, RIGHT) && !HasGravity(g, TOP) && !HasGravity(g, BOTTOM))
            ==> (forall k :: 0 <= k < |s| ==> IsHexDigit(s[k])) && ParseHex(s) == g as int
  {
    if HasGravity(g, LEFT) then "LEFT"
    else if HasGravity(g, RIGHT) then "RIGHT"
    else if HasGravity(g, TOP) then "TOP"
    else if HasGravity(g, BOTTOM) then "BOTTOM"
    else HexStringRoundTrip(g as int); HexString(g as int)
  }
}
