# AllDrawerLayout in Dafny

This project models the decision and state core of `AllDrawerLayout`. That is an Android
`ViewGroup` with up to four sliding drawers, one per edge: LEFT, RIGHT, TOP and BOTTOM. It was
adapted from the support library's `DrawerLayout`.

Each drawer is a child view. Its layout params carry:
- a gravity;
- an openness `onScreen` in [0, 1];
- a `isPeeking` flag;
- a `knownOpen` flag.

The container holds:
- four lock modes;
- one `ViewDragHelper` and one callback object per edge;
- an aggregate drawer state;
- a first-layout flag;
- touch bookkeeping;
- the scrim opacity.

## Modules
- `Common`: options, points, bounds and margins, and the exceptions the container throws,
  written as `Outcome`/`Result` values.
- `Gravity`: Android gravity values as `bv32` masks. It also holds relative-to-absolute
  resolution (`GravityCompat.getAbsoluteGravity`), the `switch (absGravity)` edge selection and
  `gravityToString` with its hexadecimal fallback.
- `Geometry`: the integer and ratio arithmetic of the edges. It covers:
  - the drag clamps;
  - position to openness (`onViewPositionChanged`);
  - openness to position (`onLayout`);
  - the release snap rule;
  - the peek target and its guard.
- `Drawers`: the child record, the drag-phase fold, and the first-match search every lookup
  loop performs. It also holds:
  - the abstract per-edge drag helper (`EdgeController`);
  - the settle targets of the open and close paths;
  - the scrim maximum, listener events and the saved-state snapshot.
- `Container`: the whole container state as one value (`Layout`), and its operations as
  functions of it. These cover dispatch, the lock table, lookups, queries, open, close and
  `closeDrawers`.
- `Measure`, `Input`, `Callbacks`: these add, in the same style:
  - measuring and layout, `computeScroll`, attach and detach;
  - touch, keys, and saving or restoring state;
  - the `ViewDragCallback` of each edge.
- `DrawerLayout`: the class `AllDrawerLayout`.
  - Its fields are the container's fields.
  - Every method updates them in place, and its `ensures` ties the new state to the matching
    function of the old state: `State() == Container.OpenDrawer(old(State()), i).state`.
  - The loops are real loops: `closeDrawers`, `onLayout`, `computeScroll`, the three lookups,
    `onMeasure`'s child check and `onSaveInstanceState`. Each carries invariants stated with
    `CloseDrawersUpTo`, `LayoutUpTo`, `MaxOpenness` or `First`.

Children are values in a sequence and are identified by their index. Each `ViewDragHelper` is
reduced to what the container can observe of it:
- its phase;
- the captured child;
- the last settle it was asked for;
- how many times it was cancelled;
- whether the edge's delayed peek is posted.

Listener calls are appended to an event sequence. Openness is a `real`. Java's `(int)` cast
truncates toward zero and `/ 2` on `int` is truncating division; both are written out.

Where the code departs from its documented intent, the model follows the code:
- at zero velocity, an openness of exactly 0.5 settles closed;
- `closeOtherDrawer` closes the drawer of the callback's own edge;
- a peek is therefore immediately replaced by a close request;
- a peek slides the drawer to the target's x but keeps its own top, so a TOP or BOTTOM peek
  never brings the drawer into view;
- `closeDrawers` sends TOP and BOTTOM drawers to `(getWidth(), top)`, which does not close them;
- `openDrawer` passes the BOTTOM target with its coordinates swapped;
- the lookup by gravity compares only horizontal bits, so TOP and BOTTOM requests find the
  content view when it comes first;
- `onMeasure`'s duplicate-edge check can never fire;
- `onRestoreInstanceState` restores only the LEFT and RIGHT lock modes;
- `SavedState.writeToParcel` and `SavedState(Parcel)` carry only the open drawer's gravity, so
  lock modes saved through a Parcel come back UNLOCKED;
- `onLayout` re-frames only CENTER_VERTICAL drawers.

## Model

| member | source | states |
|---|---|---|
| Gravity.EdgeOf | src/com/aidy/bottomdrawerlayout/AllDrawerLayout.java:829-860 | An edge is selected exactly for the four exact constants LEFT, RIGHT, TOP and BOTTOM; every other gravity falls to `default` |
| Gravity.AbsoluteGravity | src/com/aidy/bottomdrawerlayout/AllDrawerLayout.java:628-631 | START/END become LEFT/RIGHT by layout direction; the relative flag is always cleared; an absolute gravity is unchanged |
| Gravity.HorizontalBits | src/com/aidy/bottomdrawerlayout/AllDrawerLayout.java:680-685 | Keeps exactly the bits of `HORIZONTAL_GRAVITY_MASK`: no bit outside the mask, and every bit inside it as in the gravity |
| Gravity.EdgeChecksAreExclusive | src/com/aidy/bottomdrawerlayout/AllDrawerLayout.java:633-636 | Checking one edge constant against another succeeds exactly for the same edge |
| Gravity.VerticalEdgesShareHorizontalBits | src/com/aidy/bottomdrawerlayout/AllDrawerLayout.java:678-690 | TOP, BOTTOM and NO_GRAVITY have the same (zero) horizontal bits; LEFT and RIGHT differ |
| Gravity.GravityToString | src/com/aidy/bottomdrawerlayout/AllDrawerLayout.java:700-714 | The first edge name whose bits are all set; otherwise a hexadecimal string denoting the gravity |
| Gravity.HexStringRoundTrip | src/com/aidy/bottomdrawerlayout/AllDrawerLayout.java:713 | Parsing the hexadecimal rendering gives back the number |
| Gravity.HexStringNoLeadingZero | src/com/aidy/bottomdrawerlayout/AllDrawerLayout.java:713 | The rendering starts with '0' only for zero |
| Geometry.JavaIntCast | src/com/aidy/bottomdrawerlayout/AllDrawerLayout.java:832 | The `(int)` cast truncates toward zero: within one of the value, never away from zero |
| Geometry.JavaHalf | src/com/aidy/bottomdrawerlayout/AllDrawerLayout.java:884 | `a / 2` truncates toward zero |
| Geometry.OffsetForPosition | src/com/aidy/bottomdrawerlayout/AllDrawerLayout.java:1646-1679 | The openness is the visible pixels over the extent; it is in [0, 1] iff the visible pixels are between 0 and the extent, 1 iff fully shown, 0 iff nothing shows |
| Geometry.ClampHorizontal | src/com/aidy/bottomdrawerlayout/AllDrawerLayout.java:1851-1880 | LEFT stays in [-w, 0] and RIGHT/default in [W-w, W]; in-range positions are kept and out-of-range ones go to the nearer bound; TOP/BOTTOM keep the current left |
| Geometry.ClampVertical | src/com/aidy/bottomdrawerlayout/AllDrawerLayout.java:1883-1912 | TOP stays in [-h, 0] and BOTTOM/default in [H-h, H], with the same bound rules; LEFT/RIGHT keep the current top |
| Geometry.ClampedOpennessInUnitRange | src/com/aidy/bottomdrawerlayout/AllDrawerLayout.java:1646-1679 | After both clamps, the openness computed from the position is in [0, 1] |
| Geometry.OpenPosition | src/com/aidy/bottomdrawerlayout/AllDrawerLayout.java:1714-1754 | The open position has openness 1 and is a fixed point of both clamps |
| Geometry.ClosedPosition | src/com/aidy/bottomdrawerlayout/AllDrawerLayout.java:1714-1754 | The closed position has openness 0 and is a fixed point of both clamps |
| Geometry.LayoutPlacement | src/com/aidy/bottomdrawerlayout/AllDrawerLayout.java:829-860 | Layout shows `(int)(extent * onScreen)` pixels and records that count over the extent; the cross coordinate is 0 |
| Geometry.LayoutAgreesWithDragOffset | src/com/aidy/bottomdrawerlayout/AllDrawerLayout.java:829-860 | The openness layout records equals the one the drag callback computes for the chosen position |
| Geometry.LayoutSnapsOpenness | src/com/aidy/bottomdrawerlayout/AllDrawerLayout.java:829-860 | For an openness in [0, 1], layout rounds it down by less than one pixel's worth and keeps 0 and 1 exactly |
| Geometry.LayoutIsIdempotent | src/com/aidy/bottomdrawerlayout/AllDrawerLayout.java:829-860 | Placing an already placed drawer again changes neither position nor openness |
| Geometry.ReleaseTarget | src/com/aidy/bottomdrawerlayout/AllDrawerLayout.java:1714-1754 | A velocity toward open opens and one toward closed closes; at zero velocity the drawer opens iff openness > 0.5; an unmatched gravity goes to (0, 0) |
| Geometry.PeekTarget | src/com/aidy/bottomdrawerlayout/AllDrawerLayout.java:1762-1790 | The peek target shows exactly the peek distance of the found drawer; its cross coordinate is 0 (top 0 for LEFT/RIGHT, left 0 for TOP/BOTTOM) |
| Geometry.PeekNeedsPositiveCrossCoordinate | src/com/aidy/bottomdrawerlayout/AllDrawerLayout.java:1791-1793 | The peek guard holds iff the drawer shows fewer pixels than the peek distance and its cross coordinate is strictly positive |
| Drawers.StateCode | src/com/aidy/bottomdrawerlayout/AllDrawerLayout.java:88-99 | The listener codes are 0 to 2, and the code is 0 exactly for IDLE |
| Drawers.AbsGravity | src/com/aidy/bottomdrawerlayout/AllDrawerLayout.java:628-631 | The resolved gravity never has the relative flag; an absolute gravity is kept; START/END become LEFT/RIGHT by direction |
| Drawers.IsDrawer | src/com/aidy/bottomdrawerlayout/AllDrawerLayout.java:1069-1073 | The content view is never a drawer; a child whose absolute gravity is an exact edge always is |
| Drawers.Aggregate | src/com/aidy/bottomdrawerlayout/AllDrawerLayout.java:550-565 | The aggregate is one of the four phases and has the highest priority: DRAGGING over SETTLING over IDLE |
| Drawers.AggregateIdleIffAllIdle | src/com/aidy/bottomdrawerlayout/AllDrawerLayout.java:550-565 | The aggregate is IDLE iff all four edges are idle, and the edges' order does not matter |
| Drawers.ContentIsNotADrawer | src/com/aidy/bottomdrawerlayout/AllDrawerLayout.java:1065-1073 | The content view is never a drawer; a child on an exact edge always is a drawer |
| Drawers.First | src/com/aidy/bottomdrawerlayout/AllDrawerLayout.java:678-690 | Returns the index of the first child passing the test, or none when no child passes |
| Drawers.VerticalLookupFindsContentFirst | src/com/aidy/bottomdrawerlayout/AllDrawerLayout.java:678-690 | A TOP or BOTTOM lookup finds a leading content view |
| Drawers.FreshController | src/com/aidy/bottomdrawerlayout/AllDrawerLayout.java:263-281 | A new helper is idle, captures nothing, has no settle request and no pending peek |
| Drawers.RouteOf | src/com/aidy/bottomdrawerlayout/AllDrawerLayout.java:416-437 | A `switch (absGravity)` uses the edge's own helper, and BOTTOM's by default |
| Drawers.OpenTarget | src/com/aidy/bottomdrawerlayout/AllDrawerLayout.java:1276-1294 | LEFT, RIGHT and TOP get the open position; BOTTOM and default get the open position with its coordinates swapped |
| Drawers.BottomOpenTargetOvershoots | src/com/aidy/bottomdrawerlayout/AllDrawerLayout.java:1289 | For every bounds and container size, the swapped BOTTOM target puts the drawer's top at its own left coordinate: it is the open position exactly when that left equals the open top, and it shows `height - left` pixels |
| Drawers.CloseTarget | src/com/aidy/bottomdrawerlayout/AllDrawerLayout.java:1321-1354 | The target is the closed position for the helper's edge |
| Drawers.CloseDrawersTarget | src/com/aidy/bottomdrawerlayout/AllDrawerLayout.java:1223-1245 | LEFT and RIGHT drawers get their closed position; every target keeps the drawer's top |
| Drawers.CloseDrawersKeepsVerticalOpenness | src/com/aidy/bottomdrawerlayout/AllDrawerLayout.java:1234-1245 | The TOP/BOTTOM/default target leaves the openness as it was, so those drawers are not closed |
| Drawers.MaxOpenness | src/com/aidy/bottomdrawerlayout/AllDrawerLayout.java:925-931 | At least 0 and at least every child's openness; it is 0 or some child's openness |
| Container.Cancel | src/com/aidy/bottomdrawerlayout/AllDrawerLayout.java:438-441 | The edge's helper records one more cancel and is otherwise unchanged; the other three helpers and every other field of the layout are unchanged |
| Container.SmoothSlide | src/com/aidy/bottomdrawerlayout/AllDrawerLayout.java:1276-1294 | The edge's helper captures child `i` and records the settle request; its phase, cancel count and pending peek are kept; the other helpers and every other field are unchanged |
| Container.RemoveAllCallbacks | src/com/aidy/bottomdrawerlayout/AllDrawerLayout.java:1627-1629 | Every helper loses its pending peek and is otherwise unchanged; every other field is unchanged |
| Container.DispatchOnDrawerClosed | src/com/aidy/bottomdrawerlayout/AllDrawerLayout.java:582-591 | `knownOpen` becomes false; a close event is emitted iff it was true |
| Container.DispatchOnDrawerOpened | src/com/aidy/bottomdrawerlayout/AllDrawerLayout.java:593-602 | `knownOpen` becomes true; an open event is emitted iff it was false |
| Container.DispatchIsIdempotent | src/com/aidy/bottomdrawerlayout/AllDrawerLayout.java:582-602 | Dispatching twice equals dispatching once |
| Container.SetDrawerViewOffset | src/com/aidy/bottomdrawerlayout/AllDrawerLayout.java:610-618 | The same openness changes nothing; a new openness is stored and emitted exactly once |
| Container.UpdateDrawerState | src/com/aidy/bottomdrawerlayout/AllDrawerLayout.java:550-580 | The stored state becomes the aggregate. An idle helper's drawer gets `knownOpen` false at openness 0 and true at 1. Otherwise the children are unchanged |
| Container.UpdateDrawerStateReports | src/com/aidy/bottomdrawerlayout/AllDrawerLayout.java:550-580 | Events are emitted in order: a close or open event only when the flag disagrees, then a state change iff the aggregate differs from the stored state |
| Container.WithLockMode | src/com/aidy/bottomdrawerlayout/AllDrawerLayout.java:416-437 | Only the named edge's lock mode changes; an unknown gravity stores nothing |
| Container.LockAndCancel | src/com/aidy/bottomdrawerlayout/AllDrawerLayout.java:416-441 | Only the lock modes and helpers may change: the routed helper gains one cancel unless the mode is UNLOCKED, and is otherwise kept; the other helpers are unchanged |
| Container.SetDrawerLockMode | src/com/aidy/bottomdrawerlayout/AllDrawerLayout.java:416-459 | The mode is stored and a non-UNLOCKED edge is cancelled; then, if a drawer is found for the gravity, LOCKED_OPEN opens it and LOCKED_CLOSED closes it, and otherwise nothing more happens |
| Container.LockModeTable | src/com/aidy/bottomdrawerlayout/AllDrawerLayout.java:416-518 | The getter returns the set mode for an edge gravity and UNLOCKED otherwise; the other edges keep their modes |
| Container.GetDrawerLockMode | src/com/aidy/bottomdrawerlayout/AllDrawerLayout.java:504-517 | An edge gravity (after resolving START/END) reads its own edge's stored mode; any other gravity reads UNLOCKED |
| Container.GetDrawerLockModeOfChild | src/com/aidy/bottomdrawerlayout/AllDrawerLayout.java:529-543 | A child's mode is the mode read for its own gravity |
| Container.LockAndCancelStores | src/com/aidy/bottomdrawerlayout/AllDrawerLayout.java:416-437 | Storing sets the named edge's mode and keeps the others |
| Container.LockModeCancels | src/com/aidy/bottomdrawerlayout/AllDrawerLayout.java:438-441 | A non-UNLOCKED mode cancels the edge's helper (BOTTOM's by default) exactly once; UNLOCKED cancels nothing |
| Container.SetLeftLockMode | src/com/aidy/bottomdrawerlayout/AllDrawerLayout.java:1537 | Setting LEFT stores it and keeps the other three modes |
| Container.SetRightLockMode | src/com/aidy/bottomdrawerlayout/AllDrawerLayout.java:1538 | Setting RIGHT stores it and keeps the other three modes |
| Container.SetDrawerLockModeForChild | src/com/aidy/bottomdrawerlayout/AllDrawerLayout.java:487-493 | A non-drawer child throws and changes nothing; a drawer is locked exactly as `SetDrawerLockMode` with its own gravity |
| Container.FindIgnoresUpdate | src/com/aidy/bottomdrawerlayout/AllDrawerLayout.java:678-690 | Changing a child without changing its gravity does not change the lookup |
| Container.FindDrawerWithGravity | src/com/aidy/bottomdrawerlayout/AllDrawerLayout.java:678-690 | The first child whose horizontal gravity bits equal the requested ones, or none when no child matches |
| Container.FindOpenDrawer | src/com/aidy/bottomdrawerlayout/AllDrawerLayout.java:638-647 | The first child known open, or none when no child is |
| Container.HasPeekingDrawer | src/com/aidy/bottomdrawerlayout/AllDrawerLayout.java:1443-1452 | True iff some child is peeking |
| Container.FindVisibleDrawer | src/com/aidy/bottomdrawerlayout/AllDrawerLayout.java:1479-1488 | The first drawer with positive openness, or none when no drawer has it |
| Container.IsDrawerOpen | src/com/aidy/bottomdrawerlayout/AllDrawerLayout.java:1383-1388 | Throws iff the child is not a drawer; otherwise answers `knownOpen` |
| Container.IsDrawerVisible | src/com/aidy/bottomdrawerlayout/AllDrawerLayout.java:1418-1423 | Throws iff the child is not a drawer; otherwise answers whether the openness is positive |
| Container.IsDrawerOpenWithGravity | src/com/aidy/bottomdrawerlayout/AllDrawerLayout.java:1400-1406 | False without a match; otherwise the matched child's answer |
| Container.IsDrawerVisibleWithGravity | src/com/aidy/bottomdrawerlayout/AllDrawerLayout.java:1435-1441 | False without a match; otherwise the matched child's answer |
| Container.QueryByGravityThrowsOnlyForContent | src/com/aidy/bottomdrawerlayout/AllDrawerLayout.java:1400-1441 | TOP/BOTTOM queries with a leading content view throw for that child |
| Container.OpenDrawer | src/com/aidy/bottomdrawerlayout/AllDrawerLayout.java:1264-1297 | A non-drawer throws with the state unchanged. Before the first layout the drawer is at once open with `knownOpen` set, with no helper call. Afterwards only its helper receives the open target. Lock modes are kept |
| Container.CloseDrawer | src/com/aidy/bottomdrawerlayout/AllDrawerLayout.java:1321-1354 | The same with closed: at once closed and not known open before the first layout, else the closed position is requested |
| Container.OpenDrawerWithGravity | src/com/aidy/bottomdrawerlayout/AllDrawerLayout.java:1307-1313 | No match throws with the gravity's name; otherwise it opens the match |
| Container.CloseDrawerWithGravity | src/com/aidy/bottomdrawerlayout/AllDrawerLayout.java:1364-1370 | No match throws with the gravity's name; otherwise it closes the match |
| Container.VerticalOpenHitsContent | src/com/aidy/bottomdrawerlayout/AllDrawerLayout.java:1307-1370 | Opening or closing by TOP/BOTTOM with a leading content view throws "not a drawer" and changes nothing |
| Container.CloseDrawersStep | src/com/aidy/bottomdrawerlayout/AllDrawerLayout.java:1219-1248 | A touched child stops peeking and its helper (BOTTOM's by default) captures it and is asked to settle it at its close target; an untouched child leaves children and helpers as they were; nothing else changes |
| Container.CloseDrawersRequest | src/com/aidy/bottomdrawerlayout/AllDrawerLayout.java:1223-1245 | The close request for a child: LEFT and RIGHT drawers go to their closed position, every other child to x = width at its own top |
| Container.CloseDrawersUpTo | src/com/aidy/bottomdrawerlayout/AllDrawerLayout.java:1214-1249 | The loop prefix changes only children and helpers |
| Container.CloseDrawers | src/com/aidy/bottomdrawerlayout/AllDrawerLayout.java:1212-1256 | Only children and helpers change, and no peek stays pending; its effect on each child and each helper is stated by `CloseDrawersChildren` and `CloseDrawersRequests` |
| Container.CloseDrawersUpToChildren | src/com/aidy/bottomdrawerlayout/AllDrawerLayout.java:1214-1249 | After n iterations, each touched child among the first n stops peeking and all others are unchanged |
| Container.CloseDrawersChildren | src/com/aidy/bottomdrawerlayout/AllDrawerLayout.java:1212-1256 | Exactly the drawers (only the peeking ones when `peekingOnly`) stop peeking; nothing else changes |
| Container.CloseDrawersLeavesNoPeekingDrawer | src/com/aidy/bottomdrawerlayout/AllDrawerLayout.java:1212-1256 | After closeDrawers only a non-drawer can still be peeking |
| Container.LastClosedThrough | src/com/aidy/bottomdrawerlayout/AllDrawerLayout.java:1214-1249 | The last of the first n children that the loop acts on through a given helper, or none when there is none |
| Container.CloseDrawersUpToRequests | src/com/aidy/bottomdrawerlayout/AllDrawerLayout.java:1214-1249 | After n iterations each helper holds the close request of the last child routed to it (or is unchanged when none was); phase, cancels and pending peek never change |
| Container.CloseDrawersRequests | src/com/aidy/bottomdrawerlayout/AllDrawerLayout.java:1212-1256 | After closeDrawers each helper holds the close request of the last child routed to it, or is unchanged apart from its pending peek, which is removed |
| Container.CloseDrawersAsksDrawerToClose | src/com/aidy/bottomdrawerlayout/AllDrawerLayout.java:1212-1256 | A touched drawer with no later touched drawer on the same helper is the one that helper is asked to settle at its close target |
| Container.PeekingOnlyWithoutPeekers | src/com/aidy/bottomdrawerlayout/AllDrawerLayout.java:1219-1221 | With no peeking child, the `peekingOnly` loop changes nothing |
| Measure.MeasuredSize | src/com/aidy/bottomdrawerlayout/AllDrawerLayout.java:736-754 | Throws iff a mode is not EXACTLY outside edit mode; in edit mode UNSPECIFIED becomes 300 |
| Measure.OnMeasure | src/com/aidy/bottomdrawerlayout/AllDrawerLayout.java:729-790 | Succeeds iff the size succeeds and no child has an invalid gravity; a size failure is thrown before any child is looked at; when the size succeeds, the only failure is an invalid gravity, reported for the first such child |
| Measure.MeasureNeverReportsDuplicateEdge | src/com/aidy/bottomdrawerlayout/AllDrawerLayout.java:758-780 | Never throws the duplicate-edge exception |
| Measure.CenteredTop | src/com/aidy/bottomdrawerlayout/AllDrawerLayout.java:882-891 | Centred, else pushed to the top margin, else flush with the bottom margin |
| Measure.Framed | src/com/aidy/bottomdrawerlayout/AllDrawerLayout.java:878-894 | Only the frame may change: a drawer that is not CENTER_VERTICAL keeps its frame; a CENTER_VERTICAL one gets the placement's left, the centred top and its measured size |
| Measure.LaidOut | src/com/aidy/bottomdrawerlayout/AllDrawerLayout.java:810-901 | A GONE child is skipped; the content view is framed at its margins with its measured size; a drawer is framed by `Framed`, takes its placement's openness, and is visible iff that openness is positive; nothing else changes |
| Measure.LayoutChild | src/com/aidy/bottomdrawerlayout/AllDrawerLayout.java:811-901 | Child i is laid out, nothing but the children and events changes, and a slide is emitted iff the openness changes |
| Measure.ShowOffset | src/com/aidy/bottomdrawerlayout/AllDrawerLayout.java:898-901 | The drawer is visible iff its openness is positive |
| Measure.LayoutUpTo | src/com/aidy/bottomdrawerlayout/AllDrawerLayout.java:810-903 | The loop prefix keeps direction, size and helpers, and leaves children from n on untouched |
| Measure.OnLayout | src/com/aidy/bottomdrawerlayout/AllDrawerLayout.java:804-913 | The first layout is over and the size is r-l by b-t; well-formedness is kept |
| Measure.LayoutUpToChildren | src/com/aidy/bottomdrawerlayout/AllDrawerLayout.java:810-903 | After n iterations the first n children are laid out and the rest untouched |
| Measure.OnLayoutChildren | src/com/aidy/bottomdrawerlayout/AllDrawerLayout.java:804-913 | Every child ends laid out at the new size |
| Measure.OnLayoutFrame | src/com/aidy/bottomdrawerlayout/AllDrawerLayout.java:804-913 | Nothing changes but the children, the size, the first-layout flag and the events |
| Measure.LaidOutOpenness | src/com/aidy/bottomdrawerlayout/AllDrawerLayout.java:829-901 | Openness in [0, 1] stays there, loses less than a pixel's worth, keeps 0 and 1, and is visible iff positive |
| Measure.LaidOutIsIdempotent | src/com/aidy/bottomdrawerlayout/AllDrawerLayout.java:804-913 | Laying out twice equals laying out once |
| Measure.ComputeScroll | src/com/aidy/bottomdrawerlayout/AllDrawerLayout.java:923-932 | The scrim opacity becomes the largest openness (or 0), and nothing else changes |
| Measure.ResetFirstLayout | src/com/aidy/bottomdrawerlayout/AllDrawerLayout.java:717-726 | The first-layout flag is set and nothing else changes |
| Measure.FirstLayoutMakesOpenInstant | src/com/aidy/bottomdrawerlayout/AllDrawerLayout.java:1268-1272 | After attach, opening is instant with no helper change; after a layout pass it leaves the children alone |
| Input.OnInterceptTouchEvent | src/com/aidy/bottomdrawerlayout/AllDrawerLayout.java:1076-1125 | See the notes below this table |
| Input.InterceptState | src/com/aidy/bottomdrawerlayout/AllDrawerLayout.java:1076-1125 | DOWN records the start and clears the touch flags; a MOVE past the slop removes the pending peeks; UP and CANCEL close the peeking drawers and clear the flags; any other action changes nothing |
| Input.ReleaseInterceptsOnlyForDrag | src/com/aidy/bottomdrawerlayout/AllDrawerLayout.java:1115-1122 | After UP/CANCEL the answer is exactly the helpers' intercept decision, when no non-drawer child is peeking |
| Input.PeekingOnlyOnUp | src/com/aidy/bottomdrawerlayout/AllDrawerLayout.java:1151-1170 | Every drawer closes iff all of these hold: the UP is over the content, dx²+dy² < slop², and an open drawer exists that is not LOCKED_OPEN |
| Input.OnTouchEvent | src/com/aidy/bottomdrawerlayout/AllDrawerLayout.java:1128-1189 | DOWN records the start and clears the flags. UP runs closeDrawers with the decision above. CANCEL closes peeking drawers. Other actions change nothing |
| Input.TapOnContentClosesDrawers | src/com/aidy/bottomdrawerlayout/AllDrawerLayout.java:1151-1170 | On UP each drawer stops peeking if it was touched, no drawer is left peeking, and each helper holds the close request of the last drawer routed to it, or keeps its request |
| Input.RequestDisallowInterceptTouchEvent | src/com/aidy/bottomdrawerlayout/AllDrawerLayout.java:1191-1203 | The request is recorded; a disallow also closes the peeking drawers |
| Input.OnKeyDown | src/com/aidy/bottomdrawerlayout/AllDrawerLayout.java:1505-1511 | BACK with a visible drawer is claimed; otherwise the superclass decides |
| Input.OnKeyUp | src/com/aidy/bottomdrawerlayout/AllDrawerLayout.java:1514-1523 | BACK is handled iff a drawer is visible, and closes every drawer iff that drawer is unlocked; other keys go to the superclass |
| Input.BackClosesUnlockedDrawers | src/com/aidy/bottomdrawerlayout/AllDrawerLayout.java:1514-1523 | BACK with an unlocked visible drawer makes every drawer stop peeking and leaves each helper with the close request of the last drawer routed to it; with a locked one it changes nothing |
| Input.OnSaveInstanceState | src/com/aidy/bottomdrawerlayout/AllDrawerLayout.java:1542-1568 | The gravity of the first drawer known open (NO_GRAVITY if none) and all four lock modes |
| Input.RestoreOpenDrawer | src/com/aidy/bottomdrawerlayout/AllDrawerLayout.java:1530-1535 | The drawer found for a saved gravity is opened, with its outcome; NO_GRAVITY or no match changes nothing; lock modes and direction are kept |
| Input.OnRestoreInstanceState | src/com/aidy/bottomdrawerlayout/AllDrawerLayout.java:1526-1539 | Keeps the child count and the helpers' indices in range; its effect on the lock modes is stated by the next two rows |
| Input.RestoreSetsOnlyHorizontalLockModes | src/com/aidy/bottomdrawerlayout/AllDrawerLayout.java:1526-1539 | TOP/BOTTOM modes are never restored; LEFT/RIGHT are restored when no exception occurs |
| Input.SaveRestoreKeepsLockModes | src/com/aidy/bottomdrawerlayout/AllDrawerLayout.java:1526-1568 | Save then restore of the same object keeps all four lock modes when it completes: LEFT/RIGHT because they are restored, TOP/BOTTOM only because they are never touched |
| Input.ThroughParcel | src/com/aidy/bottomdrawerlayout/AllDrawerLayout.java:1574-1593 | A saved state written to and read from a Parcel keeps only the open drawer's gravity; all four lock modes come back UNLOCKED |
| Input.ParcelledRestoreUnlocksHorizontalEdges | src/com/aidy/bottomdrawerlayout/AllDrawerLayout.java:1526-1593 | Restoring a state that went through a Parcel unlocks LEFT and RIGHT when it completes and keeps TOP and BOTTOM |
| Callbacks.TryCaptureView | src/com/aidy/bottomdrawerlayout/AllDrawerLayout.java:1632-1638 | Captures iff the child is a drawer with all of the edge's gravity bits and an unlocked edge |
| Callbacks.CaptureOnlyByOwnUnlockedEdge | src/com/aidy/bottomdrawerlayout/AllDrawerLayout.java:1632-1638 | A drawer on an exact edge is captured only by its own edge, and only while unlocked |
| Callbacks.OnViewDragStateChanged | src/com/aidy/bottomdrawerlayout/AllDrawerLayout.java:1641-1643 | The stored state becomes the aggregate; an idle helper's captured child is recorded closed at openness 0 and open at 1; otherwise the children are kept; helpers and all other fields but the event log are kept |
| Callbacks.SetDragState | src/com/aidy/bottomdrawerlayout/AllDrawerLayout.java:1641-1643 | The edge takes the phase. The same phase changes nothing. A change reports the new aggregate. Going idle changes only the edge's helper, to idle with no captured view, and records a held drawer closed at openness 0 and open at 1; any other phase keeps the children and changes only the edge's phase among the helpers. No other field changes |
| Callbacks.ChangeDragState | src/com/aidy/bottomdrawerlayout/AllDrawerLayout.java:1641-1643 | A real phase change: the edge takes the phase and the aggregate is recomputed; going idle clears the captured view and settles the held drawer's `knownOpen`; another phase keeps the children; no other field changes |
| Callbacks.SettlingReportsLifecycle | src/com/aidy/bottomdrawerlayout/AllDrawerLayout.java:566-579 | Settling updates `knownOpen` at openness 0 or 1; the aggregate is idle iff every other edge is idle |
| Callbacks.OnViewPositionChanged | src/com/aidy/bottomdrawerlayout/AllDrawerLayout.java:1646-1679 | New frame; openness recomputed from the position; a slide event iff it changed; invisible iff 0; only the children and the event log change |
| Callbacks.DragKeepsOpennessInRange | src/com/aidy/bottomdrawerlayout/AllDrawerLayout.java:1646-1679 | At clamped positions the openness is in [0, 1], and the drawer is invisible iff it is 0 |
| Callbacks.CloseOtherDrawer | src/com/aidy/bottomdrawerlayout/AllDrawerLayout.java:1688-1711 | Closes the match for the callback's own edge; no match changes nothing |
| Callbacks.OnViewCaptured | src/com/aidy/bottomdrawerlayout/AllDrawerLayout.java:1682-1686 | The captured child stops peeking, then closeOtherDrawer runs |
| Callbacks.CapturedDrawerIsAskedToClose | src/com/aidy/bottomdrawerlayout/AllDrawerLayout.java:1682-1711 | Capturing the first LEFT drawer asks the LEFT helper to close it |
| Callbacks.OnViewReleased | src/com/aidy/bottomdrawerlayout/AllDrawerLayout.java:1714-1754 | The edge's helper keeps the released drawer captured and is asked to settle it at the release target; its phase, cancel count and pending peek, the other three helpers and every other field are unchanged |
| Callbacks.ReleaseSettlesOpenOrClosed | src/com/aidy/bottomdrawerlayout/AllDrawerLayout.java:1714-1754 | A released drawer on an exact edge settles at openness 0 or 1 |
| Callbacks.OnEdgeTouched | src/com/aidy/bottomdrawerlayout/AllDrawerLayout.java:1757-1760 | The edge's peek becomes pending and the helper is otherwise unchanged; the other edges and every other field are unchanged |
| Callbacks.CancelChildViewTouch | src/com/aidy/bottomdrawerlayout/AllDrawerLayout.java:1490-1502 | The flag is set and nothing else changes |
| Callbacks.PeekDrawer | src/com/aidy/bottomdrawerlayout/AllDrawerLayout.java:1762-1805 | The edge's peek is no longer pending afterwards; when the guard fails nothing else changes, and when it holds the guarded peek runs |
| Callbacks.PeekAllowedMeans | src/com/aidy/bottomdrawerlayout/AllDrawerLayout.java:1791-1797 | The guard holds iff a drawer is found for the edge, shows fewer pixels than the peek distance, has a strictly positive cross coordinate, and its edge is unlocked |
| Callbacks.PeekSlide | src/com/aidy/bottomdrawerlayout/AllDrawerLayout.java:1798-1800 | The edge's helper captures the found drawer and is asked to settle it at the peek target's x and its own top; the drawer is marked peeking; nothing else changes |
| Callbacks.PeekSlideShows | src/com/aidy/bottomdrawerlayout/AllDrawerLayout.java:1762-1800 | A LEFT/RIGHT peek request shows exactly the peek distance at the drawer's own top; a TOP/BOTTOM one goes to left 0 and shows what the drawer already showed |
| Callbacks.Peek | src/com/aidy/bottomdrawerlayout/AllDrawerLayout.java:1798-1803 | The peek slide, then closeOtherDrawer with its outcome, then, if that completed, the children's touches are cancelled |
| Callbacks.PeekIsReplacedByClose | src/com/aidy/bottomdrawerlayout/AllDrawerLayout.java:1762-1805 | For any edge: a found non-drawer makes the peek throw; a drawer stays peeking with touches cancelled, and after the first layout its own helper is asked to close it (before it, it is marked closed); the peek request survives only where that close does not overwrite it |
| Callbacks.DragStartGravity | src/com/aidy/bottomdrawerlayout/AllDrawerLayout.java:1822-1833 | EDGE_LEFT gives LEFT; else EDGE_RIGHT gives RIGHT; else EDGE_TOP gives TOP; anything else gives BOTTOM |
| Callbacks.CaptureChildView | src/com/aidy/bottomdrawerlayout/AllDrawerLayout.java:1834-1836 | Same outcome and children as onViewCaptured after the child is captured. On success the state is setDragState(DRAGGING) applied to onViewCaptured's state: the helper is dragging, nothing else changes among the helpers, and only the helpers, the stored drag state and the event log differ from onViewCaptured's state. On an exception the state is onViewCaptured's |
| Callbacks.OnEdgeDragStarted | src/com/aidy/bottomdrawerlayout/AllDrawerLayout.java:1820-1837 | No drawer for the flags, or a locked one, changes nothing; an unlocked one is captured by `CaptureChildView` |
| Callbacks.EdgeDragCapturesDrawer | src/com/aidy/bottomdrawerlayout/AllDrawerLayout.java:1682-1837 | An edge drag on the callback's own edge onto an unlocked drawer completes with the helper dragging that drawer, which no longer peeks |
| Callbacks.EdgeCallbackKeepsDrawer | src/com/aidy/bottomdrawerlayout/AllDrawerLayout.java:1681-1685 | onViewCaptured on the edge's own unlocked drawer succeeds, keeps that drawer captured and clears its peeking flag |
| Callbacks.TopEdgeDragCapturesContent | src/com/aidy/bottomdrawerlayout/AllDrawerLayout.java:1820-1837 | A TOP edge drag with a leading content view captures it and then throws "not a drawer" |
| DrawerLayout.AllDrawerLayout.constructor | src/com/aidy/bottomdrawerlayout/AllDrawerLayout.java:251-288 | Four idle helpers, all edges unlocked, IDLE, first layout pending |
| DrawerLayout.AllDrawerLayout.CancelDragger | src/com/aidy/bottomdrawerlayout/AllDrawerLayout.java:438-441 | In place: the state becomes `Container.Cancel` of the old state |
| DrawerLayout.AllDrawerLayout.SmoothSlideViewTo | src/com/aidy/bottomdrawerlayout/AllDrawerLayout.java:1276-1294 | In place: the state becomes `Container.SmoothSlide` of the old state |
| DrawerLayout.AllDrawerLayout.RemoveCallbacks | src/com/aidy/bottomdrawerlayout/AllDrawerLayout.java:1627-1629 | In place: only the edge's peek stops being pending |
| DrawerLayout.AllDrawerLayout.RemoveAllCallbacks | src/com/aidy/bottomdrawerlayout/AllDrawerLayout.java:1250-1253 | In place: the state becomes `Container.RemoveAllCallbacks` of the old state |
| DrawerLayout.AllDrawerLayout.DispatchOnDrawerClosed | src/com/aidy/bottomdrawerlayout/AllDrawerLayout.java:582-591 | In place, as `Container.DispatchOnDrawerClosed` |
| DrawerLayout.AllDrawerLayout.DispatchOnDrawerOpened | src/com/aidy/bottomdrawerlayout/AllDrawerLayout.java:593-602 | In place, as `Container.DispatchOnDrawerOpened` |
| DrawerLayout.AllDrawerLayout.SetDrawerViewOffset | src/com/aidy/bottomdrawerlayout/AllDrawerLayout.java:610-618 | In place, as `Container.SetDrawerViewOffset` |
| DrawerLayout.AllDrawerLayout.UpdateDrawerState | src/com/aidy/bottomdrawerlayout/AllDrawerLayout.java:550-580 | In place, as `Container.UpdateDrawerState` |
| DrawerLayout.AllDrawerLayout.FindDrawerWithGravity | src/com/aidy/bottomdrawerlayout/AllDrawerLayout.java:678-690 | The search loop returns the first child with the requested horizontal bits, or none when no child has them |
| DrawerLayout.AllDrawerLayout.FindOpenDrawer | src/com/aidy/bottomdrawerlayout/AllDrawerLayout.java:638-647 | The search loop returns the first child known open, or none when no child is |
| DrawerLayout.AllDrawerLayout.HasPeekingDrawer | src/com/aidy/bottomdrawerlayout/AllDrawerLayout.java:1443-1452 | True iff some child is peeking |
| DrawerLayout.AllDrawerLayout.FindVisibleDrawer | src/com/aidy/bottomdrawerlayout/AllDrawerLayout.java:1479-1488 | The first drawer with positive openness, or none when no drawer has it |
| DrawerLayout.AllDrawerLayout.IsDrawerOpenWithGravity | src/com/aidy/bottomdrawerlayout/AllDrawerLayout.java:1400-1406 | Answers as `Container.IsDrawerOpenWithGravity` |
| DrawerLayout.AllDrawerLayout.IsDrawerVisibleWithGravity | src/com/aidy/bottomdrawerlayout/AllDrawerLayout.java:1435-1441 | Answers as `Container.IsDrawerVisibleWithGravity` |
| DrawerLayout.AllDrawerLayout.StoreLockMode | src/com/aidy/bottomdrawerlayout/AllDrawerLayout.java:416-437 | In place, as `Container.WithLockMode` |
| DrawerLayout.AllDrawerLayout.SetDrawerLockMode | src/com/aidy/bottomdrawerlayout/AllDrawerLayout.java:416-459 | In place, as `Container.SetDrawerLockMode`, with the same outcome |
| DrawerLayout.AllDrawerLayout.SetDrawerLockModeForChild | src/com/aidy/bottomdrawerlayout/AllDrawerLayout.java:487-493 | In place, as `Container.SetDrawerLockModeForChild` |
| DrawerLayout.AllDrawerLayout.OpenDrawer | src/com/aidy/bottomdrawerlayout/AllDrawerLayout.java:1264-1297 | In place, as `Container.OpenDrawer`, with the same outcome |
| DrawerLayout.AllDrawerLayout.CloseDrawer | src/com/aidy/bottomdrawerlayout/AllDrawerLayout.java:1321-1354 | In place, as `Container.CloseDrawer`, with the same outcome |
| DrawerLayout.AllDrawerLayout.OpenDrawerWithGravity | src/com/aidy/bottomdrawerlayout/AllDrawerLayout.java:1307-1313 | In place, as `Container.OpenDrawerWithGravity` |
| DrawerLayout.AllDrawerLayout.CloseDrawerWithGravity | src/com/aidy/bottomdrawerlayout/AllDrawerLayout.java:1364-1370 | In place, as `Container.CloseDrawerWithGravity` |
| DrawerLayout.AllDrawerLayout.CloseDrawersStep | src/com/aidy/bottomdrawerlayout/AllDrawerLayout.java:1215-1248 | In place, as `Container.CloseDrawersStep` |
| DrawerLayout.AllDrawerLayout.CloseDrawers | src/com/aidy/bottomdrawerlayout/AllDrawerLayout.java:1212-1256 | The loop's state after i steps is `CloseDrawersUpTo(old, i)`; at the end it is `Container.CloseDrawers` |
| DrawerLayout.AllDrawerLayout.OnMeasure | src/com/aidy/bottomdrawerlayout/AllDrawerLayout.java:729-790 | Answers as `Measure.OnMeasure`; the loop finds the first invalid child |
| DrawerLayout.AllDrawerLayout.LayoutChild | src/com/aidy/bottomdrawerlayout/AllDrawerLayout.java:811-901 | In place, as `Measure.LayoutChild` |
| DrawerLayout.AllDrawerLayout.LayoutChildren | src/com/aidy/bottomdrawerlayout/AllDrawerLayout.java:810-903 | The loop's state after i steps is `LayoutUpTo(old, i)` |
| DrawerLayout.AllDrawerLayout.OnLayout | src/com/aidy/bottomdrawerlayout/AllDrawerLayout.java:804-913 | In place, as `Measure.OnLayout` |
| DrawerLayout.AllDrawerLayout.ComputeScroll | src/com/aidy/bottomdrawerlayout/AllDrawerLayout.java:923-932 | The running max equals `MaxOpenness` of the prefix; the result is `Measure.ComputeScroll` |
| DrawerLayout.AllDrawerLayout.OnAttachedToWindow | src/com/aidy/bottomdrawerlayout/AllDrawerLayout.java:723-726 | In place, as `Measure.ResetFirstLayout` |
| DrawerLayout.AllDrawerLayout.OnDetachedFromWindow | src/com/aidy/bottomdrawerlayout/AllDrawerLayout.java:717-720 | In place, as `Measure.ResetFirstLayout` |
| DrawerLayout.AllDrawerLayout.EndGesture | src/com/aidy/bottomdrawerlayout/AllDrawerLayout.java:1114-1119 | In place: the peeking drawers close and the touch flags clear |
| DrawerLayout.AllDrawerLayout.StartGesture | src/com/aidy/bottomdrawerlayout/AllDrawerLayout.java:1141-1147 | In place: the start position is recorded and the touch flags clear |
| DrawerLayout.AllDrawerLayout.OnInterceptTouchEvent | src/com/aidy/bottomdrawerlayout/AllDrawerLayout.java:1076-1125 | In place, as `Input.OnInterceptTouchEvent`, with the same answer |
| DrawerLayout.AllDrawerLayout.InterceptState | src/com/aidy/bottomdrawerlayout/AllDrawerLayout.java:1076-1125 | In place, as `Input.InterceptState` |
| DrawerLayout.AllDrawerLayout.OnTouchEvent | src/com/aidy/bottomdrawerlayout/AllDrawerLayout.java:1128-1189 | In place, as `Input.OnTouchEvent`; always answers true |
| DrawerLayout.AllDrawerLayout.PeekingOnlyOnUp | src/com/aidy/bottomdrawerlayout/AllDrawerLayout.java:1151-1170 | Decides as `Input.PeekingOnlyOnUp` |
| DrawerLayout.AllDrawerLayout.RequestDisallowInterceptTouchEvent | src/com/aidy/bottomdrawerlayout/AllDrawerLayout.java:1191-1203 | In place, as `Input.RequestDisallowInterceptTouchEvent` |
| DrawerLayout.AllDrawerLayout.OnKeyDown | src/com/aidy/bottomdrawerlayout/AllDrawerLayout.java:1505-1511 | Answers as `Input.OnKeyDown` |
| DrawerLayout.AllDrawerLayout.OnKeyUp | src/com/aidy/bottomdrawerlayout/AllDrawerLayout.java:1514-1523 | In place, as `Input.OnKeyUp`, with the same answer |
| DrawerLayout.AllDrawerLayout.OnSaveInstanceState | src/com/aidy/bottomdrawerlayout/AllDrawerLayout.java:1542-1568 | As `Input.OnSaveInstanceState`; a saved gravity belongs to a drawer known open |
| DrawerLayout.AllDrawerLayout.OnRestoreInstanceState | src/com/aidy/bottomdrawerlayout/AllDrawerLayout.java:1526-1539 | In place, as `Input.OnRestoreInstanceState`, with the same outcome |
| DrawerLayout.AllDrawerLayout.OnViewDragStateChanged | src/com/aidy/bottomdrawerlayout/AllDrawerLayout.java:1641-1643 | In place, as `Callbacks.OnViewDragStateChanged` |
| DrawerLayout.AllDrawerLayout.ReleaseCaptured | src/com/aidy/bottomdrawerlayout/AllDrawerLayout.java:1641-1643 | In place: only the edge's captured child is cleared |
| DrawerLayout.AllDrawerLayout.SetDragState | src/com/aidy/bottomdrawerlayout/AllDrawerLayout.java:1641-1643 | In place, as `Callbacks.SetDragState` |
| DrawerLayout.AllDrawerLayout.OnViewPositionChanged | src/com/aidy/bottomdrawerlayout/AllDrawerLayout.java:1646-1679 | In place, as `Callbacks.OnViewPositionChanged` |
| DrawerLayout.AllDrawerLayout.CloseOtherDrawer | src/com/aidy/bottomdrawerlayout/AllDrawerLayout.java:1688-1711 | In place, as `Callbacks.CloseOtherDrawer` |
| DrawerLayout.AllDrawerLayout.OnViewCaptured | src/com/aidy/bottomdrawerlayout/AllDrawerLayout.java:1682-1686 | In place, as `Callbacks.OnViewCaptured` |
| DrawerLayout.AllDrawerLayout.OnViewReleased | src/com/aidy/bottomdrawerlayout/AllDrawerLayout.java:1714-1754 | In place, as `Callbacks.OnViewReleased` |
| DrawerLayout.AllDrawerLayout.OnEdgeTouched | src/com/aidy/bottomdrawerlayout/AllDrawerLayout.java:1757-1760 | In place, as `Callbacks.OnEdgeTouched` |
| DrawerLayout.AllDrawerLayout.CancelChildViewTouch | src/com/aidy/bottomdrawerlayout/AllDrawerLayout.java:1490-1502 | In place, as `Callbacks.CancelChildViewTouch` |
| DrawerLayout.AllDrawerLayout.PeekDrawer | src/com/aidy/bottomdrawerlayout/AllDrawerLayout.java:1762-1805 | In place, as `Callbacks.PeekDrawer`, with the same outcome |
| DrawerLayout.AllDrawerLayout.Peek | src/com/aidy/bottomdrawerlayout/AllDrawerLayout.java:1798-1803 | In place, as `Callbacks.Peek`, with the same outcome |
| DrawerLayout.AllDrawerLayout.CaptureChildView | src/com/aidy/bottomdrawerlayout/AllDrawerLayout.java:1834-1836 | In place, as `Callbacks.CaptureChildView` |
| DrawerLayout.AllDrawerLayout.OnEdgeDragStarted | src/com/aidy/bottomdrawerlayout/AllDrawerLayout.java:1820-1837 | In place, as `Callbacks.OnEdgeDragStarted` |

What `Input.OnInterceptTouchEvent` states:
- It throws exactly for a DOWN while the scrim shows and no child lies under the touch; then
  only the start position is recorded.
- Otherwise the new state is `InterceptState`'s.
- The answer is true iff a helper intercepts, or a DOWN lands on the dimmed content view, or a
  drawer is peeking, or child touches were cancelled.

## Left out
- The internals of `ViewDragHelper`, which is not part of this model. The following arrive as
  parameters:
  - its intercept decision (`shouldInterceptTouchEvent`);
  - its touch-slop test (`checkTouchSlop`);
  - its hit test (`findTopChildUnder`, as the child under a motion event);
  - its touch slop;
  - its edge size (the peek distance).
- `processTouchEvent`, `continueSettling`, velocity tracking and scrolling are left out.
  - A helper's phase changes only through `SetDragState`.
  - A settle is recorded as a request, and is not animated.
- SmoothSlide: the helper keeps its phase instead of entering SETTLING. `ViewDragHelper`'s
  settling is not part of this model, and the settle is recorded as a request only.
- `postDelayed`/`removeCallbacks` timing is a pending-peek flag per edge, with no clock.
- Drawing: `drawChild`, shadows, scrim colour and painting, `hasOpaqueBackground`,
  `invalidate`, `requestLayout` and `mInLayout`. These are rendering only.
- Accessibility (`AccessibilityDelegate`, `sendAccessibilityEvent`). These are framework calls.
- The MeasureSpec measuring of the children in `onMeasure`. Each child's measured size is an
  input.
- `SavedState` Parcel I/O beyond its contents: the bytes and the superclass state are not
  modelled. `Input.ThroughParcel` keeps what the Parcel carries, which is the open drawer's
  gravity only.
- The `MotionEvent` that `cancelChildViewTouch` dispatches to the children. Only the
  `mChildrenCanceledTouch` flag is modelled.
- `Log.i` calls, `super` calls and `KeyEventCompat.startTracking`. The superclass's key answer
  is a parameter.
- `onEdgeLock`, which is inert because `ALLOW_EDGE_LOCK` is false. Also `getView*DragRange`,
  `moveDrawerToOffset`, `setDrawerShadow`, `setScrimColor` and `setDrawerListener`. The
  listener is always present: events are always recorded.
- `MainActivity.java`, which is demo wiring, and `BottomDrawerLayout`, which is not part of
  this model.
- Each child's own layout direction. The container's direction is used for every child.
- Float rounding. Openness is an exact `real`.
- Java float division by a zero extent (NaN or infinity).
  - Geometry.OffsetForPosition requires a positive extent; so do `Callbacks.OnViewPositionChanged`
    and `Measure.LayoutChild`, through `Placeable`.
- 32-bit `int` overflow of `slop * slop`, and of the pixel arithmetic. Integers are unbounded.
- Input.OnTouchEvent: `processTouchEvent` can throw `IllegalArgumentException`, which the
  source catches. The model has no such path.
- Input.OnRestoreInstanceState: its own contract states only well-formedness. What it does to
  the lock modes is stated by `RestoreSetsOnlyHorizontalLockModes` and
  `SaveRestoreKeepsLockModes`.
