/** Small value types shared by the drawer-container model. */
module Common {

  datatype Option<+T> = None | Some(value: T)

  /** A point in the container's coordinate system (left, top). */
  datatype Point = Point(x: int, y: int)

  /** The frame of a child view: View.getLeft/getTop/getWidth/getHeight. */
  datatype Bounds = Bounds(left: int, top: int, width: nat, height: nat)

  /** The margins of a child's layout params. */
  datatype Margins = Margins(left: int, top: int, right: int, bottom: int)

  /** Why an operation of the container threw instead of completing. */
  datatype Failure =
    | NotADrawer(child: nat)               // IllegalArgumentException "... is not a sliding drawer"
    | NoDrawerWithGravity(name: string)    // IllegalArgumentException "No drawer view found with gravity ..."
    | InvalidLayoutGravity(child: nat)     // IllegalStateException from onMeasure
    | DuplicateEdge(child: nat)            // IllegalStateException "... already has a drawer view along that edge"
    | NullChild                            // NullPointerException on a missing child view
    | NotMeasuredExactly                   // IllegalArgumentException from onMeasure outside edit mode

  /** Normal completion, or the exception an operation threw. */
  datatype Outcome = Ok | Err(failure: Failure)

  /** A returned value, or the exception thrown instead. */
  datatype Result<+T> = Value(value: T) | Thrown(failure: Failure)
}
