/** Values shared by every part of the model: optional values, the geometry
    of the host toolkit (with `CGFloat` as `real`), identities of host objects
    and the states a pan recognizer reports. */
module Common {

  datatype Option<+T> = None | Some(value: T) {
    function GetOr(default: T): T {
      match this
      case Some(v) => v
      case None => default
    }
  }

  /** Identity of a view controller (or of any other host object) that a
      delegate keeps a reference to. */
  type VcId = nat

  /** A strictly positive length: the width or height of a view controller's
      view. Divisions by a view dimension only ever divide by one of these. */
  type Positive = r: real | r > 0.0 witness 1.0

  datatype Point = Point(x: real, y: real)

  datatype Size = Size(width: real, height: real)

  /** A rectangle given by its origin and size, as `CGRect`. */
  datatype Rect = Rect(x: real, y: real, width: real, height: real) {
    function MaxY(): real { y + height }
    /** The bounds of a view whose frame is this rectangle. */
    function Bounds(): (r: Rect)
      ensures r.x == 0.0 && r.y == 0.0 && r.width == width && r.height == height
    {
      Rect(0.0, 0.0, width, height)
    }
    /** `offsetBy(dx:dy:)`: the same size, moved. */
    function OffsetBy(dx: real, dy: real): (r: Rect)
      ensures r.width == width && r.height == height
      ensures r.x - x == dx && r.y - y == dy
    {
      Rect(x + dx, y + dy, width, height)
    }
  }

  const ZeroRect := Rect(0.0, 0.0, 0.0, 0.0)

  function Abs(x: real): (r: real)
    ensures r >= 0.0 && (r == x || r == -x)
  {
    if x < 0.0 then -x else x
  }

  function Min(a: real, b: real): (r: real)
    ensures r <= a && r <= b && (r == a || r == b)
  {
    if a <= b then a else b
  }

  function Max(a: real, b: real): (r: real)
    ensures r >= a && r >= b && (r == a || r == b)
  {
    if a >= b then a else b
  }

  /** `max(min(x, 1), 0)`, the clamp the gesture handlers apply to a fraction. */
  function ClampUnit(x: real): (r: real)
    ensures 0.0 <= r <= 1.0
    ensures 0.0 <= x <= 1.0 ==> r == x
    ensures x > 1.0 ==> r == 1.0
    ensures x < 0.0 ==> r == 0.0
  {
    Max(0.0, Min(x, 1.0))
  }

  /** Appending four pieces to a log one after another appends their
      concatenation. */
  lemma AppendLog<T>(log: seq<T>, a: seq<T>, b: seq<T>, c: seq<T>, d: seq<T>)
    ensures log + a + b + c + d == log + (a + b + c + d)
  {
  }

  /** The states a gesture recognizer reports to its action. */
  datatype GestureState = Possible | Began | Changed | Ended | Cancelled | Failed

  /** What a pan recognizer reports to its action: its state and its
      location, translation and velocity in the view it is attached to. */
  datatype GestureReading = GestureReading(state: GestureState, location: Point, translation: Point, velocity: Point)

  /** The class of a gesture recognizer, as far as the gates look at it.
      The gates test with `as?`, so PanGesture is any UIPanGestureRecognizer,
      subclasses such as UIScreenEdgePanGestureRecognizer included, and
      SwipeGesture any UISwipeGestureRecognizer. */
  datatype GestureKind = PanGesture | SwipeGesture | OtherGesture

  predicate IsPanOrSwipe(k: GestureKind) {
    k == PanGesture || k == SwipeGesture
  }
}
