/** Axis-parallel rectangles with real coordinates; both corners belong to the rectangle. */
module Rectangle {
  import opened Wrappers

  datatype Bounds = Bounds(xMin: real, yMin: real, xMax: real, yMax: real)

  /** The constructor rejects bounds that are the wrong way round. */
  type Rectangle = b: Bounds | b.xMin <= b.xMax && b.yMin <= b.yMax witness Bounds(0.0, 0.0, 0.0, 0.0)

  datatype Point = Point(x: real, y: real)

  predicate Contains(r: Rectangle, p: Point) {
    r.xMin <= p.x <= r.xMax && r.yMin <= p.y <= r.yMax
  }

  predicate Inside(r: Rectangle, p: Point) {
    r.xMin < p.x < r.xMax && r.yMin < p.y < r.yMax
  }

  function MinCorner(r: Rectangle): Point {
    Point(r.xMin, r.yMin)
  }

  function Width(r: Rectangle): real {
    r.xMax - r.xMin
  }

  function Height(r: Rectangle): real {
    r.yMax - r.yMin
  }

  predicate Intersects(r: Rectangle, other: Rectangle) {
    r.xMin <= other.xMax && r.xMax >= other.xMin && r.yMin <= other.yMax && r.yMax >= other.yMin
  }

  function Max(a: real, b: real): real {
    if a >= b then a else b
  }

  function Min(a: real, b: real): real {
    if a <= b then a else b
  }

  /** The intersection holds exactly the common points, and is missing exactly when there are none. */
  function Intersection(r: Rectangle, other: Rectangle): (i: Option<Rectangle>)
    ensures forall p :: (i.Some? && Contains(i.value, p)) <==> (Contains(r, p) && Contains(other, p))
    ensures i.Some? ==> Contains(i.value, MinCorner(i.value))
  {
    if !Intersects(r, other) then None
    else Some(Bounds(Max(r.xMin, other.xMin), Max(r.yMin, other.yMin), Min(r.xMax, other.xMax), Min(r.yMax, other.yMax)))
  }

  lemma IntersectsIffCommonPoint(r: Rectangle, other: Rectangle)
    ensures Intersects(r, other) <==> exists p :: Contains(r, p) && Contains(other, p)
  {
    if Intersects(r, other) {
      var p := MinCorner(Intersection(r, other).value);
      assert Contains(r, p) && Contains(other, p);
    }
  }
}
