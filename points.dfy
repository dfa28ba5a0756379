/** Point.java (comparison only) and the yThenX comparator of
    DelaunayTriangulation.java, plus the two geometric predicates, which the
    model takes as parameters. */
module Points {
  import opened Wrappers

  /** A point; coordinates are reals, so NaN is excluded. */
  datatype Point = Point(x: real, y: real)

  /** Point.compareTo: y is most significant, then x. */
  function CompareTo(a: Point, b: Point): (r: int)
    ensures r in {-1, 0, 1}
    ensures r == 0 <==> a == b
  {
    if a.y > b.y then 1
    else if a.y < b.y then -1
    else if a.x > b.x then 1
    else if a.x < b.x then -1
    else 0
  }

  /** DelaunayTriangulation.yThenXComparator.compare. */
  function YThenX(p0: Point, p1: Point): (r: int)
    ensures r in {-1, 0, 1}
    ensures r == 0 <==> p0.y == p1.y && p0.x == p1.x
  {
    if p0.y > p1.y then 1
    else if p0.y < p1.y then -1
    else if p0.x > p1.x then 1
    else if p0.x < p1.x then -1
    else 0
  }

  /** A larger y wins whatever x is; with equal y the x comparison decides. */
  lemma CompareToOrdersByYThenX(a: Point, b: Point)
    ensures a.y > b.y ==> CompareTo(a, b) == 1
    ensures a.y < b.y ==> CompareTo(a, b) == -1
    ensures a.y == b.y ==> (CompareTo(a, b) == 1 <==> a.x > b.x)
    ensures a.y == b.y ==> (CompareTo(a, b) == -1 <==> a.x < b.x)
  {
  }

  lemma CompareToAntisymmetric(a: Point, b: Point)
    ensures CompareTo(a, b) == -CompareTo(b, a)
  {
  }

  lemma CompareToTransitive(a: Point, b: Point, c: Point)
    requires CompareTo(a, b) > 0 && CompareTo(b, c) > 0
    ensures CompareTo(a, c) > 0
  {
  }

  /** Point.compareTo and yThenXComparator are the same order. */
  lemma ComparatorAgreesWithCompareTo(a: Point, b: Point)
    ensures YThenX(a, b) == CompareTo(a, b)
  {
  }

  /** `points[i]` on a Java array: out-of-range indexes throw. */
  function PointAt(points: seq<Point>, i: int): (r: Result<Point>)
    ensures r.Success? <==> 0 <= i < |points|
    ensures r.Success? ==> r.value == points[i]
  {
    if 0 <= i < |points| then Success(points[i]) else Failure(IndexOutOfBounds)
  }

  /** The sign returned by an orientation test. */
  type Sign = s: int | -1 <= s <= 1

  /** The floating-point predicates of Triangle.getOrientation and
      Circle.inCircle, which the model does not compute. `orient(p0, p1, p2)` is
      +1 for a counter-clockwise turn, -1 for clockwise and 0 for collinear
      points; `inCircle(p0, p1, p2, p3)` says p3 lies inside the circle through
      the clockwise triangle p0, p1, p2. */
  datatype Geometry = Geometry(
    orient: (Point, Point, Point) -> Sign,
    inCircle: (Point, Point, Point, Point) -> bool)
  {
    /** The one fact the model assumes of the orientation test: a triangle with
        two equal corners is degenerate. (The Java computation yields exactly
        0.0 for it: (b-a) x (a-b) is dx*(-dy) - dy*(-dx).) */
    ghost predicate Sound() {
      forall a: Point, b: Point :: orient(a, b, a) == 0
    }

    /** Circle.inCircle: fails unless p0, p1, p2 are clockwise. */
    function InCircle(p0: Point, p1: Point, p2: Point, p3: Point): (r: Result<bool>)
      ensures r.Success? <==> orient(p0, p1, p2) == -1
      ensures r.Success? ==> r.value == inCircle(p0, p1, p2, p3)
    {
      if orient(p0, p1, p2) != -1 then Failure(AssertionFailed)
      else Success(inCircle(p0, p1, p2, p3))
    }
  }
}
