/** HalfEdge.isLegal and HalfEdge.swapIsConvex of Dcel.java: read-only case
    analyses over the four corners around a half-edge h, where v0 is h's
    origin, v1 the origin of h.next, v2 that of h.next.next, and v3 that of
    h.twin.next.next. Corners -2 and -1 are the two sentinels, which have no
    point. */
module Legality {
  import opened Wrappers
  import opened Points
  import opened Mesh

  /** The four corners of the quadrilateral around an edge. */
  datatype Quad = Quad(v0: int, v1: int, v2: int, v3: int)

  function QuadOf(m: MeshState, h: int): Quad
    requires AllLinked(m) && 0 <= h < |m.edges|
  {
    var e := m.edges[h];
    assert Linked(m, h) && Linked(m, e.next) && Linked(m, e.twin) && Linked(m, Next(m, e.twin));
    Quad(e.origin, Origin(m, e.next), Origin(m, Next(m, e.next)), Origin(m, Next(m, Next(m, e.twin))))
  }

  /** The number of sentinels among the corners (numNegs). */
  function Sentinels(q: Quad): (n: nat)
    ensures n <= 4
    ensures n == 0 <==> q.v0 >= 0 && q.v1 >= 0 && q.v2 >= 0 && q.v3 >= 0
  {
    (if q.v0 < 0 then 1 else 0) + (if q.v1 < 0 then 1 else 0) +
    (if q.v2 < 0 then 1 else 0) + (if q.v3 < 0 then 1 else 0)
  }

  function Min(a: int, b: int): int {
    if a <= b then a else b
  }

  /** HalfEdge.isLegal: an edge with the outer face (null data) on either
      side is legal; an edge with both ends among the sentinels and the
      first point throws; with four points the edge is legal unless v3 lies
      in the circle through v0, v1, v2; with a sentinel it is legal iff
      min(v2, v3) < min(v0, v1). */
  function IsLegalOf(m: MeshState, points: seq<Point>, iLargest: int, g: Geometry, h: int): Result<bool>
    requires AllLinked(m) && 0 <= h < |m.edges|
  {
    var e := m.edges[h];
    assert Linked(m, h) && Linked(m, e.twin);
    if m.faces[e.face].data.None? || m.faces[m.edges[e.twin].face].data.None? then Success(true)
    else
      var q := QuadOf(m, h);
      if (q.v0 < 0 || q.v0 == iLargest) && (q.v1 < 0 || q.v1 == iLargest) then Failure(IllegalState)
      else if Sentinels(q) == 0 then
        var p0 :- PointAt(points, q.v0);
        var p1 :- PointAt(points, q.v1);
        var p2 :- PointAt(points, q.v2);
        var p3 :- PointAt(points, q.v3);
        var inC :- g.InCircle(p0, p1, p2, p3);
        Success(!inC)
      else Success(Min(q.v2, q.v3) < Min(q.v0, q.v1))
  }

  /** Whether some face around h is the outer face. */
  predicate TouchesOuter(m: MeshState, h: int)
    requires AllLinked(m) && 0 <= h < |m.edges|
  {
    assert Linked(m, h) && Linked(m, m.edges[h].twin);
    m.faces[m.edges[h].face].data.None? || m.faces[m.edges[m.edges[h].twin].face].data.None?
  }

  /** The three outcomes of isLegal for an edge between two inner faces
      whose corners are points of the input. */
  lemma IsLegalCases(m: MeshState, points: seq<Point>, iLargest: int, g: Geometry, h: int)
    requires AllLinked(m) && 0 <= h < |m.edges|
    requires var q := QuadOf(m, h); q.v0 < |points| && q.v1 < |points| && q.v2 < |points| && q.v3 < |points|
    ensures TouchesOuter(m, h) ==> IsLegalOf(m, points, iLargest, g, h) == Success(true)
    ensures var q := QuadOf(m, h); var r := IsLegalOf(m, points, iLargest, g, h);
      !TouchesOuter(m, h) && !((q.v0 < 0 || q.v0 == iLargest) && (q.v1 < 0 || q.v1 == iLargest)) ==>
        (Sentinels(q) == 0 ==>
          (r.Success? <==> g.orient(points[q.v0], points[q.v1], points[q.v2]) == -1) &&
          (r.Success? ==> r.value == !g.inCircle(points[q.v0], points[q.v1], points[q.v2], points[q.v3]))) &&
        (Sentinels(q) > 0 ==> r == Success(Min(q.v2, q.v3) < Min(q.v0, q.v1)))
    ensures var q := QuadOf(m, h);
      !TouchesOuter(m, h) && (q.v0 < 0 || q.v0 == iLargest) && (q.v1 < 0 || q.v1 == iLargest) ==>
        IsLegalOf(m, points, iLargest, g, h) == Failure(IllegalState)
  {
  }

  /** With a sentinel among the corners isLegal never consults the
      geometry: any two geometries give the same answer. */
  lemma IsLegalAtSentinelIgnoresGeometry(m: MeshState, points: seq<Point>, iLargest: int,
                                          g1: Geometry, g2: Geometry, h: int)
    requires AllLinked(m) && 0 <= h < |m.edges| && Sentinels(QuadOf(m, h)) > 0
    ensures IsLegalOf(m, points, iLargest, g1, h) == IsLegalOf(m, points, iLargest, g2, h)
    ensures IsLegalOf(m, points, iLargest, g1, h).Success? || IsLegalOf(m, points, iLargest, g1, h) == Failure(IllegalState)
  {
  }

  /** Vertex.getPoint: null (None) for a sentinel; an id outside `points` throws. */
  function PointOf(points: seq<Point>, v: int): (r: Result<Option<Point>>)
    ensures r.Success? <==> v < |points|
    ensures r.Success? ==> (r.value.None? <==> v < 0) && (v >= 0 ==> r.value == Some(points[v]))
  {
    if v < 0 then Success(None)
    else if v < |points| then Success(Some(points[v]))
    else Failure(IndexOutOfBounds)
  }

  /** `a.compareTo(b) > 0`; a null receiver or argument throws. */
  function Greater(a: Option<Point>, b: Option<Point>): (r: Result<bool>)
    ensures r.Failure? <==> a.None? || b.None?
    ensures r.Success? ==> r.value == (CompareTo(a.value, b.value) > 0)
  {
    if a.None? || b.None? then Failure(NullPointer) else Success(CompareTo(a.value, b.value) > 0)
  }

  /** `Triangle.getOrientation(a, b, c) == -1`; a null point throws. */
  function Clockwise(g: Geometry, a: Option<Point>, b: Option<Point>, c: Option<Point>): (r: Result<bool>)
    ensures r.Failure? <==> a.None? || b.None? || c.None?
    ensures r.Success? ==> r.value == (g.orient(a.value, b.value, c.value) == -1)
  {
    if a.None? || b.None? || c.None? then Failure(NullPointer)
    else Success(g.orient(a.value, b.value, c.value) == -1)
  }

  /** Java's short-circuit `x && y`: y is evaluated only when x is true. */
  function And(x: Result<bool>, y: Result<bool>): (r: Result<bool>)
    ensures x.Failure? ==> r == x
    ensures x == Success(false) ==> r == Success(false)
    ensures x == Success(true) ==> r == y
  {
    if x.Failure? then x else if !x.value then Success(false) else y
  }

  /** The convexity tests of swapIsConvex once the corner points are known
      (p_i is null for a sentinel corner). */
  function ConvexCases(g: Geometry, q: Quad, p0: Option<Point>, p1: Option<Point>,
                       p2: Option<Point>, p3: Option<Point>): Result<bool>
  {
    var n := Sentinels(q);
    if n == 0 then
      And(Clockwise(g, p2, p0, p3), Clockwise(g, p3, p1, p2))
    else if n == 1 then
      if q.v0 == -2 then And(Greater(p3, p2), Clockwise(g, p3, p1, p2))
      else if q.v0 == -1 then And(Greater(p2, p3), Clockwise(g, p3, p1, p2))
      else if q.v1 == -2 then And(Clockwise(g, p2, p0, p3), Greater(p2, p3))
      else if q.v1 == -1 then And(Clockwise(g, p2, p0, p3), Greater(p3, p2))
      else if q.v2 == -2 then And(Greater(p0, p3), Greater(p3, p1))
      else if q.v2 == -1 then And(Greater(p3, p0), Greater(p1, p3))
      else if q.v3 == -2 then And(Greater(p2, p0), Greater(p1, p2))
      else if q.v3 == -1 then And(Greater(p0, p2), Greater(p2, p1))
      else Failure(IllegalState)
    else if n == 2 then
      if q.v0 < 0 then
        if q.v1 < 0 then Failure(IllegalState)
        else if q.v2 < 0 then
          if q.v0 == -2 then
            :- Need(q.v2 == -1, AssertionFailed);
            And(Success(true), Greater(p1, p3))
          else if q.v0 == -1 then
            :- Need(q.v2 == -2, AssertionFailed);
            And(Success(false), Greater(p3, p1))
          else Failure(AssertionFailed)
        else if q.v3 < 0 then
          if q.v3 == -2 then
            :- Need(q.v0 == -1, AssertionFailed);
            And(Success(true), Greater(p1, p2))
          else if q.v3 == -1 then
            :- Need(q.v0 == -2, AssertionFailed);
            And(Success(false), Greater(p2, p1))
          else Failure(AssertionFailed)
        else Failure(AssertionFailed)
      else if q.v1 < 0 then
        if q.v2 < 0 then
          if q.v2 == -2 then
            :- Need(q.v1 == -1, AssertionFailed);
            And(Greater(p0, p3), Success(true))
          else if q.v2 == -1 then
            :- Need(q.v1 == -2, AssertionFailed);
            And(Greater(p3, p0), Success(false))
          else Failure(AssertionFailed)
        else if q.v3 < 0 then
          if q.v3 == -2 then
            :- Need(q.v1 == -1, AssertionFailed);
            And(Greater(p2, p0), Success(false))
          else if q.v3 == -1 then
            :- Need(q.v1 == -2, AssertionFailed);
            And(Greater(p0, p2), Success(true))
          else Failure(AssertionFailed)
        else Failure(AssertionFailed)
      else if q.v2 < 0 then
        :- Need(q.v3 < 0, AssertionFailed);
        if q.v3 == -2 then
          :- Need(q.v2 == -1, AssertionFailed);
          And(Success(false), Success(true))
        else if q.v3 == -1 then
          :- Need(q.v2 == -2, AssertionFailed);
          And(Success(true), Success(false))
        else Failure(AssertionFailed)
      else Failure(IllegalState)
    else Failure(IllegalState)
  }

  /** Both sentinels are among the corners. */
  predicate BothSentinels(q: Quad) {
    (q.v0 == -1 || q.v1 == -1 || q.v2 == -1 || q.v3 == -1) &&
    (q.v0 == -2 || q.v1 == -2 || q.v2 == -2 || q.v3 == -2)
  }

  /** HalfEdge.swapIsConvex: whether the quadrilateral v0, v3, v1, v2 is
      convex, so that flipping h touches no other triangle. With two
      sentinels they must be the two different ones; the corner points
      are fetched before the case analysis. */
  function SwapIsConvexOf(m: MeshState, points: seq<Point>, g: Geometry, h: int): Result<bool>
    requires AllLinked(m) && 0 <= h < |m.edges|
  {
    var q := QuadOf(m, h);
    :- Need(Sentinels(q) != 2 || BothSentinels(q), AssertionFailed);
    var p0 :- PointOf(points, q.v0);
    var p1 :- PointOf(points, q.v1);
    var p2 :- PointOf(points, q.v2);
    var p3 :- PointOf(points, q.v3);
    ConvexCases(g, q, p0, p1, p2, p3)
  }

  /** The corners are vertex ids of the input: sentinels or point indexes. */
  predicate QuadIds(q: Quad, numPoints: nat) {
    -2 <= q.v0 < numPoints && -2 <= q.v1 < numPoints && -2 <= q.v2 < numPoints && -2 <= q.v3 < numPoints
  }

  /** swapIsConvex never compares or orients a sentinel's null point: on
      corners that are vertex ids it never throws a NullPointerException. */
  lemma SwapIsConvexNeverNull(m: MeshState, points: seq<Point>, g: Geometry, h: int)
    requires AllLinked(m) && 0 <= h < |m.edges| && QuadIds(QuadOf(m, h), |points|)
    ensures SwapIsConvexOf(m, points, g, h) != Failure(NullPointer)
  {
  }

  /** The error cases: v0 and v1 both sentinels (and no other) throws, so
      do three or four sentinels. */
  lemma SwapIsConvexErrors(m: MeshState, points: seq<Point>, g: Geometry, h: int)
    requires AllLinked(m) && 0 <= h < |m.edges| && QuadIds(QuadOf(m, h), |points|)
    ensures var q := QuadOf(m, h);
      q.v0 < 0 && q.v1 < 0 && q.v0 != q.v1 && q.v2 >= 0 && q.v3 >= 0 ==>
        SwapIsConvexOf(m, points, g, h) == Failure(IllegalState)
    ensures Sentinels(QuadOf(m, h)) > 2 ==> SwapIsConvexOf(m, points, g, h) == Failure(IllegalState)
  {
  }

  /** With no sentinel, convex iff both p2, p0, p3 and p3, p1, p2 turn
      clockwise; with v2 and v3 the two sentinels, never convex. */
  lemma SwapIsConvexCases(m: MeshState, points: seq<Point>, g: Geometry, h: int)
    requires AllLinked(m) && 0 <= h < |m.edges| && QuadIds(QuadOf(m, h), |points|)
    ensures var q := QuadOf(m, h);
      Sentinels(q) == 0 ==>
        SwapIsConvexOf(m, points, g, h) ==
          Success(g.orient(points[q.v2], points[q.v0], points[q.v3]) == -1 &&
                  g.orient(points[q.v3], points[q.v1], points[q.v2]) == -1)
    ensures var q := QuadOf(m, h);
      q.v0 >= 0 && q.v1 >= 0 && q.v2 < 0 && q.v3 < 0 && q.v2 != q.v3 ==>
        SwapIsConvexOf(m, points, g, h) == Success(false)
  {
  }

  /** With a sound orientation test, a convex answer means the new
      diagonal v2 v3 joins two different vertices, which flip needs. */
  lemma ConvexSeparatesApexes(m: MeshState, points: seq<Point>, g: Geometry, h: int)
    requires AllLinked(m) && 0 <= h < |m.edges| && QuadIds(QuadOf(m, h), |points|) && g.Sound()
    requires SwapIsConvexOf(m, points, g, h) == Success(true)
    ensures QuadOf(m, h).v2 != QuadOf(m, h).v3
  {
  }
}
