/** DelaunayTriangulation.java: the randomized incremental construction.
    Each point, in a shuffled order, is located in the history
    (PointLocationStructure), inserted into the mesh (Dcel) by splitting
    one triangle or the two triangles on whose shared edge it lies, and the
    edges opposite it are legalized by flips. Faces of the mesh name the
    history's leaves by their index in the node arena. */
module Delaunay {
  import opened Wrappers
  import opened Points
  import opened Triangles
  import opened Mesh
  import opened Links
  import opened Surgery
  import opened Legality
  import opened History
  import opened DcelMesh
  import Util

  /** DelaunayTriangulation.swap: exchanges two entries of the array. */
  method SwapPoints(points: array<Point>, i: int, j: int)
    requires 0 <= i < points.Length && 0 <= j < points.Length
    modifies points
    ensures points[..] == old(points[..])[i := old(points[j])][j := old(points[i])]
    ensures multiset(points[..]) == old(multiset(points[..]))
  {
    var tmp := points[i];
    points[i] := points[j];
    points[j] := tmp;
  }

  /** DelaunayTriangulation.findLargestPoint: the first index of a largest
      point under yThenXComparator; 0 for an empty array. */
  method FindLargestPoint(points: array<Point>) returns (iLargest: int)
    ensures points.Length == 0 ==> iLargest == 0
    ensures points.Length > 0 ==> 0 <= iLargest < points.Length
    ensures points.Length > 0 ==> forall j :: 0 <= j < points.Length ==> YThenX(points[j], points[iLargest]) <= 0
    ensures forall j :: 0 <= j < iLargest ==> YThenX(points[j], points[iLargest]) < 0
  {
    iLargest := 0;
    var i := 1;
    while i < points.Length
      invariant points.Length == 0 ==> iLargest == 0
      invariant points.Length > 0 ==> 1 <= i <= points.Length && 0 <= iLargest < i
      invariant forall j :: 0 <= j < i && j < points.Length ==> YThenX(points[j], points[iLargest]) <= 0
      invariant forall j :: 0 <= j < iLargest ==> YThenX(points[j], points[iLargest]) < 0
    {
      if YThenX(points[i], points[iLargest]) > 0 {
        forall j | 0 <= j < i
          ensures YThenX(points[j], points[i]) < 0
        {
          YThenXBelow(points[j], points[iLargest], points[i]);
        }
        iLargest := i;
      }
      i := i + 1;
    }
  }

  /** A point no larger than one that is below a third is below the third. */
  lemma YThenXBelow(a: Point, b: Point, c: Point)
    requires YThenX(a, b) <= 0 && YThenX(c, b) > 0
    ensures YThenX(a, c) < 0
  {
  }

  /** The mesh after flipEdge(h): the flip of h, its two new faces
      carrying the leaves k and k + 1 of the history. */
  function FlipEdgeMesh(m: MeshState, h: int, k: nat): MeshState
    requires MeshValid(m) && InUse(m, h)
  {
    DataPair(FlipSpec(m, h), |m.faces|, k)
  }

  /** Faces f + 1 and f given the nodes k and k + 1. */
  function DataPair(s: MeshState, f: nat, k: nat): MeshState
    requires f + 1 < |s.faces|
  {
    SetFaceData(SetFaceData(s, f + 1, Some(k)), f, Some(k + 1))
  }

  /** The two data writes of flipEdge, on the flipped mesh, make FlipEdgeMesh. */
  lemma FlipEdgeMeshIs(m: MeshState, h: int, k: nat, s1: MeshState, f0: int, f1: int, r: MeshState)
    requires MeshValid(m) && InUse(m, h) && s1 == FlipSpec(m, h)
    requires f0 == |m.faces| + 1 && f1 == |m.faces| && 0 <= f0 < |s1.faces| && 0 <= f1 < |s1.faces|
    requires r == SetFaceData(SetFaceData(s1, f0, Some(k)), f1, Some(k + 1))
    ensures r == FlipEdgeMesh(m, h, k)
  {
  }

  /** The data of the face of h: the history node of h.face. */
  function FaceNode(m: MeshState, h: int): (r: Option<nat>)
    requires MeshValid(m) && 0 <= h < |m.edges|
    ensures 0 <= m.edges[h].face < |m.faces| && r == m.faces[m.edges[h].face].data
  {
    assert Linked(m, h);
    m.faces[m.edges[h].face].data
  }

  /** Every face's data names a node of the history. */
  predicate DataInRange(m: MeshState, numNodes: nat) {
    forall f :: 0 <= f < |m.faces| && m.faces[f].data.Some? ==> m.faces[f].data.value < numNodes
  }

  /** Face f holds a leaf of the history whose triangle is f's calcTriangle. */
  predicate FaceMatches(m: MeshState, nodes: seq<Node>, f: int)
    requires AllLinked(m)
  {
    0 <= f < |m.faces| && m.faces[f].data.Some? && m.faces[f].data.value < |nodes| &&
    nodes[m.faces[f].data.value].children == [] &&
    CalcTriangleOf(m, f) == Success(nodes[m.faces[f].data.value].triangle)
  }

  /** m1 has the point vertices of m0, no more and no fewer. */
  predicate SameVertices(m0: MeshState, m1: MeshState) {
    |m1.vertices| == |m0.vertices| &&
    forall i :: 0 <= i < |m0.vertices| ==> (m1.vertices[i].Some? <==> m0.vertices[i].Some?)
  }

  /** m1 has the point vertices of m0 and p. */
  predicate VertexAdded(m0: MeshState, m1: MeshState, p: int) {
    |m1.vertices| == |m0.vertices| &&
    forall i :: 0 <= i < |m0.vertices| ==> (m1.vertices[i].Some? <==> m0.vertices[i].Some? || i == p)
  }

  /** The history only grows: every node keeps its triangle. */
  predicate HistoryGrows(nodes0: seq<Node>, nodes1: seq<Node>) {
    |nodes0| <= |nodes1| && forall i :: 0 <= i < |nodes0| ==> nodes1[i].triangle == nodes0[i].triangle
  }

  lemma {:induction false} HistoryGrowsTrans(a: seq<Node>, b: seq<Node>, c: seq<Node>)
    requires HistoryGrows(a, b) && HistoryGrows(b, c)
    ensures HistoryGrows(a, c)
  {
    forall i | 0 <= i < |a|
      ensures c[i].triangle == a[i].triangle
    {
      assert c[i].triangle == b[i].triangle;
    }
  }

  /** A flip adds and removes no point vertex. */
  lemma FlipKeepsVertices(m: MeshState, h01: int)
    requires MeshValid(m) && InUse(m, h01)
    ensures SameVertices(m, FlipSpec(m, h01))
  {
    var n, f := |m.edges|, |m.faces|;
    var h12 := Next(m, h01);
    var h20 := Next(m, h12);
    var h10 := Twin(m, h01);
    var h03 := Next(m, h10);
    var h31 := Next(m, h03);
    assert Linked(m, h01) && Linked(m, h10);
    var m1 := MeshState(FlipEdgesOf(m.edges, f, h01, h10, h12, h20, h03, h31, Origin(m, h20), Origin(m, h31)),
      m.faces + [Face(h03, None), Face(h12, None)], m.vertices, m.upperLeftEdge, m.rightEdge);
    var m2 := Repair(m1, Origin(m, h01), h01, h03);
    assert FlipSpec(m, h01) == Repair(m2, Origin(m, h10), h10, h12);
    forall i | 0 <= i < |m.vertices|
      ensures FlipSpec(m, h01).vertices[i].Some? <==> m.vertices[i].Some?
    {
      RepairVertex(m1, Origin(m, h01), h01, h03, i);
      RepairVertex(m2, Origin(m, h10), h10, h12, i);
    }
  }

  /** splitTriangles adds the vertex i4 and no other. */
  lemma SplitTrianglesAddsVertex(m: MeshState, h01: int, i4: int)
    requires AllLinked(m) && 0 <= h01 < |m.edges| && 0 <= i4 < |m.vertices|
    ensures VertexAdded(m, SplitTrianglesSpec(m, h01, i4), i4)
  {
    forall i | 0 <= i < |m.vertices|
      ensures SplitTrianglesSpec(m, h01, i4).vertices[i].Some? <==> m.vertices[i].Some? || i == i4
    {
      SplitTrianglesVertexShape(m, h01, i4, i);
    }
  }

  /** The corners calcTriangle finds are vertex ids of the input. */
  lemma CalcTriangleIds(m: MeshState, f: int)
    requires MeshValid(m) && 0 <= f < |m.faces| && CalcTriangleOf(m, f).Success?
    ensures TriIds(CalcTriangleOf(m, f).value, |m.vertices|)
  {
    var h := m.faces[f].edge;
    assert Linked(m, h) && Linked(m, Next(m, h)) && Linked(m, Next(m, Next(m, h)));
    CanonicalIds(CycleIds(m, h), |m.vertices|);
  }

  /** The corners of the quad around an edge are vertex ids of the input. */
  lemma QuadOfIds(m: MeshState, h: int)
    requires MeshValid(m) && 0 <= h < |m.edges|
    ensures QuadIds(QuadOf(m, h), |m.vertices|)
  {
    var e := m.edges[h];
    assert Linked(m, h) && Linked(m, e.next) && Linked(m, e.twin) && Linked(m, Next(m, e.twin));
    assert Linked(m, Next(m, e.next)) && Linked(m, Next(m, Next(m, e.twin)));
  }

  /** Faces appended without data keep the data of a mesh in range, however
      the history grows. */
  lemma DataInRangeGrows(m0: MeshState, m1: MeshState, k0: nat, k1: nat)
    requires DataInRange(m0, k0) && k0 <= k1
    requires |m0.faces| <= |m1.faces| && m1.faces[..|m0.faces|] == m0.faces
    requires forall f :: |m0.faces| <= f < |m1.faces| ==> m1.faces[f].data.None?
    ensures DataInRange(m1, k1)
  {
    forall f | 0 <= f < |m1.faces| && m1.faces[f].data.Some?
      ensures m1.faces[f].data.value < k1
    {
      if f < |m0.faces| {
        assert m1.faces[f] == m1.faces[..|m0.faces|][f];
      }
    }
  }

  /** Faces f + 1 and f given the two new leaves of FlipLeavesSpec, whose
      triangles are the faces' own, match them: with FlipFacts, after
      flipEdge the two new faces and the two new leaves agree. */
  lemma DataPairMatches(s: MeshState, nodes: seq<Node>, f: nat, d0: nat, d1: nat, tri0: Tri, tri1: Tri)
    requires MeshValid(s) && DataInRange(s, |nodes|) && f + 1 < |s.faces| && d0 < |nodes| && d1 < |nodes|
    requires CalcTriangleOf(s, f + 1) == Success(tri0) && CalcTriangleOf(s, f) == Success(tri1)
    ensures var r := DataPair(s, f, |nodes|);
      var after := FlipLeavesSpec(nodes, d0, d1, tri0, tri1);
      MeshValid(r) && FaceMatches(r, after, f) && FaceMatches(r, after, f + 1)
  {
    var k := |nodes|;
    var s1 := SetFaceData(s, f + 1, Some(k));
    SetDataKeeps(s, f + 1, Some(k), k, k + 2);
    SetDataKeeps(s1, f, Some(k + 1), k + 2, k + 2);
    var r := SetFaceData(s1, f, Some(k + 1));
    SameShapeCalc(s, s1, f);
    SameShapeCalc(s, s1, f + 1);
    SameShapeCalc(s1, r, f);
    SameShapeCalc(s1, r, f + 1);
  }

  /** Giving faces f + 1 and f the nodes k and k + 1 keeps the mesh
      invariant, the vertices and the half-edges, and the data stays below
      k + 2. */
  lemma DataPairValid(s: MeshState, k: nat, f: nat)
    requires MeshValid(s) && DataInRange(s, k) && f + 1 < |s.faces|
    ensures var r := DataPair(s, f, k);
      MeshValid(r) && SameVertices(s, r) && DataInRange(r, k + 2) && r.edges == s.edges
  {
    var s1 := SetFaceData(s, f + 1, Some(k));
    SetDataKeeps(s, f + 1, Some(k), k, k + 2);
    SetDataKeeps(s1, f, Some(k + 1), k + 2, k + 2);
    SameThenSame(s, s1, DataPair(s, f, k));
  }

  /** flipEdge's history update keeps every old node's triangle. */
  lemma FlipLeavesGrow(nodes: seq<Node>, n0: nat, n1: nat, tri0: Tri, tri1: Tri)
    requires n0 < |nodes| && n1 < |nodes|
    ensures HistoryGrows(nodes, FlipLeavesSpec(nodes, n0, n1, tri0, tri1))
  {
  }

  /** Setting a face's data to a node below k1 keeps the mesh invariant,
      the vertices and the range of the data. */
  lemma SetDataKeeps(m: MeshState, f: int, d: Option<nat>, k0: nat, k1: nat)
    requires MeshValid(m) && DataInRange(m, k0) && k0 <= k1 && 0 <= f < |m.faces| && (d.Some? ==> d.value < k1)
    ensures var r := SetFaceData(m, f, d);
      MeshValid(r) && SameShape(m, r) && SameVertices(m, r) && DataInRange(r, k1) && r.edges == m.edges
  {
    SameShapeKeeps(m, SetFaceData(m, f, d));
  }

  /** Distinct entries of an array that holds each value at most once. */
  lemma OnceDistinct(s: seq<int>, a: int, b: int)
    requires 0 <= a < b < |s| && forall v :: multiset(s)[v] <= 1
    ensures s[a] != s[b]
  {
    var t := s[..b];
    assert s == t + s[b..];
    assert t[a] == s[a] && s[b..][0] == s[b];
    assert multiset(s) == multiset(t) + multiset(s[b..]);
    assert multiset(t)[s[a]] >= 1 && multiset(s[b..])[s[b]] >= 1;
    assert multiset(s)[s[a]] <= 1;
  }

  /** m1 differs from m0 at most in the data of its faces. */
  predicate SameShape(m0: MeshState, m1: MeshState) {
    m1.edges == m0.edges && m1.vertices == m0.vertices && m1.upperLeftEdge == m0.upperLeftEdge &&
    m1.rightEdge == m0.rightEdge && |m1.faces| == |m0.faces| &&
    forall f :: 0 <= f < |m0.faces| ==> m1.faces[f].edge == m0.faces[f].edge
  }

  /** The mesh invariant does not read face data. */
  lemma SameShapeKeeps(m0: MeshState, m1: MeshState)
    requires SameShape(m0, m1) && MeshValid(m0)
    ensures MeshValid(m1)
  {
    SameShapeLinked(m0, m1);
    forall h | 0 <= h < |m1.edges| && m1.edges[h].inUse
      ensures EdgeOk(m1, h)
    {
      assert EdgeOk(m0, h);
      var f := m0.edges[h].face;
      assert m1.faces[f].edge == m0.faces[f].edge;
    }
    assert VertexEdgesOk(m0);
    forall i | 0 <= i < |m1.vertices| && m1.vertices[i].Some?
      ensures InUse(m1, m1.vertices[i].value) && m1.edges[m1.vertices[i].value].origin == i
    {
      var v := m0.vertices[i].value;
      assert InUse(m0, v) && m0.edges[v].origin == i;
      assert m1.vertices[i] == m0.vertices[i] && m1.edges[v] == m0.edges[v];
    }
  }

  lemma SameShapeLinked(m0: MeshState, m1: MeshState)
    requires SameShape(m0, m1) && AllLinked(m0)
    ensures AllLinked(m1)
  {
    forall h | 0 <= h < |m1.edges|
      ensures Linked(m1, h)
    {
      assert Linked(m0, h);
    }
  }

  /** Nor does calcTriangle. */
  lemma SameShapeCalc(m0: MeshState, m1: MeshState, f: int)
    requires SameShape(m0, m1) && AllLinked(m0) && AllLinked(m1) && 0 <= f < |m0.faces|
    ensures CalcTriangleOf(m1, f) == CalcTriangleOf(m0, f)
  {
  }

  /** The data of faces f .. f + count - 1 set to k .. k + count - 1, in
      that order. */
  function SetDataRun(m: MeshState, f: nat, k: nat, count: nat): (r: MeshState)
    requires f + count <= |m.faces|
    ensures SameShape(m, r)
    ensures forall x :: 0 <= x < |m.faces| ==>
      r.faces[x].data == if f <= x < f + count then Some(k + x - f) else m.faces[x].data
  {
    if count == 0 then m
    else SetFaceData(SetDataRun(m, f, k, count - 1), f + count - 1, Some(k + count - 1))
  }

  /** What the driver needs of a flip whose new diagonal joins two
      different vertices: a valid mesh with the same point vertices, the
      new pair n, n + 1 on the new faces f + 1 and f, and their triangles. */
  lemma FlipFacts(m: MeshState, h: int, k: nat)
    requires MeshValid(m) && InUse(m, h) && QuadOf(m, h).v2 != QuadOf(m, h).v3 && DataInRange(m, k)
    ensures var r := FlipSpec(m, h); var n, f := |m.edges|, |m.faces|; var q := QuadOf(m, h);
      MeshValid(r) && SameVertices(m, r) && DataInRange(r, k) &&
      |r.edges| == n + 2 && |r.faces| == f + 2 &&
      r.edges[n].twin == n + 1 && r.edges[n].face == f + 1 && r.edges[n + 1].face == f &&
      r.edges[n].origin == q.v2 && r.edges[n + 1].origin == q.v3 &&
      CalcTriangleOf(r, f + 1) == Success(Canonical([q.v1, q.v2, q.v3])) &&
      CalcTriangleOf(r, f) == Success(Canonical([q.v0, q.v3, q.v2]))
  {
    EdgeLaws(m, h);
    FlipValid(m, h);
    FlipFaceTriangles(m, h);
    FlipKeepsVertices(m, h);
    FlipShape(m, h);
    FlipRecordsHold(m, h);
    DataInRangeGrows(m, FlipSpec(m, h), k, k);
  }

  /** Setting the data of a run of faces to nodes below k1 keeps the mesh
      invariant and the vertices. */
  lemma SetDataRunKeeps(s: MeshState, f: nat, k: nat, count: nat, k1: nat)
    requires MeshValid(s) && DataInRange(s, k1) && f + count <= |s.faces| && k + count <= k1
    ensures var r := SetDataRun(s, f, k, count);
      MeshValid(r) && SameVertices(s, r) && DataInRange(r, k1) && r.edges == s.edges
  {
    SameShapeKeeps(s, SetDataRun(s, f, k, count));
  }

  /** splitTriangle adds the vertex p and no other, and its new faces
      carry no data. */
  lemma SplitTriangleAdds(m: MeshState, h01: int, p: int, k0: nat, k1: nat)
    requires MeshValid(m) && InUse(m, h01) && 0 <= p < |m.vertices| && m.vertices[p].None?
    requires DataInRange(m, k0) && k0 <= k1
    ensures var r := SplitTriangleSpec(m, h01, p);
      MeshValid(r) && VertexAdded(m, r, p) && DataInRange(r, k1)
  {
    var r := SplitTriangleSpec(m, h01, p);
    SplitTriangleValid(m, h01, p);
    SplitTriangleFaces(m, h01, p);
    assert r.faces[..|m.faces|] == m.faces;
    DataInRangeGrows(m, r, k0, k1);
  }

  /** splitTrianges, likewise, for i4. */
  lemma SplitTrianglesAdds(m: MeshState, h01: int, i4: int, k0: nat, k1: nat)
    requires MeshValid(m) && InUse(m, h01) && 0 <= i4 < |m.vertices| && m.vertices[i4].None?
    requires DataInRange(m, k0) && k0 <= k1
    ensures var r := SplitTrianglesSpec(m, h01, i4);
      MeshValid(r) && VertexAdded(m, r, i4) && DataInRange(r, k1)
  {
    var r := SplitTrianglesSpec(m, h01, i4);
    SplitTrianglesValid(m, h01, i4);
    SplitTrianglesFaces(m, h01, i4);
    SplitTrianglesAddsVertex(m, h01, i4);
    DataInRangeGrows(m, r, k0, k1);
  }

  /** The handles the driver follows from h30 after splitTriangle: h30
      lies on the first new face, h30.prev.twin (h31) on the second and
      h30.twin.next (h32) on the third. */
  lemma SplitTriangleHandles(m: MeshState, h01: int, p: int)
    requires AllLinked(m) && 0 <= h01 < |m.edges| && 0 <= p < |m.vertices|
    ensures var r := SplitTriangleSpec(m, h01, p); var n, f := |m.edges|, |m.faces|;
      |r.edges| == n + 6 && |r.faces| == f + 3 &&
      r.edges[n + 1].face == f && r.edges[n + 1].prev == n + 2 && r.edges[n + 2].twin == n + 3 &&
      r.edges[n + 3].face == f + 1 && r.edges[n + 1].twin == n && r.edges[n].next == n + 5 &&
      r.edges[n + 5].face == f + 2
  {
    assert Linked(m, h01) && Linked(m, Next(m, h01));
  }

  /** When the leaf's triangle is the cycle of the edge splitTriangle
      finds, the three new faces hold the three new leaves, in order, and
      each leaf's triangle is its face's calcTriangle. */
  lemma SplitLeafMatches(m: MeshState, nodes: seq<Node>, node: nat, h: int, p: int)
    requires MeshValid(m) && InUse(m, h) && 0 <= p < |m.vertices| && m.vertices[p].None?
    requires NodesValid(nodes, |m.vertices|) && node < |nodes| && CycleIds(m, h) == nodes[node].triangle
    ensures Matches3(SetDataRun(SplitTriangleSpec(m, h, p), |m.faces|, |nodes|, 3),
      SplitLeafSpec(nodes, node, p, |m.vertices|), |m.faces|)
  {
    var t := nodes[node].triangle;
    SplitTriangleCorners(m, h, p, t);
    SplitLeafLeaves(nodes, node, p, |m.vertices|, t);
    RunMatches3(SplitTriangleSpec(m, h, p), |m.faces|, SplitLeafSpec(nodes, node, p, |m.vertices|), |nodes|,
      CanonicalOf(t[0], t[1], p), CanonicalOf(t[1], t[2], p), CanonicalOf(t[2], t[0], p));
  }

  /** r is valid and its three faces from f on hold the nodes their data
      names, each a leaf whose triangle is its face's calcTriangle. */
  ghost predicate Matches3(r: MeshState, after: seq<Node>, f: nat)
  {
    MeshValid(r) && FaceMatches(r, after, f) && FaceMatches(r, after, f + 1) && FaceMatches(r, after, f + 2)
  }

  /** The same for four faces from f on. */
  ghost predicate Matches4(r: MeshState, after: seq<Node>, f: nat)
  {
    Matches3(r, after, f) && FaceMatches(r, after, f + 3)
  }

  /** Faces f to f + 2 of a valid s have the triangles t0, t1, t2. */
  ghost predicate FacesHold3(s: MeshState, f: nat, t0: Tri, t1: Tri, t2: Tri)
  {
    MeshValid(s) && f + 3 <= |s.faces| &&
    CalcTriangleOf(s, f) == Success(t0) && CalcTriangleOf(s, f + 1) == Success(t1) &&
    CalcTriangleOf(s, f + 2) == Success(t2)
  }

  /** Nodes k to k + 2 are leaves with the triangles t0, t1, t2. */
  ghost predicate LeavesAt3(after: seq<Node>, k: nat, t0: Tri, t1: Tri, t2: Tri)
  {
    k + 3 <= |after| && after[k] == Node([], t0) && after[k + 1] == Node([], t1) && after[k + 2] == Node([], t2)
  }

  /** The canonical rotation of the triangle a, b, c. */
  function CanonicalOf(a: int, b: int, c: int): Tri {
    Canonical([a, b, c])
  }

  /** The three new faces of splitTriangle, by the corners of the split
      triangle. */
  lemma SplitTriangleCorners(m: MeshState, h: int, p: int, t: Tri)
    requires MeshValid(m) && InUse(m, h) && 0 <= p < |m.vertices| && m.vertices[p].None? && t == CycleIds(m, h)
    ensures |SplitTriangleSpec(m, h, p).faces| == |m.faces| + 3
    ensures FacesHold3(SplitTriangleSpec(m, h, p), |m.faces|,
      CanonicalOf(t[0], t[1], p), CanonicalOf(t[1], t[2], p), CanonicalOf(t[2], t[0], p))
  {
    SplitTriangleValid(m, h, p);
    SplitTriangleFaces(m, h, p);
  }

  /** The three leaves at the end of SplitLeafSpec. */
  lemma SplitLeafLeaves(nodes: seq<Node>, n: nat, p: int, numPoints: nat, t: Tri)
    requires NodesValid(nodes, numPoints) && n < |nodes| && IsVertexId(p, numPoints) && t == nodes[n].triangle
    ensures |SplitLeafSpec(nodes, n, p, numPoints)| == |nodes| + 3
    ensures LeavesAt3(SplitLeafSpec(nodes, n, p, numPoints), |nodes|,
      CanonicalOf(t[0], t[1], p), CanonicalOf(t[1], t[2], p), CanonicalOf(t[2], t[0], p))
  {
  }

  /** Three faces from f on, given the data k to k + 2, hold those nodes
      when the nodes are leaves with the faces' triangles. */
  lemma RunMatches3(s: MeshState, f: nat, after: seq<Node>, k: nat, t0: Tri, t1: Tri, t2: Tri)
    requires FacesHold3(s, f, t0, t1, t2) && LeavesAt3(after, k, t0, t1, t2)
    ensures Matches3(SetDataRun(s, f, k, 3), after, f)
  {
    RunFaceMatches(s, f, k, 3, after, 0, t0);
    RunFaceMatches(s, f, k, 3, after, 1, t1);
    RunFaceMatches(s, f, k, 3, after, 2, t2);
  }

  /** Face f + i of a run set from f on holds node k + i, when that node
      is a leaf with the face's triangle. */
  lemma RunFaceMatches(s: MeshState, f: nat, k: nat, count: nat, after: seq<Node>, i: nat, t: Tri)
    requires MeshValid(s) && f + count <= |s.faces| && i < count && k + i < |after|
    requires after[k + i] == Node([], t) && CalcTriangleOf(s, f + i) == Success(t)
    ensures MeshValid(SetDataRun(s, f, k, count)) && FaceMatches(SetDataRun(s, f, k, count), after, f + i)
  {
    var r := SetDataRun(s, f, k, count);
    SameShapeKeeps(s, r);
    SameShapeCalc(s, r, f + i);
  }

  /** When the corners of the two leaves are the quad around the edge
      splitTriangles finds, the four new faces hold the four new leaves, in
      order, and each leaf's triangle is its face's calcTriangle. */
  lemma SplitLeavesMatches(m: MeshState, nodes: seq<Node>, n0: nat, n1: nat, c: Corners, h: int, i4: int)
    requires MeshValid(m) && InUse(m, h) && 0 <= i4 < |m.vertices| && m.vertices[i4].None?
    requires n0 < |nodes| && n1 < |nodes| && QuadOf(m, h) == Quad(c.i0, c.i1, c.i2, c.i3)
    ensures Matches4(SetDataRun(SplitTrianglesSpec(m, h, i4), |m.faces|, |nodes|, 4),
      SplitLeavesNodes(nodes, n0, n1, c, i4), |m.faces|)
  {
    SplitTrianglesCorners(m, h, i4, c);
    SplitLeavesLeaves(nodes, n0, n1, c, i4);
    RunMatches4(SplitTrianglesSpec(m, h, i4), |m.faces|, SplitLeavesNodes(nodes, n0, n1, c, i4), |nodes|,
      CanonicalOf(c.i0, i4, c.i2), CanonicalOf(i4, c.i1, c.i2), CanonicalOf(c.i1, i4, c.i3), CanonicalOf(i4, c.i0, c.i3));
  }

  /** Faces f to f + 3 of a valid s have the triangles t0 to t3. */
  ghost predicate FacesHold4(s: MeshState, f: nat, t0: Tri, t1: Tri, t2: Tri, t3: Tri)
  {
    FacesHold3(s, f, t0, t1, t2) && f + 4 <= |s.faces| && CalcTriangleOf(s, f + 3) == Success(t3)
  }

  /** Nodes k to k + 3 are leaves with the triangles t0 to t3. */
  ghost predicate LeavesAt4(after: seq<Node>, k: nat, t0: Tri, t1: Tri, t2: Tri, t3: Tri)
  {
    LeavesAt3(after, k, t0, t1, t2) && k + 4 <= |after| && after[k + 3] == Node([], t3)
  }

  /** The four new faces of splitTriangles, by the corners of the quad. */
  lemma SplitTrianglesCorners(m: MeshState, h: int, i4: int, c: Corners)
    requires MeshValid(m) && InUse(m, h) && 0 <= i4 < |m.vertices| && m.vertices[i4].None?
    requires QuadOf(m, h) == Quad(c.i0, c.i1, c.i2, c.i3)
    ensures |SplitTrianglesSpec(m, h, i4).faces| == |m.faces| + 4
    ensures FacesHold4(SplitTrianglesSpec(m, h, i4), |m.faces|,
      CanonicalOf(c.i0, i4, c.i2), CanonicalOf(i4, c.i1, c.i2), CanonicalOf(c.i1, i4, c.i3), CanonicalOf(i4, c.i0, c.i3))
  {
    EdgeLaws(m, h);
    SplitTrianglesValid(m, h, i4);
    SplitTrianglesFaceTriangles(m, h, i4);
  }

  /** Four faces from f on, given the data k to k + 3, hold those nodes
      when the nodes are leaves with the faces' triangles. */
  lemma RunMatches4(s: MeshState, f: nat, after: seq<Node>, k: nat, t0: Tri, t1: Tri, t2: Tri, t3: Tri)
    requires FacesHold4(s, f, t0, t1, t2, t3) && LeavesAt4(after, k, t0, t1, t2, t3)
    ensures Matches4(SetDataRun(s, f, k, 4), after, f)
  {
    RunFaceMatches(s, f, k, 4, after, 0, t0);
    RunFaceMatches(s, f, k, 4, after, 1, t1);
    RunFaceMatches(s, f, k, 4, after, 2, t2);
    RunFaceMatches(s, f, k, 4, after, 3, t3);
  }

  /** The four leaves at the end of SplitLeavesNodes. */
  lemma SplitLeavesLeaves(nodes: seq<Node>, n0: nat, n1: nat, c: Corners, i4: int)
    requires n0 < |nodes| && n1 < |nodes|
    ensures |SplitLeavesNodes(nodes, n0, n1, c, i4)| == |nodes| + 4
    ensures LeavesAt4(SplitLeavesNodes(nodes, n0, n1, c, i4), |nodes|,
      CanonicalOf(c.i0, i4, c.i2), CanonicalOf(i4, c.i1, c.i2), CanonicalOf(c.i1, i4, c.i3), CanonicalOf(i4, c.i0, c.i3))
  {
  }

  /** Splitting a leaf keeps every node's triangle. */
  lemma SplitLeafGrows(nodes: seq<Node>, n: nat, pointIndex: int, numPoints: nat)
    requires NodesValid(nodes, numPoints) && n < |nodes| && IsVertexId(pointIndex, numPoints)
    ensures HistoryGrows(nodes, SplitLeafSpec(nodes, n, pointIndex, numPoints))
  {
  }

  /** So does splitting two leaves. */
  lemma SplitLeavesGrow(nodes: seq<Node>, n0: nat, n1: nat, c: Corners, i4: int)
    requires n0 < |nodes| && n1 < |nodes|
    ensures HistoryGrows(nodes, SplitLeavesNodes(nodes, n0, n1, c, i4))
  {
  }

  /** A vertex added, then the vertices kept: still that vertex added. */
  lemma AddedThenSame(m0: MeshState, m1: MeshState, m2: MeshState, p: int)
    requires VertexAdded(m0, m1, p) && SameVertices(m1, m2)
    ensures VertexAdded(m0, m2, p)
  {
  }

  lemma SameThenSame(m0: MeshState, m1: MeshState, m2: MeshState)
    requires SameVertices(m0, m1) && SameVertices(m1, m2)
    ensures SameVertices(m0, m2)
  {
  }

  /** What legalizeEdge leaves behind: its outcome, the mesh and the
      history. */
  datatype Legalized = Legalized(outcome: Outcome, mesh: MeshState, nodes: seq<Node>)

  /** A mesh and a history as the triangulation keeps them: both valid, one
      vertex slot per point, and every face's data a node of the history. */
  ghost predicate StateValid(m: MeshState, nodes: seq<Node>, points: seq<Point>, g: Geometry) {
    MeshValid(m) && NodesValid(nodes, |points|) && |m.vertices| == |points| &&
    DataInRange(m, |nodes|) && g.Sound()
  }

  /** legalizeEdge(iNew, ie0, ie1) on values: no edge, a legal edge or a
      quad that is not convex leave everything as it was; otherwise the edge
      is flipped and the edges ie0-iOpposite and iOpposite-ie1 are
      legalized in turn. `fuel` bounds the depth of the recursion. */
  function LegalizeOf(m: MeshState, nodes: seq<Node>, points: seq<Point>, g: Geometry,
                      iNew: int, ie0: int, ie1: int, fuel: nat): (r: Legalized)
    requires StateValid(m, nodes, points, g)
    decreases fuel, 2
    ensures StateValid(r.mesh, r.nodes, points, g)
  {
    var found := FindHalfEdge(m, ie0, ie1);
    if found.Failure? then Legalized(Fail(found.error), m, nodes)
    else if found.value.None? then Legalized(Pass, m, nodes)
    else
      var h := LocatedEdge(m, ie0, ie1).value;
      var legal := IsLegalOf(m, points, 0, g, h);
      if legal.Failure? then Legalized(Fail(legal.error), m, nodes)
      else if legal.value then Legalized(Pass, m, nodes)
      else
        var convex := SwapIsConvexOf(m, points, g, h);
        if convex.Failure? then Legalized(Fail(convex.error), m, nodes)
        else if !convex.value then Legalized(Pass, m, nodes)
        else FlipAndLegalizeOf(m, nodes, points, g, iNew, ie0, ie1, h, fuel)
  }

  /** The flip step of legalizeEdge on values: flipEdge(h), then the two
      recursive legalizations, the second only when the first has not
      failed. */
  function FlipAndLegalizeOf(m: MeshState, nodes: seq<Node>, points: seq<Point>, g: Geometry,
                             iNew: int, ie0: int, ie1: int, h: int, fuel: nat): (r: Legalized)
    requires StateValid(m, nodes, points, g) && InUse(m, h)
    requires FaceNode(m, h).Some? && FaceNode(m, Twin(m, h)).Some?
    requires SwapIsConvexOf(m, points, g, h) == Success(true)
    decreases fuel, 1
    ensures StateValid(r.mesh, r.nodes, points, g)
  {
    FlipStepValid(m, nodes, points, g, h);
    LegalizeRestOf(FlipEdgeMesh(m, h, |nodes|), FlipHistory(m, nodes, h), points, g, iNew, ie0, QuadOf(m, h).v3, ie1, fuel)
  }

  /** The end of legalizeEdge after a flip, with the fuel spent on it:
      nothing is left to legalize with when the fuel is out. */
  function LegalizeRestOf(m: MeshState, nodes: seq<Node>, points: seq<Point>, g: Geometry,
                          iNew: int, ie0: int, iOpposite: int, ie1: int, fuel: nat): (r: Legalized)
    requires StateValid(m, nodes, points, g)
    decreases fuel, 0
    ensures StateValid(r.mesh, r.nodes, points, g)
  {
    if fuel == 0 then Legalized(Fail(OutOfFuel), m, nodes)
    else LegalizeTwoOf(m, nodes, points, g, iNew, ie0, iOpposite, ie1, fuel - 1)
  }

  /** The two legalizeEdge calls that end legalizeEdge after a flip: the
      edge ie0-iOpposite, then, unless that failed, the edge iOpposite-ie1. */
  function LegalizeTwoOf(m: MeshState, nodes: seq<Node>, points: seq<Point>, g: Geometry,
                         iNew: int, ie0: int, iOpposite: int, ie1: int, fuel: nat): (r: Legalized)
    requires StateValid(m, nodes, points, g)
    decreases fuel, 3
    ensures StateValid(r.mesh, r.nodes, points, g)
  {
    var r1 := LegalizeOf(m, nodes, points, g, iNew, ie0, iOpposite, fuel);
    if r1.outcome.Fail? then r1
    else LegalizeOf(r1.mesh, r1.nodes, points, g, iNew, iOpposite, ie1, fuel)
  }

  /** r keeps the point vertices of m and every node's triangle of nodes,
      and removes no half-edge. */
  predicate Grew(m: MeshState, nodes: seq<Node>, r: Legalized) {
    HistoryGrows(nodes, r.nodes) && SameVertices(m, r.mesh) && |r.mesh.edges| >= |m.edges|
  }

  lemma GrewTrans(m: MeshState, nodes: seq<Node>, r1: Legalized, r2: Legalized)
    requires Grew(m, nodes, r1) && Grew(r1.mesh, r1.nodes, r2)
    ensures Grew(m, nodes, r2)
  {
    HistoryGrowsTrans(nodes, r1.nodes, r2.nodes);
    SameThenSame(m, r1.mesh, r2.mesh);
  }

  /** legalizeEdge keeps the point vertices and every node's triangle, and
      removes no half-edge. */
  lemma {:induction false} LegalizeOfGrows(m: MeshState, nodes: seq<Node>, points: seq<Point>, g: Geometry,
                                           iNew: int, ie0: int, ie1: int, fuel: nat)
    requires StateValid(m, nodes, points, g)
    decreases fuel, 4
    ensures Grew(m, nodes, LegalizeOf(m, nodes, points, g, iNew, ie0, ie1, fuel))
  {
    var r := LegalizeOf(m, nodes, points, g, iNew, ie0, ie1, fuel);
    var found := FindHalfEdge(m, ie0, ie1);
    if found.Success? && found.value.Some? {
      var h := LocatedEdge(m, ie0, ie1).value;
      if IsLegalOf(m, points, 0, g, h) == Success(false) && SwapIsConvexOf(m, points, g, h) == Success(true) {
        FlipAndLegalizeOfGrows(m, nodes, points, g, iNew, ie0, ie1, h, fuel);
        assert r == FlipAndLegalizeOf(m, nodes, points, g, iNew, ie0, ie1, h, fuel);
        return;
      }
    }
    assert r.mesh == m && r.nodes == nodes;
    GrewUnchanged(m, nodes, r);
  }

  lemma GrewUnchanged(m: MeshState, nodes: seq<Node>, r: Legalized)
    requires r.mesh == m && r.nodes == nodes
    ensures Grew(m, nodes, r)
  {
  }

  /** A flip step of legalizeEdge adds at least the flip's two half-edges
      and two leaves, and keeps the vertices and every node's triangle. */
  lemma {:induction false} FlipAndLegalizeOfGrows(m: MeshState, nodes: seq<Node>, points: seq<Point>, g: Geometry,
                                                  iNew: int, ie0: int, ie1: int, h: int, fuel: nat)
    requires StateValid(m, nodes, points, g) && InUse(m, h)
    requires FaceNode(m, h).Some? && FaceNode(m, Twin(m, h)).Some?
    requires SwapIsConvexOf(m, points, g, h) == Success(true)
    decreases fuel, 3
    ensures var r := FlipAndLegalizeOf(m, nodes, points, g, iNew, ie0, ie1, h, fuel);
      Grew(m, nodes, r) && |r.mesh.edges| >= |m.edges| + 2 && |r.nodes| >= |nodes| + 2
  {
    FlipStepValid(m, nodes, points, g, h);
    var m1, nodes1 := FlipEdgeMesh(m, h, |nodes|), FlipHistory(m, nodes, h);
    GrowsAfter(m, nodes, m1, nodes1, points, g, iNew, ie0, QuadOf(m, h).v3, ie1, fuel);
  }

  /** What a flip added and kept survives the rest of legalizeEdge. */
  lemma GrowsAfter(m: MeshState, nodes: seq<Node>, m1: MeshState, nodes1: seq<Node>, points: seq<Point>, g: Geometry,
                   iNew: int, ie0: int, iOpposite: int, ie1: int, fuel: nat)
    requires StateValid(m1, nodes1, points, g)
    requires HistoryGrows(nodes, nodes1) && SameVertices(m, m1)
    requires |m1.edges| == |m.edges| + 2 && |nodes1| == |nodes| + 2
    decreases fuel, 2
    ensures var r := LegalizeRestOf(m1, nodes1, points, g, iNew, ie0, iOpposite, ie1, fuel);
      Grew(m, nodes, r) && |r.mesh.edges| >= |m.edges| + 2 && |r.nodes| >= |nodes| + 2
  {
    LegalizeRestOfGrows(m1, nodes1, points, g, iNew, ie0, iOpposite, ie1, fuel);
    GrewTrans(m, nodes, Legalized(Pass, m1, nodes1), LegalizeRestOf(m1, nodes1, points, g, iNew, ie0, iOpposite, ie1, fuel));
  }

  /** The end of legalizeEdge after a flip keeps the vertices and every
      node's triangle, and removes no half-edge. */
  lemma {:induction false} LegalizeRestOfGrows(m: MeshState, nodes: seq<Node>, points: seq<Point>, g: Geometry,
                                               iNew: int, ie0: int, iOpposite: int, ie1: int, fuel: nat)
    requires StateValid(m, nodes, points, g)
    decreases fuel, 1
    ensures Grew(m, nodes, LegalizeRestOf(m, nodes, points, g, iNew, ie0, iOpposite, ie1, fuel))
  {
    if fuel > 0 {
      LegalizeTwoOfGrows(m, nodes, points, g, iNew, ie0, iOpposite, ie1, fuel - 1);
    }
  }

  /** The two legalizeEdge calls after a flip keep the vertices and every
      node's triangle, and remove no half-edge. */
  lemma {:induction false} LegalizeTwoOfGrows(m: MeshState, nodes: seq<Node>, points: seq<Point>, g: Geometry,
                                              iNew: int, ie0: int, iOpposite: int, ie1: int, fuel: nat)
    requires StateValid(m, nodes, points, g)
    decreases fuel, 5
    ensures Grew(m, nodes, LegalizeTwoOf(m, nodes, points, g, iNew, ie0, iOpposite, ie1, fuel))
  {
    LegalizeOfGrows(m, nodes, points, g, iNew, ie0, iOpposite, fuel);
    var r1 := LegalizeOf(m, nodes, points, g, iNew, ie0, iOpposite, fuel);
    if r1.outcome.Pass? {
      LegalizeOfGrows(r1.mesh, r1.nodes, points, g, iNew, iOpposite, ie1, fuel);
      GrewTrans(m, nodes, r1, LegalizeOf(r1.mesh, r1.nodes, points, g, iNew, iOpposite, ie1, fuel));
    }
  }

  /** legalizeEdge(iNew, ie0, ie1) flips: the edge ie0-ie1 is found, is not
      locally Delaunay and its quad is convex. */
  ghost predicate FlipsAt(m: MeshState, nodes: seq<Node>, points: seq<Point>, g: Geometry, ie0: int, ie1: int)
    requires StateValid(m, nodes, points, g)
  {
    var found := FindHalfEdge(m, ie0, ie1);
    found.Success? && found.value.Some? &&
    IsLegalOf(m, points, 0, g, LocatedEdge(m, ie0, ie1).value) == Success(false) &&
    SwapIsConvexOf(m, points, g, LocatedEdge(m, ie0, ie1).value) == Success(true)
  }

  /** legalizeEdge changes the mesh or the history exactly when it flips,
      and then adds at least two half-edges and two nodes; when it does not
      flip, it fails exactly when one of its lookups fails. */
  lemma LegalizeOfCases(m: MeshState, nodes: seq<Node>, points: seq<Point>, g: Geometry,
                        iNew: int, ie0: int, ie1: int, fuel: nat)
    requires StateValid(m, nodes, points, g)
    ensures var r := LegalizeOf(m, nodes, points, g, iNew, ie0, ie1, fuel);
      (r.mesh == m && r.nodes == nodes) <==> !FlipsAt(m, nodes, points, g, ie0, ie1)
    ensures var r := LegalizeOf(m, nodes, points, g, iNew, ie0, ie1, fuel);
      FlipsAt(m, nodes, points, g, ie0, ie1) ==> |r.mesh.edges| >= |m.edges| + 2 && |r.nodes| >= |nodes| + 2
    ensures var r := LegalizeOf(m, nodes, points, g, iNew, ie0, ie1, fuel);
      !FlipsAt(m, nodes, points, g, ie0, ie1) ==>
        (r.outcome.Fail? <==>
          FindHalfEdge(m, ie0, ie1).Failure? ||
          (FindHalfEdge(m, ie0, ie1).value.Some? &&
           (IsLegalOf(m, points, 0, g, LocatedEdge(m, ie0, ie1).value).Failure? ||
            (IsLegalOf(m, points, 0, g, LocatedEdge(m, ie0, ie1).value) == Success(false) &&
             SwapIsConvexOf(m, points, g, LocatedEdge(m, ie0, ie1).value).Failure?))))
  {
    if FlipsAt(m, nodes, points, g, ie0, ie1) {
      var h := LocatedEdge(m, ie0, ie1).value;
      FlipAndLegalizeOfGrows(m, nodes, points, g, iNew, ie0, ie1, h, fuel);
      assert LegalizeOf(m, nodes, points, g, iNew, ie0, ie1, fuel) == FlipAndLegalizeOf(m, nodes, points, g, iNew, ie0, ie1, h, fuel);
    }
  }

  /** flipEdge(h)'s history update on values: the triangles of the two
      new faces become two new leaves, children of both old faces' nodes. */
  function FlipHistory(m: MeshState, nodes: seq<Node>, h: int): seq<Node>
    requires MeshValid(m) && DataInRange(m, |nodes|) && InUse(m, h)
    requires FaceNode(m, h).Some? && FaceNode(m, Twin(m, h)).Some?
  {
    var q := QuadOf(m, h);
    FlipLeavesSpec(nodes, FaceNode(m, h).value, FaceNode(m, Twin(m, h)).value,
      CanonicalOf(q.v1, q.v2, q.v3), CanonicalOf(q.v0, q.v3, q.v2))
  }

  /** A convex flip keeps the triangulation's state valid, keeps the
      vertices and every node's triangle, and adds two half-edges and two
      leaves. */
  lemma FlipStepValid(m: MeshState, nodes: seq<Node>, points: seq<Point>, g: Geometry, h: int)
    requires StateValid(m, nodes, points, g) && InUse(m, h)
    requires FaceNode(m, h).Some? && FaceNode(m, Twin(m, h)).Some?
    requires SwapIsConvexOf(m, points, g, h) == Success(true)
    ensures var m1, nodes1 := FlipEdgeMesh(m, h, |nodes|), FlipHistory(m, nodes, h);
      StateValid(m1, nodes1, points, g) && HistoryGrows(nodes, nodes1) && SameVertices(m, m1) &&
      |m1.edges| == |m.edges| + 2 && |nodes1| == |nodes| + 2
  {
    QuadOfIds(m, h);
    ConvexSeparatesApexes(m, points, g, h);
    var q := QuadOf(m, h);
    var tri0, tri1 := CanonicalOf(q.v1, q.v2, q.v3), CanonicalOf(q.v0, q.v3, q.v2);
    var d0, d1 := FaceNode(m, h).value, FaceNode(m, Twin(m, h)).value;
    FlipStepMesh(m, nodes, h, q, d0, d1, tri0, tri1);
    FlipLeavesValid(nodes, d0, d1, tri0, tri1, |points|);
    FlipLeavesGrow(nodes, d0, d1, tri0, tri1);
  }

  /** The mesh half of a flip whose new diagonal joins two different
      vertices: valid, the same vertices, two more half-edges, the data in
      the grown history's range, and the new faces' triangles vertex ids. */
  lemma FlipStepMesh(m: MeshState, nodes: seq<Node>, h: int, q: Quad, d0: nat, d1: nat, tri0: Tri, tri1: Tri)
    requires MeshValid(m) && DataInRange(m, |nodes|) && InUse(m, h) && d0 < |nodes| && d1 < |nodes|
    requires q == QuadOf(m, h) && q.v2 != q.v3
    requires tri0 == CanonicalOf(q.v1, q.v2, q.v3) && tri1 == CanonicalOf(q.v0, q.v3, q.v2)
    ensures var m1 := FlipEdgeMesh(m, h, |nodes|);
      MeshValid(m1) && SameVertices(m, m1) && DataInRange(m1, |nodes| + 2) && |m1.edges| == |m.edges| + 2 &&
      TriIds(tri0, |m.vertices|) && TriIds(tri1, |m.vertices|)
  {
    var k := |nodes|;
    FlipFacts(m, h, k);
    var s := FlipSpec(m, h);
    var f := |m.faces|;
    CalcTriangleIds(s, f + 1);
    CalcTriangleIds(s, f);
    DataPairValid(s, k, f);
    SameThenSame(m, s, DataPair(s, f, k));
  }

  /** DelaunayTriangulation: the mesh, the history and the points, of which
      points[0] is the largest in y-then-x order. */
  class DelaunayTriangulation {
    const points: seq<Point>
    /** The orientation and in-circle tests of the floating-point code. */
    const g: Geometry
    var dcel: Dcel
    var pls: PointLocationStructure

    ghost predicate Valid()
      reads this, dcel, pls
    {
      dcel.Valid() && pls.Valid() && dcel.points == points && pls.points == points &&
      dcel.iLargest == 0 && DataInRange(dcel.State(), |pls.nodes|) && g.Sound()
    }

    /** The start of triangulate: the history's single leaf `top`, the
        Dcel's top triangle, and `top` as the data of the face that
        getHalfEdge(-2, 0) reaches. */
    constructor(points: seq<Point>, g: Geometry)
      requires 1 <= |points| <= Util.IntMax && g.Sound()
      ensures this.points == points && this.g == g && fresh(dcel) && fresh(pls)
      ensures Valid()
      ensures dcel.State() == SetFaceData(InitState(|points|, 0), 1, Some(0))
      ensures pls.nodes == [Node([], [-2, 0, -1])]
      ensures FaceMatches(dcel.State(), pls.nodes, 1)
    {
      this.points := points;
      this.g := g;
      var p := new PointLocationStructure(points, 0);
      var d := new Dcel(points, 0);
      pls := p;
      dcel := d;
      new;
      InitFaces(|points|, 0);
      var h_20 := dcel.GetHalfEdge(-2, 0);
      var f := dcel.edges[h_20.value.value].face;
      ghost var m := dcel.State();
      dcel.SetData(f, Some(0));
      SameShapeKeeps(m, dcel.State());
      SameShapeCalc(m, dcel.State(), 1);
    }

    /** DelaunayTriangulation(Point[] points): findLargestPoint must return
        0, then triangulate. `draw(i)` stands for random.nextInt(i + 1). An
        empty array fails in the Dcel constructor's `new Vertex(0)`. */
    static method Create(points: array<Point>, g: Geometry, draw: nat -> nat, fuel: nat)
      returns (r: Result<DelaunayTriangulation>)
      requires points.Length <= Util.IntMax && g.Sound() && forall i: nat :: draw(i) <= i
      ensures points.Length == 0 ==> r == Failure(IndexOutOfBounds)
      ensures r.Success? ==> r.value.Valid() && r.value.points == points[..]
      ensures r.Success? ==> forall v :: 0 <= v < points.Length ==> r.value.dcel.vertices[v].Some?
      ensures points.Length > 0 && (exists j :: 0 < j < points.Length && YThenX(points[j], points[0]) > 0) ==>
        r == Failure(AssertionFailed)
      ensures r.Success? ==> forall j :: 0 <= j < points.Length ==> YThenX(points[j], points[0]) <= 0
    {
      var iLargest := FindLargestPoint(points);
      if iLargest != 0 {
        return Failure(AssertionFailed);
      }
      if points.Length == 0 {
        return Failure(IndexOutOfBounds);
      }
      var t := new DelaunayTriangulation(points[..], g);
      InitValid(points.Length, 0);
      assert t.dcel.State().vertices == InitState(points.Length, 0).vertices;
      var o := t.Triangulate(draw, fuel);
      if o.Fail? {
        return Failure(o.error);
      }
      r := Success(t);
    }

    /** triangulate's loop: every point but points[0], in the order of
        Util.permutation(random, 1, points.length - 1), is inserted. When
        the loop completes every point is a vertex of the mesh. */
    method Triangulate(draw: nat -> nat, fuel: nat) returns (o: Outcome)
      requires Valid() && forall i: nat :: draw(i) <= i
      requires forall v :: 0 <= v < |points| ==> (dcel.vertices[v].Some? <==> v == 0)
      modifies dcel, pls
      ensures Valid() && HistoryGrows(old(pls.nodes), pls.nodes)
      ensures o.Pass? ==> forall v :: 0 <= v < |points| ==> dcel.vertices[v].Some?
    {
      var permutation := Util.PermutationRange(draw, 1, |points| - 1);
      var order := permutation[..];
      forall v | true
        ensures multiset(order)[v] <= 1
      {
        Util.RangeOccurrences(1, |points|, v);
      }
      ghost var nodes0 := pls.nodes;
      for i := 0 to |order|
        invariant Valid() && HistoryGrows(nodes0, pls.nodes)
        invariant forall v :: 0 <= v < |points| ==> (dcel.vertices[v].Some? <==> v == 0 || v in order[..i])
      {
        var pointIndex := order[i];
        assert 1 <= pointIndex < |points|;
        forall j | 0 <= j < i
          ensures order[j] != pointIndex
        {
          OnceDistinct(order, j, i);
        }
        ghost var nodes1 := pls.nodes;
        o := InsertPoint(pointIndex, fuel);
        HistoryGrowsTrans(nodes0, nodes1, pls.nodes);
        if o.Fail? {
          return;
        }
        assert order[..i + 1] == order[..i] + [pointIndex];
      }
      forall v | 0 < v < |points|
        ensures v in order
      {
        Util.RangeOccurrences(1, |points|, v);
        assert multiset(order)[v] == 1;
      }
      assert order[..|order|] == order;
      o := Pass;
    }

    /** dcel.checkEdges(), which never throws on the meshes of the driver. */
    method CheckEdges()
      requires dcel.Valid()
    {
      var c := dcel.CheckEdges();
      ValidPassesChecks(dcel.State());
      assert c == Pass;
    }

    /** The body of triangulate's loop for one point: the leaves of the
        history that contain it, then the branch for one leaf or for two. */
    method InsertPoint(pointIndex: int, fuel: nat) returns (o: Outcome)
      requires Valid() && 0 <= pointIndex < |points| && dcel.vertices[pointIndex].None?
      modifies dcel, pls
      ensures Valid() && HistoryGrows(old(pls.nodes), pls.nodes)
      ensures VertexAdded(old(dcel.State()), dcel.State(), pointIndex) || SameVertices(old(dcel.State()), dcel.State())
      ensures o.Pass? ==> VertexAdded(old(dcel.State()), dcel.State(), pointIndex)
    {
      var leaves := pls.FindContainingLeafNodes(g, points[pointIndex]);
      if leaves.Failure? {
        return Fail(leaves.error);
      }
      var nodes := leaves.value;
      if |nodes| == 1 {
        o := InsertInLeaf(nodes[0], pointIndex, fuel);
      } else {
        o := InsertOnEdge(nodes[0], nodes[1], pointIndex, fuel);
      }
    }

    /** The branch for a point inside one leaf: the leaf and its triangle
        are split in three, then the edges i0 i1, i1 i2 and i2 i0 opposite
        the point are legalized. */
    method InsertInLeaf(node: nat, pointIndex: int, fuel: nat) returns (o: Outcome)
      requires Valid() && node < |pls.nodes| && 0 <= pointIndex < |points| && dcel.vertices[pointIndex].None?
      modifies dcel, pls
      ensures Valid() && HistoryGrows(old(pls.nodes), pls.nodes)
      ensures VertexAdded(old(dcel.State()), dcel.State(), pointIndex) || SameVertices(old(dcel.State()), dcel.State())
      ensures o.Pass? ==> VertexAdded(old(dcel.State()), dcel.State(), pointIndex)
    {
      ghost var m, nodes0 := dcel.State(), pls.nodes;
      var tri := pls.nodes[node].triangle;
      var i0, i1, i2, i3 := tri[0], tri[1], tri[2], pointIndex;
      o := SplitLeaf(node, i3);
      if o.Fail? {
        return;
      }
      o := LegalizeThenCheck(i3, i0, i1, fuel, m, nodes0);
      if o.Fail? {
        return;
      }
      o := LegalizeThenCheck(i3, i1, i2, fuel, m, nodes0);
      if o.Fail? {
        return;
      }
      o := LegalizeThenCheck(i3, i2, i0, fuel, m, nodes0);
    }

    /** The branch for a point on the edge shared by two leaves: the
        corners i0 i1 (the shared edge), i2 and i3, the split of both
        leaves and both triangles in two, then the edges i2 i0, i1 i2,
        i3 i1 and i0 i3 opposite the point are legalized. */
    method InsertOnEdge(n0: nat, n1: nat, pointIndex: int, fuel: nat) returns (o: Outcome)
      requires Valid() && n0 < |pls.nodes| && n1 < |pls.nodes| && 0 <= pointIndex < |points| && dcel.vertices[pointIndex].None?
      modifies dcel, pls
      ensures Valid() && HistoryGrows(old(pls.nodes), pls.nodes)
      ensures VertexAdded(old(dcel.State()), dcel.State(), pointIndex) || SameVertices(old(dcel.State()), dcel.State())
      ensures o.Pass? ==> VertexAdded(old(dcel.State()), dcel.State(), pointIndex)
    {
      ghost var m, nodes0 := dcel.State(), pls.nodes;
      var corners := FindCorners(pls.nodes[n0].triangle, pls.nodes[n1].triangle);
      if corners.Failure? {
        return Fail(corners.error);
      }
      var Corners(i0, i1, i2, i3) := corners.value;
      var i4 := pointIndex;
      o := SplitLeaves(n0, n1, i4);
      if o.Fail? {
        return;
      }
      o := LegalizeThenCheck(i4, i2, i0, fuel, m, nodes0);
      if o.Fail? {
        return;
      }
      o := LegalizeThenCheck(i4, i1, i2, fuel, m, nodes0);
      if o.Fail? {
        return;
      }
      o := LegalizeThenCheck(i4, i3, i1, fuel, m, nodes0);
      if o.Fail? {
        return;
      }
      o := LegalizeThenCheck(i4, i0, i3, fuel, m, nodes0);
    }

    /** The split of the one-leaf branch: pls.splitContainingLeafNode, then
        dcel.splitTriangle on the leaf's triangle, dcel.checkEdges() and the
        three new leaves as the data of the faces of h30, h31 = h30.prev.twin
        and h32 = h30.twin.next. When splitTriangle finds no edge from
        tri[0] to tri[1] the mesh is left as it was. */
    method SplitLeaf(node: nat, pointIndex: int) returns (o: Outcome)
      requires Valid() && node < |pls.nodes| && 0 <= pointIndex < |points| && dcel.vertices[pointIndex].None?
      modifies dcel, pls
      ensures Valid() && pls.nodes == SplitLeafSpec(old(pls.nodes), node, pointIndex, |points|)
      ensures HistoryGrows(old(pls.nodes), pls.nodes)
      ensures var m := old(dcel.State()); var tri := old(pls.nodes)[node].triangle;
        LocatedEdge(m, tri[0], tri[1]).None? ==> o == Fail(LookupError(m, tri[0], tri[1])) && dcel.State() == m
      ensures var m := old(dcel.State()); var tri := old(pls.nodes)[node].triangle; var h := LocatedEdge(m, tri[0], tri[1]);
        h.Some? ==>
          o == Pass && dcel.State() == SetDataRun(SplitTriangleSpec(m, h.value, pointIndex), |m.faces|, |old(pls.nodes)|, 3)
      ensures o.Pass? ==> VertexAdded(old(dcel.State()), dcel.State(), pointIndex)
    {
      ghost var k := |pls.nodes|;
      var tri := pls.nodes[node].triangle;
      SplitLeafGrows(pls.nodes, node, pointIndex, |points|);
      SplitLeafSpecValid(pls.nodes, node, pointIndex, |points|);
      pls.SplitContainingLeafNode(node, pointIndex);
      o := SplitTriangleOf(node, tri, pointIndex, k);
    }

    /** The mesh half of the one-leaf split, after the history's: once the
        node has its new children k .. k + 2. */
    method SplitTriangleOf(node: nat, tri: Tri, pointIndex: int, ghost k: nat) returns (o: Outcome)
      requires Valid() && 0 <= pointIndex < |points| && dcel.vertices[pointIndex].None?
      requires node < |pls.nodes| && pls.nodes[node].children == [k, k + 1, k + 2] && k + 3 == |pls.nodes|
      modifies dcel
      ensures Valid()
      ensures var m := old(dcel.State());
        LocatedEdge(m, tri[0], tri[1]).None? ==> o == Fail(LookupError(m, tri[0], tri[1])) && dcel.State() == m
      ensures var m := old(dcel.State()); var h := LocatedEdge(m, tri[0], tri[1]);
        h.Some? ==> o == Pass && dcel.State() == SetDataRun(SplitTriangleSpec(m, h.value, pointIndex), |m.faces|, k, 3)
      ensures o.Pass? ==> VertexAdded(old(dcel.State()), dcel.State(), pointIndex)
    {
      ghost var m := dcel.State();
      var h30 := dcel.SplitTriangle(tri, pointIndex);
      if h30.Failure? {
        return Fail(h30.error);
      }
      ghost var h := LocatedEdge(m, tri[0], tri[1]).value;
      SplitTriangleAdds(m, h, pointIndex, k + 3, k + 3);
      CheckEdges();
      SplitLeafData(node, h30.value, m, h, pointIndex, k);
      o := Pass;
    }

    /** The data writes of the one-leaf branch: child j of the split leaf
        goes to the face of h30, h31 and h32 for j = 0, 1, 2, which are the
        three new faces in order. */
    method SplitLeafData(node: nat, h30: int, ghost m0: MeshState, ghost h01: int, ghost p: int, ghost k: nat)
      requires Valid() && MeshValid(m0) && InUse(m0, h01) && 0 <= p < |m0.vertices| && m0.vertices[p].None?
      requires dcel.State() == SplitTriangleSpec(m0, h01, p) && h30 == |m0.edges| + 1
      requires node < |pls.nodes| && pls.nodes[node].children == [k, k + 1, k + 2] && k + 3 <= |pls.nodes|
      modifies dcel
      ensures Valid() && dcel.State() == SetDataRun(old(dcel.State()), |m0.faces|, k, 3)
    {
      SplitTriangleHandles(m0, h01, p);
      var h31 := dcel.edges[dcel.edges[h30].prev].twin;
      var h32 := dcel.edges[dcel.edges[h30].twin].next;
      var facesNew := [dcel.edges[h30].face, dcel.edges[h31].face, dcel.edges[h32].face];
      ghost var s, f := dcel.State(), |m0.faces|;
      assert facesNew == [f, f + 1, f + 2];
      for j := 0 to 3
        invariant dcel.State() == SetDataRun(s, f, k, j)
      {
        dcel.SetData(facesNew[j], Some(pls.nodes[node].children[j]));
      }
      SetDataRunKeeps(s, f, k, 3, |pls.nodes|);
    }

    /** The split of the two-leaf branch, once the corners are known:
        pls.splitContainingLeafNodes, then dcel.splitTriangles,
        dcel.checkEdges() and the four new leaves as the data of the faces
        of h04, h41 = h04.next.twin.next, h14 = h41.twin and h40 = h04.twin.
        When splitTriangles finds no edge from i0 to i1 the mesh is left as
        it was. */
    method SplitLeaves(n0: nat, n1: nat, i4: int) returns (o: Outcome)
      requires Valid() && n0 < |pls.nodes| && n1 < |pls.nodes| && 0 <= i4 < |points| && dcel.vertices[i4].None?
      requires SplitCorners(pls.nodes[n0].triangle, pls.nodes[n1].triangle).Success?
      modifies dcel, pls
      ensures var c := SplitCorners(old(pls.nodes)[n0].triangle, old(pls.nodes)[n1].triangle).value;
        Valid() && pls.nodes == SplitLeavesNodes(old(pls.nodes), n0, n1, c, i4)
      ensures HistoryGrows(old(pls.nodes), pls.nodes)
      ensures var m := old(dcel.State()); var c := SplitCorners(old(pls.nodes)[n0].triangle, old(pls.nodes)[n1].triangle).value;
        LocatedEdge(m, c.i0, c.i1).None? ==> o == Fail(LookupError(m, c.i0, c.i1)) && dcel.State() == m
      ensures var m := old(dcel.State()); var c := SplitCorners(old(pls.nodes)[n0].triangle, old(pls.nodes)[n1].triangle).value;
        var h := LocatedEdge(m, c.i0, c.i1);
        h.Some? ==>
          o == Pass && dcel.State() == SetDataRun(SplitTrianglesSpec(m, h.value, i4), |m.faces|, |old(pls.nodes)|, 4)
      ensures o.Pass? ==> VertexAdded(old(dcel.State()), dcel.State(), i4)
    {
      ghost var nodes := pls.nodes;
      var tri0, tri1 := pls.nodes[n0].triangle, pls.nodes[n1].triangle;
      ghost var c := SplitCorners(tri0, tri1).value;
      SplitLeavesSpecValid(nodes, n0, n1, i4, |points|);
      SplitLeavesGrow(nodes, n0, n1, c, i4);
      var split := pls.SplitContainingLeafNodes(n0, n1, i4);
      assert split == Pass;
      o := SplitTrianglesOf(n0, n1, tri0, tri1, i4, c, |nodes|);
    }

    /** The mesh half of the two-leaf split, after the history's: once
        node0 and node1 have their new children k .. k + 3. */
    method SplitTrianglesOf(n0: nat, n1: nat, tri0: Tri, tri1: Tri, i4: int, ghost c: Corners, ghost k: nat)
      returns (o: Outcome)
      requires Valid() && 0 <= i4 < |points| && dcel.vertices[i4].None? && SplitCorners(tri0, tri1) == Success(c)
      requires n0 < |pls.nodes| && n1 < |pls.nodes| && k + 4 == |pls.nodes|
      requires pls.nodes[n0].children == [k, k + 1] && pls.nodes[n1].children == [k + 2, k + 3]
      modifies dcel
      ensures Valid()
      ensures var m := old(dcel.State());
        LocatedEdge(m, c.i0, c.i1).None? ==> o == Fail(LookupError(m, c.i0, c.i1)) && dcel.State() == m
      ensures var m := old(dcel.State()); var h := LocatedEdge(m, c.i0, c.i1);
        h.Some? ==> o == Pass && dcel.State() == SetDataRun(SplitTrianglesSpec(m, h.value, i4), |m.faces|, k, 4)
      ensures o.Pass? ==> VertexAdded(old(dcel.State()), dcel.State(), i4)
    {
      ghost var m := dcel.State();
      var h04 := dcel.SplitTriangles(tri0, tri1, i4);
      if h04.Failure? {
        return Fail(h04.error);
      }
      ghost var h := LocatedEdge(m, c.i0, c.i1).value;
      SplitTrianglesAdds(m, h, i4, k + 4, k + 4);
      CheckEdges();
      SplitLeavesData(n0, n1, h04.value, m, h, i4, k);
      o := Pass;
    }

    /** The data writes of the two-leaf branch: the children of node0 go to
        the faces of h04 and h41, those of node1 to the faces of h14 and
        h40, which are the four new faces in order. */
    method SplitLeavesData(n0: nat, n1: nat, h04: int, ghost m0: MeshState, ghost h01: int, ghost i4: int, ghost k: nat)
      requires Valid() && MeshValid(m0) && InUse(m0, h01) && 0 <= i4 < |m0.vertices|
      requires dcel.State() == SplitTrianglesSpec(m0, h01, i4) && h04 == |m0.edges|
      requires n0 < |pls.nodes| && n1 < |pls.nodes| && k + 4 <= |pls.nodes|
      requires pls.nodes[n0].children == [k, k + 1] && pls.nodes[n1].children == [k + 2, k + 3]
      modifies dcel
      ensures Valid() && dcel.State() == SetDataRun(old(dcel.State()), |m0.faces|, k, 4)
    {
      SplitTrianglesFaces(m0, h01, i4);
      ghost var s, f := dcel.State(), |m0.faces|;
      dcel.SetData(dcel.edges[h04].face, Some(pls.nodes[n0].children[0]));
      assert dcel.State() == SetDataRun(s, f, k, 1);
      var h41 := dcel.edges[dcel.edges[dcel.edges[h04].next].twin].next;
      dcel.SetData(dcel.edges[h41].face, Some(pls.nodes[n0].children[1]));
      assert dcel.State() == SetDataRun(s, f, k, 2);
      var h14 := dcel.edges[h41].twin;
      dcel.SetData(dcel.edges[h14].face, Some(pls.nodes[n1].children[0]));
      assert dcel.State() == SetDataRun(s, f, k, 3);
      var h40 := dcel.edges[h04].twin;
      dcel.SetData(dcel.edges[h40].face, Some(pls.nodes[n1].children[1]));
      SetDataRunKeeps(s, f, k, 4, |pls.nodes|);
    }

    /** legalizeEdge(iNew, ie0, ie1) followed, when it returns, by
        dcel.checkEdges(): since the state m0, nodes0 the vertex iNew has
        been added and the history has only grown, and so it stays. */
    method LegalizeThenCheck(iNew: int, ie0: int, ie1: int, fuel: nat, ghost m0: MeshState, ghost nodes0: seq<Node>)
      returns (o: Outcome)
      requires Valid() && VertexAdded(m0, dcel.State(), iNew) && HistoryGrows(nodes0, pls.nodes)
      modifies dcel, pls
      ensures Valid() && VertexAdded(m0, dcel.State(), iNew) && HistoryGrows(nodes0, pls.nodes)
    {
      ghost var m1, nodes1 := dcel.State(), pls.nodes;
      o := LegalizeEdge(iNew, ie0, ie1, fuel);
      LegalizeOfGrows(m1, nodes1, points, g, iNew, ie0, ie1, fuel);
      HistoryGrowsTrans(nodes0, nodes1, pls.nodes);
      AddedThenSame(m0, m1, dcel.State(), iNew);
      if o.Pass? {
        CheckEdges();
      }
    }

    /** DelaunayTriangulation.legalizeEdge(iNew, ie0, ie1): the mesh, the
        history and the outcome are those of LegalizeOf. */
    method LegalizeEdge(iNew: int, ie0: int, ie1: int, fuel: nat) returns (o: Outcome)
      requires Valid()
      modifies dcel, pls
      decreases fuel, 2
      ensures Valid()
      ensures Legalized(o, dcel.State(), pls.nodes) ==
        LegalizeOf(old(dcel.State()), old(pls.nodes), points, g, iNew, ie0, ie1, fuel)
    {
      ghost var m := dcel.State();
      var found := dcel.GetHalfEdge(ie0, ie1);
      if found.Failure? {
        return Fail(found.error);
      }
      if found.value.None? {
        return Pass;
      }
      var h := found.value.value;
      assert LocatedEdge(m, ie0, ie1) == Some(h);
      var legal := IsLegalOf(dcel.State(), points, dcel.iLargest, g, h);
      if legal.Failure? {
        return Fail(legal.error);
      }
      if legal.value {
        return Pass;
      }
      var convex := SwapIsConvexOf(dcel.State(), points, g, h);
      if convex.Failure? {
        return Fail(convex.error);
      }
      if !convex.value {
        return Pass;
      }
      o := FlipAndLegalize(iNew, ie0, ie1, h, fuel);
    }

    /** The rest of legalizeEdge once h is to be flipped: iOpposite, the
        corner across h from iNew; the flip; the two checks on hNew; and the
        legalization of the edges ie0-iOpposite and iOpposite-ie1. */
    method FlipAndLegalize(iNew: int, ie0: int, ie1: int, h: int, fuel: nat) returns (o: Outcome)
      requires Valid() && InUse(dcel.State(), h)
      requires FaceNode(dcel.State(), h).Some? && FaceNode(dcel.State(), Twin(dcel.State(), h)).Some?
      requires SwapIsConvexOf(dcel.State(), points, g, h) == Success(true)
      modifies dcel, pls
      decreases fuel, 1
      ensures Valid()
      ensures Legalized(o, dcel.State(), pls.nodes) ==
        FlipAndLegalizeOf(old(dcel.State()), old(pls.nodes), points, g, iNew, ie0, ie1, h, fuel)
    {
      var iOpposite := OppositeCorner(h);
      FlipChecked(h, iOpposite);
      o := LegalizeRest(iNew, ie0, iOpposite, ie1, fuel);
    }

    /** The end of legalizeEdge after a flip, with the fuel spent on it. */
    method LegalizeRest(iNew: int, ie0: int, iOpposite: int, ie1: int, fuel: nat) returns (o: Outcome)
      requires Valid()
      modifies dcel, pls
      decreases fuel, 0
      ensures Valid()
      ensures Legalized(o, dcel.State(), pls.nodes) ==
        LegalizeRestOf(old(dcel.State()), old(pls.nodes), points, g, iNew, ie0, iOpposite, ie1, fuel)
    {
      if fuel == 0 {
        return Fail(OutOfFuel);
      }
      ghost var m0, n0 := dcel.State(), pls.nodes;
      o := LegalizeTwo(iNew, ie0, iOpposite, ie1, fuel - 1);
      assert Legalized(o, dcel.State(), pls.nodes) == LegalizeTwoOf(m0, n0, points, g, iNew, ie0, iOpposite, ie1, fuel - 1);
    }

    /** The two recursive legalizeEdge calls at the end of legalizeEdge;
        the second is not reached when the first fails. */
    method LegalizeTwo(iNew: int, ie0: int, iOpposite: int, ie1: int, fuel: nat) returns (o: Outcome)
      requires Valid()
      modifies dcel, pls
      decreases fuel, 3
      ensures Valid()
      ensures Legalized(o, dcel.State(), pls.nodes) ==
        LegalizeTwoOf(old(dcel.State()), old(pls.nodes), points, g, iNew, ie0, iOpposite, ie1, fuel)
    {
      o := LegalizeEdge(iNew, ie0, iOpposite, fuel);
      if o.Fail? {
        return;
      }
      o := LegalizeEdge(iNew, iOpposite, ie1, fuel);
    }

    /** The corner across h from its own face: the origin of h.twin.prev,
        read before the flip. */
    method OppositeCorner(h: int) returns (iOpposite: int)
      requires Valid() && InUse(dcel.State(), h) && SwapIsConvexOf(dcel.State(), points, g, h) == Success(true)
      ensures iOpposite == QuadOf(dcel.State(), h).v3 != QuadOf(dcel.State(), h).v2
    {
      ghost var m := dcel.State();
      EdgeLaws(m, h);
      EdgeLaws(m, Twin(m, h));
      QuadOfIds(m, h);
      ConvexSeparatesApexes(m, points, g, h);
      iOpposite := dcel.edges[dcel.edges[dcel.edges[h].twin].prev].origin;
    }

    /** The flip inside legalizeEdge with the two checks that follow it:
        the face of hNew is a triangle, and hNew joins the corner of iNew to
        iOpposite, the corner across h. */
    method FlipChecked(h: int, iOpposite: int)
      requires Valid() && InUse(dcel.State(), h)
      requires FaceNode(dcel.State(), h).Some? && FaceNode(dcel.State(), Twin(dcel.State(), h)).Some?
      requires QuadOf(dcel.State(), h).v2 != iOpposite == QuadOf(dcel.State(), h).v3
      modifies dcel, pls
      ensures Valid() && dcel.State() == FlipEdgeMesh(old(dcel.State()), h, |old(pls.nodes)|)
      ensures pls.nodes == FlipHistory(old(dcel.State()), old(pls.nodes), h)
    {
      var hNew := FlipEdge(h);
      var n := hNew.value;
      ghost var s := dcel.State();
      assert EdgeOk(s, n) && s.edges == dcel.edges;
      var closed := Need(dcel.edges[dcel.edges[dcel.edges[n].next].next].next == n, AssertionFailed);
      assert closed == Pass;
      var opposite := Need(dcel.edges[n].origin == iOpposite || dcel.edges[dcel.edges[n].twin].origin == iOpposite, AssertionFailed);
      assert opposite == Pass;
    }

    /** DelaunayTriangulation.flipEdge(h): h is flipped; the triangles of
        the faces of hNew and hNew.twin become two new leaves, children of
        both old faces' nodes, and the data of those faces. When an old
        face has no node, the history update throws after the flip. The
        caller guarantees that the flip joins two different vertices. */
    method FlipEdge(h: int) returns (r: Result<int>)
      requires Valid() && InUse(dcel.State(), h)
      requires QuadOf(dcel.State(), h).v2 != QuadOf(dcel.State(), h).v3
      modifies dcel, pls
      ensures Valid() && HistoryGrows(old(pls.nodes), pls.nodes) && SameVertices(old(dcel.State()), dcel.State())
      ensures var m := old(dcel.State());
        r.Success? <==> FaceNode(m, h).Some? && FaceNode(m, Twin(m, h)).Some?
      ensures r.Failure? ==>
        r.error == NullPointer && dcel.State() == FlipSpec(old(dcel.State()), h) && pls.nodes == old(pls.nodes)
      ensures var m := old(dcel.State()); var n := |m.edges|; var q := QuadOf(m, h);
        r.Success? ==>
          r.value == n && n + 1 < |dcel.edges| && dcel.edges[n].inUse && dcel.edges[n].twin == n + 1 &&
          dcel.edges[n].origin == q.v2 && dcel.edges[n + 1].origin == q.v3
      ensures r.Success? ==> dcel.State() == FlipEdgeMesh(old(dcel.State()), h, |old(pls.nodes)|)
      ensures var m := old(dcel.State()); var q := QuadOf(m, h);
        r.Success? ==>
          pls.nodes == FlipLeavesSpec(old(pls.nodes), FaceNode(m, h).value, FaceNode(m, Twin(m, h)).value,
            CanonicalOf(q.v1, q.v2, q.v3), CanonicalOf(q.v0, q.v3, q.v2))
    {
      var node0 := dcel.faces[dcel.edges[h].face].data;
      var node1 := dcel.faces[dcel.edges[dcel.edges[h].twin].face].data;
      if node0.None? || node1.None? {
        var _, _, _, _, _ := FlipHalf(h);
        return Failure(NullPointer);
      }
      var hNew := FlipAndAttach(h, node0.value, node1.value);
      r := Success(hNew);
    }

    /** flipEdge when both faces of h have a node. */
    method FlipAndAttach(h: int, node0: nat, node1: nat) returns (hNew: int)
      requires Valid() && InUse(dcel.State(), h)
      requires QuadOf(dcel.State(), h).v2 != QuadOf(dcel.State(), h).v3
      requires FaceNode(dcel.State(), h) == Some(node0) && FaceNode(dcel.State(), Twin(dcel.State(), h)) == Some(node1)
      modifies dcel, pls
      ensures Valid() && HistoryGrows(old(pls.nodes), pls.nodes) && SameVertices(old(dcel.State()), dcel.State())
      ensures var m := old(dcel.State()); var n := |m.edges|; var q := QuadOf(m, h);
        hNew == n && n + 1 < |dcel.edges| && dcel.edges[n].inUse && dcel.edges[n].twin == n + 1 &&
        dcel.edges[n].origin == q.v2 && dcel.edges[n + 1].origin == q.v3
      ensures dcel.State() == FlipEdgeMesh(old(dcel.State()), h, |old(pls.nodes)|)
      ensures var q := QuadOf(old(dcel.State()), h);
        pls.nodes == FlipLeavesSpec(old(pls.nodes), node0, node1, CanonicalOf(q.v1, q.v2, q.v3), CanonicalOf(q.v0, q.v3, q.v2))
    {
      ghost var m, k := dcel.State(), |pls.nodes|;
      var f0, f1, tri0, tri1;
      hNew, f0, f1, tri0, tri1 := FlipHalf(h);
      ghost var s1 := dcel.State();
      AttachLeaves(node0, node1, f0, f1, tri0, tri1, s1, k);
      FlipEdgeMeshIs(m, h, k, s1, f0, f1, dcel.State());
    }

    /** The first half of flipEdge: h.flip(), the faces f0 of hNew and f1
        of hNew.twin, and their triangles. */
    method FlipHalf(h: int) returns (hNew: int, f0: int, f1: int, tri0: Tri, tri1: Tri)
      requires Valid() && InUse(dcel.State(), h)
      requires QuadOf(dcel.State(), h).v2 != QuadOf(dcel.State(), h).v3
      modifies dcel
      ensures Valid() && SameVertices(old(dcel.State()), dcel.State())
      ensures var m := old(dcel.State()); var q := QuadOf(m, h);
        dcel.State() == FlipSpec(m, h) && hNew == |m.edges| &&
        hNew + 1 < |dcel.edges| && dcel.edges[hNew].inUse && dcel.edges[hNew].twin == hNew + 1 &&
        dcel.edges[hNew].origin == q.v2 && dcel.edges[hNew + 1].origin == q.v3 &&
        f0 == |m.faces| + 1 && f1 == |m.faces| && 0 <= f0 < |dcel.faces| && 0 <= f1 < |dcel.faces| &&
        tri0 == CanonicalOf(q.v1, q.v2, q.v3) && tri1 == CanonicalOf(q.v0, q.v3, q.v2) &&
        CalcTriangleOf(dcel.State(), f0) == Success(tri0) && CalcTriangleOf(dcel.State(), f1) == Success(tri1)
    {
      ghost var m := dcel.State();
      FlipFacts(m, h, |pls.nodes|);
      hNew := dcel.Flip(h);
      f0 := dcel.edges[hNew].face;
      f1 := dcel.edges[dcel.edges[hNew].twin].face;
      var c0 := dcel.CalcTriangle(f0);
      var c1 := dcel.CalcTriangle(f1);
      tri0, tri1 := c0.value, c1.value;
    }

    /** The second half of flipEdge: pls.flipEdge(node0, node1, tri0, tri1)
        and the data of the two new faces f0 and f1, whose triangles tri0
        and tri1 are. */
    method AttachLeaves(node0: nat, node1: nat, f0: int, f1: int, tri0: Tri, tri1: Tri, ghost s: MeshState, ghost k: nat)
      requires Valid() && node0 < |pls.nodes| && node1 < |pls.nodes| && s == dcel.State() && k == |pls.nodes|
      requires 0 <= f0 < |dcel.faces| && 0 <= f1 < |dcel.faces| && f0 != f1
      requires CalcTriangleOf(dcel.State(), f0) == Success(tri0) && CalcTriangleOf(dcel.State(), f1) == Success(tri1)
      modifies dcel, pls
      ensures Valid() && HistoryGrows(old(pls.nodes), pls.nodes) && dcel.edges == old(dcel.edges)
      ensures dcel.State() == SetFaceData(SetFaceData(s, f0, Some(k)), f1, Some(k + 1))
      ensures pls.nodes == FlipLeavesSpec(old(pls.nodes), node0, node1, tri0, tri1)
    {
      ghost var m1 := dcel.State();
      CalcTriangleIds(m1, f0);
      CalcTriangleIds(m1, f1);
      var children := pls.FlipEdge(node0, node1, tri0, tri1);
      dcel.SetData(f0, Some(children[0]));
      ghost var m2 := dcel.State();
      dcel.SetData(f1, Some(children[1]));
      SetDataKeeps(m1, f0, Some(k), k, k + 2);
      SetDataKeeps(m2, f1, Some(k + 1), k + 2, k + 2);
      FlipLeavesGrow(old(pls.nodes), node0, node1, tri0, tri1);
    }
  }
}
