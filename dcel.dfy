/** Dcel.java's object graph as a class whose fields are the arenas of a
    MeshState: each method makes the field writes of its Java counterpart,
    in the same order, and is proved to end in the state the functions of
    Links, Steps and Surgery give. */
module DcelMesh {
  import opened Wrappers
  import opened Points
  import opened Triangles
  import opened Mesh
  import opened Links
  import opened Surgery
  import opened Steps
  import opened Fans
  import Util

  /** The mesh the constructor builds for n points: the top triangle
      -2, iLargest, -1 on face 1 (edges 0, 2, 4) and the outer face 0
      (edges 5, 3, 1), with h_2L = 0, hL_2 = 1, hL_1 = 2, h_1L = 3,
      h_1_2 = 4 and h_2_1 = 5. */
  function InitState(n: nat, iLargest: int): (r: MeshState)
    requires 0 <= iLargest < n
    ensures |r.vertices| == n && |r.edges| == 6 && |r.faces| == 2
  {
    MeshState(TopFaced(iLargest), [Face(5, None), Face(0, None)],
      seq(n, _ => None)[iLargest := Some(2)], 0, 4)
  }

  /** The six half-edges of the constructor once linked, before their faces. */
  function TopWired(l: int): seq<HalfEdge> {
    [HalfEdge(1, 2, 4, -2, Null, true), HalfEdge(0, 5, 3, l, Null, true),
     HalfEdge(3, 4, 0, l, Null, true), HalfEdge(2, 1, 5, -1, Null, true),
     HalfEdge(5, 0, 2, -1, Null, true), HalfEdge(4, 3, 1, -2, Null, true)]
  }

  /** The six half-edges of the constructor with their faces. */
  function TopFaced(l: int): seq<HalfEdge> {
    [HalfEdge(1, 2, 4, -2, 1, true), HalfEdge(0, 5, 3, l, 0, true),
     HalfEdge(3, 4, 0, l, 1, true), HalfEdge(2, 1, 5, -1, 0, true),
     HalfEdge(5, 0, 2, -1, 1, true), HalfEdge(4, 3, 1, -2, 0, true)]
  }

  /** The initial mesh is valid, and iLargest is its only point vertex. */
  lemma InitValid(n: nat, iLargest: int)
    requires 0 <= iLargest < n <= Util.IntMax
    ensures MeshValid(InitState(n, iLargest))
    ensures forall i :: 0 <= i < n ==> (IsVertex(InitState(n, iLargest), i) <==> i == iLargest)
  {
    var m := InitState(n, iLargest);
    forall h | 0 <= h < 6
      ensures Linked(m, h)
    {
    }
    forall h | 0 <= h < 6
      ensures EdgeOk(m, h)
    {
    }
  }

  /** Its two faces: the top triangle {-2, iLargest, -1} on face 1, which
      getHalfEdge(-2, iLargest) reaches, and the outer face 0. */
  lemma InitFaces(n: nat, iLargest: int)
    requires 0 <= iLargest < n <= Util.IntMax
    ensures var m := InitState(n, iLargest);
      MeshValid(m) &&
      CalcTriangleOf(m, 1) == Success(Canonical([-2, iLargest, -1])) &&
      CalcTriangleOf(m, 0) == Success(Canonical([-2, -1, iLargest])) &&
      FindHalfEdge(m, -2, iLargest) == Success(Some(0)) && m.edges[0].face == 1
  {
    InitValid(n, iLargest);
    var m := InitState(n, iLargest);
    assert Orbit(m, true, 0, 0) == 0;
  }

  /** The edge getHalfEdge(i0, i1) returns, when it returns one. */
  function LocatedEdge(m: MeshState, i0: int, i1: int): (r: Option<int>)
    requires MeshValid(m)
    ensures r.Some? ==> InUse(m, r.value) && Origin(m, r.value) == i0 && Origin(m, Twin(m, r.value)) == i1
    ensures r.Some? <==> FindHalfEdge(m, i0, i1).Success? && FindHalfEdge(m, i0, i1).value.Some?
  {
    FindHalfEdgeMeaning(m, i0, i1);
    var found := FindHalfEdge(m, i0, i1);
    if found.Success? then found.value else None
  }

  /** The error of a method whose getHalfEdge(i0, i1) found no edge: the
      lookup's own, or a NullPointerException on the null it returned. */
  function LookupError(m: MeshState, i0: int, i1: int): Error
    requires MeshValid(m)
  {
    var found := FindHalfEdge(m, i0, i1);
    if found.Failure? then found.error else NullPointer
  }

  /** The writes of splitTriangle before its faces: `new Vertex(p)`, six
      `new HalfEdge()`, the wiring and the edge of p leave the relinked old
      records, the six new ones from n on, and p's edge h30 = n + 1. */
  lemma SplitTriangleWrites(m: MeshState, h01: int, h12: int, h20: int, v0: int, v1: int, v2: int, p: int, n: int, n1: int)
    requires 0 <= h01 < |m.edges| && 0 <= h12 < |m.edges| && 0 <= h20 < |m.edges| && 0 <= p < |m.vertices|
    requires n == |m.edges| && n1 == n + 1
    ensures var s := Origins6Of(SplitCycles(TwinPairs3(AddEdges6(AddVertex(m, p)), n), h01, h12, h20, n), n, v0, p, v1, p, v2, p);
      var w := SetVertexEdgeOf(s, p, n1);
      w.edges == Relinked(m.edges, h01, h12, h20, n) + SplitTriangleNew(h01, h12, h20, v0, v1, v2, p, n) &&
      w.faces == m.faces && w.vertices == m.vertices[p := Some(n1)] &&
      w.upperLeftEdge == m.upperLeftEdge && w.rightEdge == m.rightEdge
  {
    SplitTriangleLinksForm(m, h01, h12, h20, v0, v1, v2, p);
    assert m.vertices[p := Some(Null)][p := Some(n1)] == m.vertices[p := Some(n1)];
  }

  /** The vertex writes of splitTriangles after its wiring leave four
      3-cycles for its linkEdgesAndFace calls, and those calls with the two
      retirements end in SplitTrianglesRetired. */
  lemma SplitTrianglesWrites(m: MeshState, h01: int, i4: int, x: MeshState, v0: int, v1: int, h10: int, n: int)
    requires SplitReady(m, h01, i4) && x == SplitTrianglesWired(m, h01, i4)
    requires v0 == Origin(m, h01) && h10 == Twin(m, h01) && v1 == Origin(m, h10) && n == |m.edges|
    ensures IsVertex(x, v0) && IsVertex(x, v1) && 0 <= i4 < |x.vertices|
    ensures var w := SetVertexEdgeOf(Repair2(x, v0, h01, n, v1, h10, n + 2), i4, n + 1);
      FaceCycles4(w, n) && SplitTrianglesFinish(w, h01, h10, n) == SplitTrianglesRetired(m, h01, i4)
  {
    SplitTrianglesCycles(m, h01, i4, x, v0, v1, h10, n);
    SplitTrianglesFinishRetired(m, h01, i4, x, SetVertexEdgeOf(Repair2(x, v0, h01, n, v1, h10, n + 2), i4, n + 1));
  }

  class Dcel {
    const points: seq<Point>
    const iLargest: int
    /** The half-edge objects, in creation order (Dcel.edges). */
    var edges: seq<HalfEdge>
    /** The face objects, in creation order. */
    var faces: seq<Face>
    /** Dcel.vertices: the `edge` of each point's vertex, None for null. */
    var vertices: seq<Option<int>>
    /** v_2.edge */
    var upperLeftEdge: int
    /** v_1.edge */
    var rightEdge: int

    function State(): MeshState
      reads this
    {
      MeshState(edges, faces, vertices, upperLeftEdge, rightEdge)
    }

    ghost predicate Valid()
      reads this
    {
      MeshValid(State()) && |vertices| == |points|
    }

    /** `new HalfEdge()`: the record joins `edges`, and its index is its
        position there. */
    method NewHalfEdge() returns (h: int)
      modifies this
      ensures h == |old(edges)| && State() == AddEdge(old(State()))
    {
      h := |edges|;
      edges := edges + [FreshEdge];
    }

    /** `new Face()`. */
    method NewFace() returns (f: int)
      modifies this
      ensures f == |old(faces)| && State() == AddFace(old(State()))
    {
      f := |faces|;
      faces := faces + [Face(Null, None)];
    }

    /** `new Vertex(i)` for a point id: stored in vertices[i], edge null. */
    method NewVertex(i: int)
      requires 0 <= i < |vertices|
      modifies this
      ensures State() == AddVertex(old(State()), i)
    {
      vertices := vertices[i := Some(Null)];
    }

    /** Dcel.linkTwins. */
    method LinkTwins(h0: int, h1: int)
      requires 0 <= h0 < |edges| && 0 <= h1 < |edges|
      modifies this
      ensures State() == LinkTwinsOf(old(State()), h0, h1)
    {
      edges := edges[h0 := edges[h0].(twin := h1)];
      edges := edges[h1 := edges[h1].(twin := h0)];
    }

    /** Dcel.linkPrevNext. */
    method LinkPrevNext(h0: int, h1: int)
      requires 0 <= h0 < |edges| && 0 <= h1 < |edges|
      modifies this
      ensures State() == LinkPrevNextOf(old(State()), h0, h1)
    {
      edges := edges[h0 := edges[h0].(next := h1)];
      edges := edges[h1 := edges[h1].(prev := h0)];
    }

    /** Dcel.linkPrevNextTriangle. */
    method LinkPrevNextTriangle(h0: int, h1: int, h2: int)
      requires 0 <= h0 < |edges| && 0 <= h1 < |edges| && 0 <= h2 < |edges|
      modifies this
      ensures State() == LinkPrevNextTriangleOf(old(State()), h0, h1, h2)
    {
      LinkPrevNext(h0, h1);
      LinkPrevNext(h1, h2);
      LinkPrevNext(h2, h0);
    }

    /** `h.origin = v`. */
    method SetEdgeOrigin(h: int, v: int)
      requires 0 <= h < |edges|
      modifies this
      ensures State() == SetOrigin(old(State()), h, v)
    {
      edges := edges[h := edges[h].(origin := v)];
    }

    /** `v.edge = h`, for a sentinel or a point id. */
    method SetVertexEdge(v: int, h: int)
      requires v == -2 || v == -1 || 0 <= v < |vertices|
      modifies this
      ensures State() == SetVertexEdgeOf(old(State()), v, h)
    {
      if v == -2 {
        upperLeftEdge := h;
      } else if v == -1 {
        rightEdge := h;
      } else {
        vertices := vertices[v := Some(h)];
      }
    }

    /** Vertex.repair(h0, h1) on the vertex v. */
    method RepairVertexEdge(v: int, h0: int, h1: int)
      requires IsVertex(State(), v)
      modifies this
      ensures State() == Repair(old(State()), v, h0, h1)
    {
      if VertexEdge(State(), v) == h0 {
        SetVertexEdge(v, h1);
      }
    }

    /** `h.inUse = false`. */
    method RetireEdge(h: int)
      requires 0 <= h < |edges|
      modifies this
      ensures State() == Retire(old(State()), h)
    {
      edges := edges[h := edges[h].(inUse := false)];
    }

    /** `f.data = node`. */
    method SetData(f: int, node: Option<nat>)
      requires 0 <= f < |faces|
      modifies this
      ensures State() == SetFaceData(old(State()), f, node)
    {
      faces := faces[f := faces[f].(data := node)];
    }

    /** Dcel.linkEdgesAndFace(h, f): the do-while loop along `next` from h
        back to h, then `f.edge = h`. It terminates when the cycle of h
        closes inside the arena; `period` is the length of that cycle. */
    method LinkEdgesAndFace(h: int, f: int, ghost period: nat)
      requires 0 <= f < |faces| && Cycle(State(), h, period)
      modifies this
      ensures State() == LinkEdgesAndFaceOf(old(State()), h, f, period)
    {
      ghost var m0 := State();
      assert Walk(m0, h, 0) == h;
      var g := h;
      edges := edges[g := edges[g].(face := f)];
      g := edges[g].next;
      ghost var k: nat := 1;
      while g != h
        invariant 1 <= k <= period
        invariant g == Walk(m0, h, k)
        invariant State() == SetFaces(m0, h, f, k)
        decreases period - k
      {
        assert k < period;
        SetFacesKeeps(m0, h, f, k, g);
        edges := edges[g := edges[g].(face := f)];
        g := edges[g].next;
        k := k + 1;
      }
      faces := faces[f := faces[f].(edge := h)];
    }

    /** The Dcel constructor: the top triangle -2, iLargest, -1 and the
        outer face, built in the order of Dcel.java. */
    constructor(points: seq<Point>, iLargest: int)
      requires 0 <= iLargest < |points| <= Util.IntMax
      ensures this.points == points && this.iLargest == iLargest
      ensures State() == InitState(|points|, iLargest) && Valid()
    {
      this.points := points;
      this.iLargest := iLargest;
      vertices := seq(|points|, _ => None);
      edges := [];
      faces := [];
      upperLeftEdge := Null;
      rightEdge := Null;
      new;
      NewVertex(iLargest);
      var h_2L := NewHalfEdge();
      var hL_2 := NewHalfEdge();
      var hL_1 := NewHalfEdge();
      var h_1L := NewHalfEdge();
      var h_1_2 := NewHalfEdge();
      var h_2_1 := NewHalfEdge();
      WireTop();
      var f_2_1L := NewFace();
      var f_2L_1 := NewFace();
      FaceTop();
      InitValid(|points|, iLargest);
    }

    /** The links, origins and vertex edges of the constructor, on its six
        fresh half-edges. */
    method WireTop()
      requires edges == Fresh6 && 0 <= iLargest < |vertices|
      modifies this
      ensures edges == TopWired(iLargest) && faces == old(faces)
      ensures vertices == old(vertices)[iLargest := Some(2)] && upperLeftEdge == 0 && rightEdge == 4
    {
      LinkTwins(0, 1);
      LinkTwins(2, 3);
      LinkTwins(4, 5);
      LinkPrevNextTriangle(0, 2, 4);
      LinkPrevNextTriangle(5, 3, 1);
      assert edges == [HalfEdge(1, 2, 4, NullVertex, Null, true), HalfEdge(0, 5, 3, NullVertex, Null, true),
        HalfEdge(3, 4, 0, NullVertex, Null, true), HalfEdge(2, 1, 5, NullVertex, Null, true),
        HalfEdge(5, 0, 2, NullVertex, Null, true), HalfEdge(4, 3, 1, NullVertex, Null, true)];
      SetVertexEdge(-2, 0);
      SetEdgeOrigin(0, -2);
      SetEdgeOrigin(1, iLargest);
      SetVertexEdge(iLargest, 2);
      SetEdgeOrigin(2, iLargest);
      SetEdgeOrigin(3, -1);
      SetVertexEdge(-1, 4);
      SetEdgeOrigin(4, -1);
      SetEdgeOrigin(5, -2);
    }

    /** The two linkEdgesAndFace of the constructor, on its two fresh faces. */
    method FaceTop()
      requires edges == TopWired(iLargest) && faces == [Face(Null, None), Face(Null, None)]
      modifies this
      ensures edges == TopFaced(iLargest) && faces == [Face(5, None), Face(0, None)]
      ensures vertices == old(vertices) && upperLeftEdge == old(upperLeftEdge) && rightEdge == old(rightEdge)
    {
      ghost var s := State();
      assert Walk(s, 5, 1) == 3 && Walk(s, 5, 2) == 1 && Walk(s, 5, 3) == 5;
      LinkEdgesAndFace(5, 0, 3);
      LinkEdgesAndFaceTriangle(s, 5, 0);
      ghost var s1 := State();
      assert s1.edges[0].next == 2 && s1.edges[2].next == 4 && s1.edges[4].next == 0;
      assert Walk(s1, 0, 1) == 2 && Walk(s1, 0, 2) == 4 && Walk(s1, 0, 3) == 0;
      LinkEdgesAndFace(0, 1, 3);
      LinkEdgesAndFaceTriangle(s1, 0, 1);
    }

    /** Dcel.getHalfEdge(i0, i1): from v0.edge, the loop steps with
        h.twin.next until an edge ends at i1, or returns None (null) when
        it is back at v0.edge. */
    method GetHalfEdge(i0: int, i1: int) returns (r: Result<Option<int>>)
      requires Valid()
      ensures r == FindHalfEdge(State(), i0, i1)
    {
      ghost var m := State();
      var v0 := GetVertex(State(), i0);
      if v0.Failure? {
        return Failure(v0.error);
      }
      if v0.value.None? {
        return Failure(NullPointer);
      }
      var h0 := VertexEdge(State(), i0);
      OrbitReturns(m, true, h0);
      ghost var p :| 1 <= p <= |m.edges| && Orbit(m, true, h0, p) == h0;
      var h := h0;
      ghost var k: nat := 0;
      while edges[edges[h].twin].origin != i1
        invariant k < p && h == Orbit(m, true, h0, k)
        invariant forall j :: 1 <= j <= k ==> Orbit(m, true, h0, j) != h0
        invariant FanSearch(m, h0, 0, i1, |m.edges|) == FanSearch(m, h0, k, i1, |m.edges| - k)
        decreases p - k
      {
        assert Linked(m, h);
        StepLaws(m, h, h);
        h := edges[edges[h].twin].next;
        k := k + 1;
        if h == h0 {
          return Success(None);
        }
      }
      return Success(Some(h));
    }

    /** Vertex.edgeIterator for the vertex v, run to its end: the edges it
        yields, edge.prev.twin at each step, the last one being v.edge. */
    method EdgeIterator(v: int) returns (es: seq<int>)
      requires Valid() && IsVertex(State(), v)
      ensures es == Around(State(), VertexEdge(State(), v))
    {
      ghost var m := State();
      var edge0 := VertexEdge(State(), v);
      AroundMeaning(m, edge0);
      ghost var all := Around(m, edge0);
      var edge := edge0;
      var hasNext := true;
      es := [];
      while hasNext
        invariant edge == Orbit(m, false, edge0, |es|)
        invariant hasNext ==> |es| < |all| && es == all[..|es|]
        invariant !hasNext ==> es == all
        decreases |all| - |es| + (if hasNext then 1 else 0)
      {
        StepLaws(m, edge, edge);
        edge := edges[edges[edge].prev].twin;
        assert edge == Orbit(m, false, edge0, |es| + 1) == all[|es|];
        hasNext := edge != edge0;
        es := es + [edge];
      }
    }

    /** Face.calcTriangle for face f: the origins of three steps along
        `next` from f.edge, an AssertionError unless the third step is back
        at f.edge, and otherwise the triangle in canonical rotation. */
    method CalcTriangle(f: int) returns (r: Result<Tri>)
      requires Valid() && 0 <= f < |faces|
      ensures r == CalcTriangleOf(State(), f)
    {
      ghost var m := State();
      var e := faces[f].edge;
      var tri := new int[3];
      var h := e;
      for i := 0 to 3
        invariant 0 <= h < |edges| && h == Walk(m, e, i)
        invariant forall j :: 0 <= j < i ==> 0 <= Walk(m, e, j) < |m.edges| && tri[j] == Origin(m, Walk(m, e, j)) && tri[j] < Util.IntMax
      {
        assert Linked(m, h);
        tri[i] := edges[h].origin;
        h := edges[h].next;
      }
      assert Walk(m, e, 3) == Next(m, Next(m, Next(m, e)));
      if h != e {
        return Failure(AssertionFailed);
      }
      assert tri[..] == CycleIds(m, e);
      var c := ToCanonical(tri);
      return Success(c[..]);
    }

    /** Face.compareTo: triangleComparator on the two calcTriangle results;
        0 exactly when the two faces have the same triangle. */
    method CompareFaces(f0: int, f1: int) returns (r: Result<int>)
      requires Valid() && 0 <= f0 < |faces| && 0 <= f1 < |faces|
      ensures var t0, t1 := CalcTriangleOf(State(), f0), CalcTriangleOf(State(), f1);
        if t0.Failure? then r == Failure(t0.error)
        else if t1.Failure? then r == Failure(t1.error)
        else r.Success? && r.value == Lex(t0.value, t1.value) && (r.value == 0 <==> t0.value == t1.value)
    {
      var tri0 :- CalcTriangle(f0);
      var tri1 :- CalcTriangle(f1);
      var rv := TriangleCompare(tri0, tri1);
      return Success(rv);
    }

    /** Face.hashCode: Triangle.hashCode of calcTriangle, so faces that
        compare equal hash equally. */
    method FaceHashCode(f: int) returns (r: Result<bv32>)
      requires Valid() && 0 <= f < |faces|
      ensures var t := CalcTriangleOf(State(), f);
        if t.Failure? then r == Failure(t.error)
        else IsJavaInt(t.value[0]) && IsJavaInt(t.value[1]) && IsJavaInt(t.value[2]) && r == Success(HashCode(t.value))
    {
      var tri :- CalcTriangle(f);
      return Success(HashCode(tri));
    }

    /** Dcel.checkEdges: myAssert that the twin, next and prev of every
        in-use edge are in use. */
    method CheckEdges() returns (o: Outcome)
      requires AllLinked(State())
      ensures o == Need(ChecksPass(State()), AssertionFailed)
    {
      ghost var m := State();
      var es := edges;
      for i := 0 to |es|
        invariant forall h :: 0 <= h < i ==> CheckedAt(m, h)
      {
        assert Linked(m, i);
        var h := es[i];
        if h.inUse && !(es[h.twin].inUse && es[h.next].inUse && es[h.prev].inUse) {
          assert !CheckedAt(m, i);
          return Fail(AssertionFailed);
        }
      }
      return Pass;
    }

    /** Dcel.getFaces: the faces met by the edge iterator of every point
        vertex, gathered in a TreeSet ordered by Face.compareTo. */
    method GetFaces() returns (r: set<Tri>)
      requires Valid()
      ensures r == FacesOf(State())
    {
      ghost var m := State();
      r := {};
      for v := 0 to |vertices|
        invariant r == FacesBelow(m, v)
      {
        if vertices[v].None? {
          assert FacesBelow(m, v + 1) == FacesBelow(m, v);
          continue;
        }
        var es := EdgeIterator(v);
        assert FacesBelow(m, v + 1) == FacesBelow(m, v) + FanFaces(m, es);
        r := AddFaces(r, es);
      }
    }

    /** The inner loop of getFaces: `faces.add(h.face)` for each edge h the
        iterator yields. */
    method AddFaces(r0: set<Tri>, es: seq<int>) returns (r: set<Tri>)
      requires Valid() && forall h :: h in es ==> InUse(State(), h)
      ensures r == r0 + FanFaces(State(), es)
    {
      ghost var m := State();
      r := r0;
      for j := 0 to |es|
        invariant r == r0 + FanFaces(m, es[..j])
      {
        FanFacesStep(m, es, j);
        var t := CalcTriangle(edges[es[j]].face);
        LiveFace(m, es[j]);
        r := r + {t.value};
      }
      assert es[..|es|] == es;
    }

    /** Dcel.splitTriangle(tri, p): the edge tri[0], tri[1] is looked up
        first; then the new vertex p, six half-edges h03, h30, h13, h31,
        h23, h32 (n to n+5) and three faces, and h30 is returned. */
    method SplitTriangle(tri: Tri, p: int) returns (r: Result<int>)
      requires Valid() && 0 <= p < |vertices| && vertices[p].None?
      modifies this
      ensures var m := old(State()); var h := LocatedEdge(m, tri[0], tri[1]);
        if h.None? then r == Failure(LookupError(m, tri[0], tri[1])) && State() == m
        else r == Success(|m.edges| + 1) && State() == SplitTriangleSpec(m, h.value, p)
      ensures Valid()
    {
      var found := GetHalfEdge(tri[0], tri[1]);
      if found.Failure? {
        return Failure(found.error);
      }
      if found.value.None? {
        return Failure(NullPointer);
      }
      var h01 := found.value.value;
      ghost var m := State();
      assert LocatedEdge(m, tri[0], tri[1]) == Some(h01);
      SplitTriangleValid(m, h01, p);
      ValidTriangleAt(m, h01);
      var h30 := SplitTriangleAt(h01, p);
      assert State() == SplitTriangleSpec(m, h01, p);
      return Success(h30);
    }

    /** The writes of splitTriangle once h01 is found. */
    method SplitTriangleAt(h01: int, p: int) returns (h30: int)
      requires TriangleAt(State(), h01) && 0 <= p < |vertices|
      modifies this
      ensures var m := old(State()); var h12 := Next(m, h01); var h20 := Next(m, h12);
        h30 == |m.edges| + 1 &&
        State() == MeshState(SplitTriangleEdgesOf(m.edges, |m.faces|, h01, h12, h20, Origin(m, h01), Origin(m, h12), Origin(m, h20), p),
          m.faces + [Face(h01, None), Face(h12, None), Face(h20, None)],
          m.vertices[p := Some(h30)], m.upperLeftEdge, m.rightEdge)
    {
      ghost var m := State();
      var h12 := edges[h01].next;
      var h20 := edges[h12].next;
      var v0, v1, v2 := edges[h01].origin, edges[h12].origin, edges[h20].origin;
      h30 := AddSplitTriangle(h01, h12, h20, v0, v1, v2, p);
      FaceSplitTriangle(h01, h12, h20, m.edges, v0, v1, v2, p);
    }

    /** splitTriangle up to its faces: `new Vertex(i3)`, the six new
        half-edges, their wiring and the edge h30 of the new vertex. */
    method AddSplitTriangle(h01: int, h12: int, h20: int, v0: int, v1: int, v2: int, p: int) returns (h30: int)
      requires 0 <= h01 < |edges| && 0 <= h12 < |edges| && 0 <= h20 < |edges| && 0 <= p < |vertices|
      modifies this
      ensures h30 == |old(edges)| + 1
      ensures edges == Relinked(old(edges), h01, h12, h20, |old(edges)|) +
        SplitTriangleNew(h01, h12, h20, v0, v1, v2, p, |old(edges)|)
      ensures faces == old(faces) && vertices == old(vertices)[p := Some(h30)]
      ensures upperLeftEdge == old(upperLeftEdge) && rightEdge == old(rightEdge)
    {
      ghost var m := State();
      NewVertex(p);
      var h03 := NewHalfEdge();
      h30 := NewHalfEdge();
      var h13 := NewHalfEdge();
      var h31 := NewHalfEdge();
      var h23 := NewHalfEdge();
      var h32 := NewHalfEdge();
      assert State() == AddEdges6(AddVertex(m, p));
      WireSplitTriangle(h01, h12, h20, v0, v1, v2, p, h03);
      SetVertexEdge(p, h30);
      SplitTriangleWrites(m, h01, h12, h20, v0, v1, v2, p, h03, h30);
    }

    /** The three `new Face()` and linkEdgesAndFace of splitTriangle. */
    method FaceSplitTriangle(h01: int, h12: int, h20: int, ghost e: seq<HalfEdge>, ghost v0: int, ghost v1: int,
                             ghost v2: int, ghost p: int)
      requires 0 <= h01 < |e| && 0 <= h12 < |e| && 0 <= h20 < |e| && h01 != h12 && h12 != h20 && h20 != h01
      requires edges == Relinked(e, h01, h12, h20, |e|) + SplitTriangleNew(h01, h12, h20, v0, v1, v2, p, |e|)
      modifies this
      ensures State() == old(State()).(edges := SplitTriangleEdgesOf(e, |old(faces)|, h01, h12, h20, v0, v1, v2, p),
        faces := old(faces) + [Face(h01, None), Face(h12, None), Face(h20, None)])
    {
      SplitTriangleSteps(State(), e, h01, h12, h20, v0, v1, v2, p);
      var f013 := NewFace();
      LinkEdgesAndFace(h01, f013, 3);
      var f123 := NewFace();
      LinkEdgesAndFace(h12, f123, 3);
      var f203 := NewFace();
      LinkEdgesAndFace(h20, f203, 3);
    }

    /** The three linkTwins, three linkPrevNextTriangle and six origin
        writes of splitTriangle, on the six fresh half-edges from n on. */
    method WireSplitTriangle(h01: int, h12: int, h20: int, v0: int, v1: int, v2: int, p: int, n: int)
      requires 0 <= h01 < n && 0 <= h12 < n && 0 <= h20 < n && n + 6 == |edges|
      modifies this
      ensures State() == Origins6Of(SplitCycles(TwinPairs3(old(State()), n), h01, h12, h20, n), n, v0, p, v1, p, v2, p)
    {
      LinkTwinPairs3(n);
      LinkSplitCycles(h01, h12, h20, n);
      SetOrigins6(n, v0, p, v1, p, v2, p);
    }

    /** The three linkPrevNextTriangle of splitTriangle. */
    method LinkSplitCycles(h01: int, h12: int, h20: int, n: int)
      requires 0 <= h01 < |edges| && 0 <= h12 < |edges| && 0 <= h20 < |edges|
      requires 0 <= n && n + 6 <= |edges|
      modifies this
      ensures State() == SplitCycles(old(State()), h01, h12, h20, n)
    {
      LinkPrevNextTriangle(h01, n + 2, n + 1);
      LinkPrevNextTriangle(h12, n + 4, n + 3);
      LinkPrevNextTriangle(h20, n, n + 5);
    }

    /** linkTwins of the pairs n, n + 1; n + 2, n + 3 and n + 4, n + 5. */
    method LinkTwinPairs3(n: int)
      requires 0 <= n && n + 6 <= |edges|
      modifies this
      ensures State() == TwinPairs3(old(State()), n)
    {
      LinkTwins(n, n + 1);
      LinkTwins(n + 2, n + 3);
      LinkTwins(n + 4, n + 5);
    }

    /** The origins of the six half-edges from n on. */
    method SetOrigins6(n: int, o0: int, o1: int, o2: int, o3: int, o4: int, o5: int)
      requires 0 <= n && n + 6 <= |edges|
      modifies this
      ensures State() == Origins6Of(old(State()), n, o0, o1, o2, o3, o4, o5)
    {
      edges := edges[n := edges[n].(origin := o0)];
      edges := edges[n + 1 := edges[n + 1].(origin := o1)];
      edges := edges[n + 2 := edges[n + 2].(origin := o2)];
      edges := edges[n + 3 := edges[n + 3].(origin := o3)];
      edges := edges[n + 4 := edges[n + 4].(origin := o4)];
      edges := edges[n + 5 := edges[n + 5].(origin := o5)];
    }

    /** HalfEdge.flip of h01, whose triangles are v0, v1, v2 and v1, v0, v3:
        the new pair h23 = n, h32 = n+1 and two new faces replace h01 and
        h10; h23 is returned. The mesh stays valid when v2 and v3 differ. */
    method Flip(h01: int) returns (h23: int)
      requires Valid() && InUse(State(), h01)
      modifies this
      ensures h23 == |old(edges)| && State() == FlipSpec(old(State()), h01)
      ensures var m := old(State());
        Origin(m, Next(m, Next(m, h01))) != Origin(m, Next(m, Next(m, Twin(m, h01)))) ==> Valid()
    {
      ghost var m := State();
      ValidQuadAt(m, h01);
      assert Linked(m, h01) && Linked(m, Twin(m, h01));
      if Origin(m, Next(m, Next(m, h01))) != Origin(m, Next(m, Next(m, Twin(m, h01)))) {
        FlipValid(m, h01);
      }
      h23 := FlipAt(h01);
      FlipSpecForm(m, h01);
    }

    /** The writes of flip, in the order of Dcel.java. */
    method FlipAt(h01: int) returns (h23: int)
      requires FlipReady(State(), h01)
      modifies this
      ensures h23 == |old(edges)| && State() == FlipFinal(old(State()), h01)
    {
      ghost var m := State();
      var h10 := edges[h01].twin;
      var h12 := edges[h01].next;
      var h03 := edges[h10].next;
      h23 := FlipWire(h01);
      FlipFinishWired(m, h01);
      FaceFlip(h01, h10, h12, h03);
    }

    /** The new pair, its links and origins and the two vertex repairs of
        flip. */
    method FlipWire(h01: int) returns (h23: int)
      requires FlipReady(State(), h01)
      modifies this
      ensures h23 == |old(edges)| && State() == FlipWired(old(State()), h01)
    {
      ghost var m := State();
      var h12 := edges[h01].next;
      var h20 := edges[h12].next;
      var h10 := edges[h01].twin;
      var h03 := edges[h10].next;
      var h31 := edges[h03].next;
      var v0, v1, v2, v3 := edges[h01].origin, edges[h10].origin, edges[h20].origin, edges[h31].origin;
      h23 := NewHalfEdge();
      var h32 := NewHalfEdge();
      WireFlip(h23, h12, h20, h03, h31, v2, v3);
      RepairVertex(State(), v0, h01, h03, v1);
      RepairVertexEdge(v0, h01, h03);
      RepairVertexEdge(v1, h10, h12);
      FlipWiringForm(m, h01);
    }

    /** The two new faces, their linkEdgesAndFace and the retirement of
        h01 and h10. */
    method FaceFlip(h01: int, h10: int, h12: int, h03: int)
      requires 0 <= h01 < |edges| && 0 <= h10 < |edges|
      requires var s := AddFace(AddFace(State()));
        Cycle(s, h03, 3) && Cycle(LinkEdgesAndFaceOf(s, h03, |faces|, 3), h12, 3)
      modifies this
      ensures State() == FlipFinish(old(State()), h01, h10, h12, h03)
    {
      var f032 := NewFace();
      var f123 := NewFace();
      LinkEdgesAndFace(h03, f032, 3);
      LinkEdgesAndFace(h12, f123, 3);
      RetireEdge(h01);
      RetireEdge(h10);
    }

    /** The linkTwins, two linkPrevNextTriangle and two origin writes of
        flip, on the two fresh half-edges n, n+1 at the end. */
    method WireFlip(n: int, h12: int, h20: int, h03: int, h31: int, v2: int, v3: int)
      requires 0 <= n && n + 2 == |edges|
      requires 0 <= h12 < |edges| && 0 <= h20 < |edges| && 0 <= h03 < |edges| && 0 <= h31 < |edges|
      modifies this
      ensures State() == FlipLinksOf(old(State()), n, h12, h20, h03, h31, v2, v3)
    {
      LinkTwins(n, n + 1);
      LinkPrevNextTriangle(h03, n + 1, h20);
      LinkPrevNextTriangle(h12, n, h31);
      SetEdgeOrigin(n, v2);
      SetEdgeOrigin(n + 1, v3);
    }

    /** Dcel.splitTriangles(tri0, tri1, i4), corrected, with the new point
        i4 on the shared edge i0, i1: the edge is looked up first; then the
        vertex i4, eight half-edges h04, h40, h14, h41, h24, h42, h34, h43
        (n to n+7), four faces, and h04 is returned. Unlike Dcel.java, the
        eight half-edges are also linked next/prev into the four new
        triangles before their faces are set, and the corners are taken
        from the half-edges' origins rather than from vertices[i0..i3];
        AsWritten.SplitTrianglesAsWrittenFails and
        AsWritten.ReadCornersFailsAtSentinel show the code as written. */
    method SplitTriangles(tri0: Tri, tri1: Tri, i4: int) returns (r: Result<int>)
      requires Valid() && 0 <= i4 < |vertices| && vertices[i4].None?
      modifies this
      ensures var m := old(State()); var c := SplitCorners(tri0, tri1);
        if c.Failure? then r == Failure(c.error) && State() == m
        else
          var h := LocatedEdge(m, c.value.i0, c.value.i1);
          if h.None? then r == Failure(LookupError(m, c.value.i0, c.value.i1)) && State() == m
          else r == Success(|m.edges|) && State() == SplitTrianglesSpec(m, h.value, i4)
      ensures Valid()
    {
      var corners := FindCorners(tri0, tri1);
      if corners.Failure? {
        return Failure(corners.error);
      }
      var i0, i1 := corners.value.i0, corners.value.i1;
      var found := GetHalfEdge(i0, i1);
      if found.Failure? {
        return Failure(found.error);
      }
      if found.value.None? {
        return Failure(NullPointer);
      }
      var h01 := found.value.value;
      ghost var m := State();
      assert LocatedEdge(m, i0, i1) == Some(h01);
      SplitTrianglesValid(m, h01, i4);
      ValidQuadAt(m, h01);
      assert Linked(m, h01) && Linked(m, Twin(m, h01));
      SplitTrianglesRetiredIsSpec(m, h01, i4);
      var h04 := SplitTrianglesAt(h01, i4);
      return Success(h04);
    }

    /** The writes of splitTriangles once h01 is found. */
    method SplitTrianglesAt(h01: int, i4: int) returns (h04: int)
      requires SplitReady(State(), h01, i4)
      modifies this
      ensures h04 == |old(edges)| && State() == SplitTrianglesRetired(old(State()), h01, i4)
    {
      ghost var m := State();
      var h10 := edges[h01].twin;
      var v0, v1 := edges[h01].origin, edges[h10].origin;
      h04 := WireSplitTriangles(h01, i4);
      ghost var x := State();
      RepairSplitTriangles(v0, h01, v1, h10, h04, i4);
      SplitTrianglesWrites(m, h01, i4, x, v0, v1, h10, h04);
      FaceSplitTriangles(h01, h10, h04);
    }

    /** The vertex writes of splitTriangles: v0 and v1 repaired to h04
        and h14, and h40 as the edge of the new vertex i4. */
    method RepairSplitTriangles(v0: int, h01: int, v1: int, h10: int, h04: int, i4: int)
      requires IsVertex(State(), v0) && IsVertex(State(), v1) && 0 <= i4 < |vertices|
      modifies this
      ensures State() == SetVertexEdgeOf(Repair2(old(State()), v0, h01, h04, v1, h10, h04 + 2), i4, h04 + 1)
    {
      RepairVertex(State(), v0, h01, h04, v1);
      RepairVertexEdge(v0, h01, h04);
      RepairVertexEdge(v1, h10, h04 + 2);
      SetVertexEdge(i4, h04 + 1);
    }

    /** `new Vertex(i4)`, the eight `new HalfEdge()`, their linkTwins, the
        four linkPrevNextTriangle and the eight origins. */
    method WireSplitTriangles(h01: int, i4: int) returns (h04: int)
      requires SplitReady(State(), h01, i4)
      modifies this
      ensures h04 == |old(edges)| && State() == SplitTrianglesWired(old(State()), h01, i4)
    {
      ghost var m := State();
      var h12 := edges[h01].next;
      var h20 := edges[h12].next;
      var h10 := edges[h01].twin;
      var h03 := edges[h10].next;
      var h31 := edges[h03].next;
      var v0, v1, v2, v3 := edges[h01].origin, edges[h10].origin, edges[h20].origin, edges[h31].origin;
      NewVertex(i4);
      h04 := NewHalfEdge();
      var h40 := NewHalfEdge();
      var h14 := NewHalfEdge();
      var h41 := NewHalfEdge();
      var h24 := NewHalfEdge();
      var h42 := NewHalfEdge();
      var h34 := NewHalfEdge();
      var h43 := NewHalfEdge();
      assert State() == AddEdges8(AddVertex(m, i4));
      LinkSplitTriangles(h12, h20, h03, h31, v0, v1, v2, v3, i4, h04);
      SplitTrianglesWiring(m, h01, i4);
    }

    /** The linkTwins, linkPrevNextTriangle and origin writes on the eight
        half-edges from n on. */
    method LinkSplitTriangles(h12: int, h20: int, h03: int, h31: int, v0: int, v1: int, v2: int, v3: int, i4: int, n: int)
      requires 0 <= n && n + 8 == |edges|
      requires 0 <= h12 < |edges| && 0 <= h20 < |edges| && 0 <= h03 < |edges| && 0 <= h31 < |edges|
      modifies this
      ensures State() == Origins8Of(QuadCycles(TwinPairs4(old(State()), n), h12, h20, h03, h31, n), n, v0, v1, v2, v3, i4)
    {
      LinkTwinPairs4(n);
      LinkQuadCycles(h12, h20, h03, h31, n);
      SetOrigins8(n, v0, v1, v2, v3, i4);
    }

    /** linkTwins of the four pairs from n on. */
    method LinkTwinPairs4(n: int)
      requires 0 <= n && n + 8 <= |edges|
      modifies this
      ensures State() == TwinPairs4(old(State()), n)
    {
      LinkTwinPairs3(n);
      LinkTwins(n + 6, n + 7);
    }

    /** The four linkPrevNextTriangle of splitTriangles. */
    method LinkQuadCycles(h12: int, h20: int, h03: int, h31: int, n: int)
      requires 0 <= h12 < |edges| && 0 <= h20 < |edges| && 0 <= h03 < |edges| && 0 <= h31 < |edges|
      requires 0 <= n && n + 8 <= |edges|
      modifies this
      ensures State() == QuadCycles(old(State()), h12, h20, h03, h31, n)
    {
      LinkPrevNextTriangle(n, n + 5, h20);
      LinkPrevNextTriangle(n + 3, h12, n + 4);
      LinkPrevNextTriangle(n + 2, n + 7, h31);
      LinkPrevNextTriangle(n + 1, h03, n + 6);
    }

    /** The origins of the eight half-edges of splitTriangles. */
    method SetOrigins8(n: int, v0: int, v1: int, v2: int, v3: int, i4: int)
      requires 0 <= n && n + 8 <= |edges|
      modifies this
      ensures State() == Origins8Of(old(State()), n, v0, v1, v2, v3, i4)
    {
      SetOrigins6(n, v0, i4, v1, i4, v2, i4);
      edges := edges[n + 6 := edges[n + 6].(origin := v3)];
      edges := edges[n + 7 := edges[n + 7].(origin := i4)];
    }

    /** The four `new Face()`, their linkEdgesAndFace from h04, h41, h14,
        h40, and the retirement of h01 and h10. */
    method FaceSplitTriangles(h01: int, h10: int, n: int)
      requires 0 <= h01 < |edges| && 0 <= h10 < |edges| && FaceCycles4(State(), n)
      modifies this
      ensures State() == SplitTrianglesFinish(old(State()), h01, h10, n)
    {
      var f042 := NewFace();
      var f412 := NewFace();
      var f143 := NewFace();
      var f403 := NewFace();
      LinkEdgesAndFace(n, f042, 3);
      LinkEdgesAndFace(n + 3, f412, 3);
      LinkEdgesAndFace(n + 2, f143, 3);
      LinkEdgesAndFace(n + 1, f403, 3);
      RetireEdge(h01);
      RetireEdge(h10);
    }
  }
}
