/** The state of Dcel.java's doubly connected edge list, as values. Half-edges
    and faces live in arenas (`edges`, `faces`) addressed by index; an index
    plays the part of the Java object's identity, and -1 stands for null.
    Vertices are named by their ids: -2 and -1 are the two sentinels
    (fields v_2 and v_1), an id i >= 0 is `vertices[i]`, a slot that is None
    while no Vertex object exists for the point and otherwise holds the
    vertex's `edge`. */
module Mesh {
  import opened Wrappers
  import opened Points
  import opened Triangles
  import Util

  /** Java's null for an edge or face reference. */
  const Null := -1
  /** Java's null for an edge's origin, before it is set. */
  const NullVertex := -3

  /** Dcel.HalfEdge; `index` is the position in `edges`. */
  datatype HalfEdge = HalfEdge(twin: int, next: int, prev: int, origin: int, face: int, inUse: bool)

  /** Dcel.Face; `data` is the index of the history node, None for null. */
  datatype Face = Face(edge: int, data: Option<nat>)

  datatype MeshState = MeshState(
    edges: seq<HalfEdge>,
    faces: seq<Face>,
    vertices: seq<Option<int>>,
    upperLeftEdge: int,   // v_2.edge
    rightEdge: int)       // v_1.edge

  /** A Vertex object exists for id v. */
  predicate IsVertex(m: MeshState, v: int) {
    v == -2 || v == -1 || (0 <= v < |m.vertices| && m.vertices[v].Some?)
  }

  /** The `edge` field of vertex v. */
  function VertexEdge(m: MeshState, v: int): int
    requires IsVertex(m, v)
  {
    if v == -2 then m.upperLeftEdge else if v == -1 then m.rightEdge else m.vertices[v].value
  }

  /** The `edge` field of vertex v set to h. */
  function SetVertexEdgeOf(m: MeshState, v: int, h: int): (r: MeshState)
    requires v == -2 || v == -1 || 0 <= v < |m.vertices|
    ensures r.edges == m.edges && r.faces == m.faces && |r.vertices| == |m.vertices|
  {
    if v == -2 then m.(upperLeftEdge := h)
    else if v == -1 then m.(rightEdge := h)
    else m.(vertices := m.vertices[v := Some(h)])
  }

  /** Vertex.repair: if v.edge is h0, it becomes h1. */
  function Repair(m: MeshState, v: int, h0: int, h1: int): (r: MeshState)
    requires IsVertex(m, v)
    ensures r.edges == m.edges && r.faces == m.faces && |r.vertices| == |m.vertices|
  {
    if VertexEdge(m, v) == h0 then SetVertexEdgeOf(m, v, h1) else m
  }

  /** Repair changes the edge of v alone, and only when it was h0. */
  lemma RepairVertex(m: MeshState, v: int, h0: int, h1: int, u: int)
    requires IsVertex(m, v)
    ensures IsVertex(m, u) <==> IsVertex(Repair(m, v, h0, h1), u)
    ensures IsVertex(m, u) ==>
      VertexEdge(Repair(m, v, h0, h1), u) == if u == v && VertexEdge(m, v) == h0 then h1 else VertexEdge(m, u)
  {
  }

  predicate InUse(m: MeshState, h: int) {
    0 <= h < |m.edges| && m.edges[h].inUse
  }

  /** Every reference of edge h is set and points into the arenas. */
  predicate Linked(m: MeshState, h: int) {
    0 <= h < |m.edges| &&
    var e := m.edges[h];
    0 <= e.twin < |m.edges| && 0 <= e.next < |m.edges| && 0 <= e.prev < |m.edges| &&
    0 <= e.face < |m.faces| && IsVertex(m, e.origin)
  }

  /** The local laws of an in-use half-edge h: its twin, next and prev are in
      use (what Dcel.checkEdges asserts); twin is an involution, prev is the
      inverse of next and next cycles in three steps; the edges of a cycle
      share their face, whose `edge` is one of them; the twin starts where
      next starts, and that is not where h starts. */
  predicate EdgeOk(m: MeshState, h: int) {
    Linked(m, h) &&
    var e := m.edges[h];
    InUse(m, e.twin) && InUse(m, e.next) && InUse(m, e.prev) && Linked(m, e.next) &&
    m.edges[e.twin].twin == h && m.edges[e.next].prev == h && m.edges[e.prev].next == h &&
    m.edges[m.edges[e.next].next].next == h &&
    m.edges[e.next].face == e.face &&
    m.edges[e.twin].origin == m.edges[e.next].origin &&
    e.origin != m.edges[e.twin].origin &&
    var fe := m.faces[e.face].edge;
    fe == h || fe == e.next || fe == e.prev
  }

  predicate AllLinked(m: MeshState) {
    (forall h {:trigger m.edges[h]} :: 0 <= h < |m.edges| ==> Linked(m, h)) &&
    (forall f :: 0 <= f < |m.faces| ==> 0 <= m.faces[f].edge < |m.edges|)
  }

  predicate AllEdgesOk(m: MeshState) {
    forall h {:trigger EdgeOk(m, h)} :: 0 <= h < |m.edges| && m.edges[h].inUse ==> EdgeOk(m, h)
  }

  /** Every vertex's edge is in use and starts at the vertex. */
  predicate VertexEdgesOk(m: MeshState) {
    InUse(m, m.upperLeftEdge) && m.edges[m.upperLeftEdge].origin == -2 &&
    InUse(m, m.rightEdge) && m.edges[m.rightEdge].origin == -1 &&
    forall i :: 0 <= i < |m.vertices| && m.vertices[i].Some? ==>
      InUse(m, m.vertices[i].value) && m.edges[m.vertices[i].value].origin == i
  }

  /** The invariant of the mesh: it holds after the constructor and is kept
      by every split and flip. */
  predicate MeshValid(m: MeshState) {
    |m.vertices| <= Util.IntMax && AllLinked(m) && AllEdgesOk(m) && VertexEdgesOk(m)
  }

  function Twin(m: MeshState, h: int): int
    requires 0 <= h < |m.edges|
  {
    m.edges[h].twin
  }

  function Next(m: MeshState, h: int): int
    requires 0 <= h < |m.edges|
  {
    m.edges[h].next
  }

  function Prev(m: MeshState, h: int): int
    requires 0 <= h < |m.edges|
  {
    m.edges[h].prev
  }

  function Origin(m: MeshState, h: int): int
    requires 0 <= h < |m.edges|
  {
    m.edges[h].origin
  }

  /** The laws of EdgeOk at h, for use in proofs. */
  lemma EdgeLaws(m: MeshState, h: int)
    requires MeshValid(m) && InUse(m, h)
    ensures EdgeOk(m, h)
    ensures var e := m.edges[h];
      e.next != h && e.prev != h && e.twin != h && e.next != e.prev &&
      m.edges[e.next].next == e.prev && m.edges[e.prev].prev == e.next &&
      m.edges[e.prev].face == e.face
  {
    assert EdgeOk(m, h);
    var e := m.edges[h];
    assert EdgeOk(m, e.next);
    assert EdgeOk(m, e.prev);
  }

  /** Dcel.checkEdges as a value: every in-use edge's twin, next and prev
      are in use. */
  predicate ChecksPass(m: MeshState)
    requires AllLinked(m)
  {
    forall h :: 0 <= h < |m.edges| ==> CheckedAt(m, h)
  }

  /** The test checkEdges makes on edge h. */
  predicate CheckedAt(m: MeshState, h: int)
    requires AllLinked(m) && 0 <= h < |m.edges|
  {
    m.edges[h].inUse ==>
      m.edges[m.edges[h].twin].inUse && m.edges[m.edges[h].next].inUse && m.edges[m.edges[h].prev].inUse
  }

  /** A valid mesh passes checkEdges. */
  lemma ValidPassesChecks(m: MeshState)
    requires MeshValid(m)
    ensures ChecksPass(m)
  {
    forall h | 0 <= h < |m.edges|
      ensures CheckedAt(m, h)
    {
      if m.edges[h].inUse {
        assert EdgeOk(m, h);
      }
    }
  }

  /** The step of getHalfEdge's loop, h.twin.next: the next edge out of the
      same origin. */
  function FanStep(m: MeshState, h: int): int
    requires AllLinked(m) && 0 <= h < |m.edges|
  {
    m.edges[m.edges[h].twin].next
  }

  /** The step of edgeIterator, edge.prev.twin, which turns the other way. */
  function IteratorStep(m: MeshState, h: int): int
    requires AllLinked(m) && 0 <= h < |m.edges|
  {
    m.edges[m.edges[h].prev].twin
  }

  /** Both steps stay at the origin and in use, and are injective, so they
      permute the in-use edges; and each undoes the other. */
  lemma StepLaws(m: MeshState, a: int, b: int)
    requires MeshValid(m) && InUse(m, a) && InUse(m, b)
    ensures InUse(m, FanStep(m, a)) && Origin(m, FanStep(m, a)) == Origin(m, a)
    ensures InUse(m, IteratorStep(m, a)) && Origin(m, IteratorStep(m, a)) == Origin(m, a)
    ensures FanStep(m, a) == FanStep(m, b) ==> a == b
    ensures IteratorStep(m, a) == IteratorStep(m, b) ==> a == b
    ensures IteratorStep(m, FanStep(m, a)) == a
  {
    var ta, tb := Twin(m, a), Twin(m, b);
    assert EdgeOk(m, a) && EdgeOk(m, b) && EdgeOk(m, ta) && EdgeOk(m, tb);
    var pa, pb := Prev(m, a), Prev(m, b);
    assert EdgeOk(m, pa) && EdgeOk(m, pb);
    EdgeLaws(m, pa);
    EdgeLaws(m, ta);
  }

  /** The vertex ids of an in-use edge's cycle, from h. */
  function CycleIds(m: MeshState, h: int): (t: Tri)
    requires AllLinked(m) && 0 <= h < |m.edges|
  {
    var h1 := Next(m, h);
    [Origin(m, h), Origin(m, h1), Origin(m, Next(m, h1))]
  }

  /** Face.calcTriangle as a value: the origins along the face's cycle, in
      canonical rotation; an AssertionError if the cycle does not close in
      three steps. */
  function CalcTriangleOf(m: MeshState, f: int): (r: Result<Tri>)
    requires AllLinked(m) && 0 <= f < |m.faces|
  {
    var h := m.faces[f].edge;
    var h3 := Next(m, Next(m, Next(m, h)));
    if h3 != h then Failure(AssertionFailed) else Success(Canonical(CycleIds(m, h)))
  }

  /** The face of an in-use edge h is alive: calcTriangle succeeds and
      gives h's own cycle, whichever of its edges the face records. The
      corners are three distinct vertices. */
  lemma LiveFace(m: MeshState, h: int)
    requires MeshValid(m) && InUse(m, h)
    ensures CalcTriangleOf(m, m.edges[h].face) == Success(Canonical(CycleIds(m, h)))
    ensures var t := CycleIds(m, h); t[0] != t[1] && t[1] != t[2] && t[2] != t[0]
  {
    EdgeLaws(m, h);
    var e := m.edges[h];
    EdgeLaws(m, e.next);
    EdgeLaws(m, e.prev);
    var t := CycleIds(m, h);
    var fe := m.faces[e.face].edge;
    assert EdgeOk(m, e.twin) && EdgeOk(m, m.edges[e.next].twin) && EdgeOk(m, m.edges[e.prev].twin);
    if fe == e.next {
      CanonicalOfRotation(t[0], t[1], t[2]);
    } else if fe == e.prev {
      CanonicalOfRotation(t[2], t[0], t[1]);
    }
  }

  /** Vertex.getPoint: the point of a point vertex, null for a sentinel. */
  function GetPoint(points: seq<Point>, v: int): (r: Option<Point>)
    requires v < |points|
    ensures r.Some? <==> v >= 0
    ensures v >= 0 ==> r.value == points[v]
  {
    if v >= 0 then Some(points[v]) else None
  }

  /** Dcel.getVertex as a value: the sentinels by their fields, other ids
      through `vertices` (an id outside it throws); None is null. */
  function GetVertex(m: MeshState, i: int): (r: Result<Option<int>>)
    ensures r.Success? <==> -2 <= i < |m.vertices|
    ensures r.Success? ==> (r.value.Some? <==> IsVertex(m, i)) && (r.value.Some? ==> r.value.value == i)
  {
    if i == -1 || i == -2 then Success(Some(i))
    else if 0 <= i < |m.vertices| then (if m.vertices[i].Some? then Success(Some(i)) else Success(None))
    else Failure(IndexOutOfBounds)
  }

  /** One step around the origin of h: h.twin.next, the step of
      getHalfEdge, when `fan` holds, and otherwise edge.prev.twin, the step
      of edgeIterator. */
  function Step(m: MeshState, fan: bool, h: int): int
    requires AllLinked(m) && 0 <= h < |m.edges|
  {
    if fan then FanStep(m, h) else IteratorStep(m, h)
  }

  /** The edge reached from h0 after k steps. */
  function Orbit(m: MeshState, fan: bool, h0: int, k: nat): (h: int)
    requires MeshValid(m) && InUse(m, h0)
    ensures InUse(m, h) && Origin(m, h) == Origin(m, h0)
  {
    if k == 0 then h0
    else
      var h := Orbit(m, fan, h0, k - 1);
      StepLaws(m, h, h);
      Step(m, fan, h)
  }

  /** A step is injective on in-use edges, so two equal positions of an
      orbit are equal one step earlier, down to the start. */
  lemma {:induction false} OrbitBack(m: MeshState, fan: bool, h0: int, i: nat, j: nat)
    requires MeshValid(m) && InUse(m, h0) && i <= j
    requires Orbit(m, fan, h0, i) == Orbit(m, fan, h0, j)
    ensures Orbit(m, fan, h0, j - i) == h0
    decreases i
  {
    if i > 0 {
      StepLaws(m, Orbit(m, fan, h0, i - 1), Orbit(m, fan, h0, j - 1));
      OrbitBack(m, fan, h0, i - 1, j - 1);
    }
  }

  /** A set of naturals below n has at most n elements. */
  lemma {:induction false} BoundedSetSize(s: set<int>, n: nat)
    requires forall x :: x in s ==> 0 <= x < n
    ensures |s| <= n
    decreases n
  {
    if n == 0 {
      forall x | x in s
        ensures false
      {
      }
      assert s == {};
    } else {
      BoundedSetSize(s - {n - 1}, n - 1);
      if n - 1 in s {
        assert s == (s - {n - 1}) + {n - 1};
      } else {
        assert s == s - {n - 1};
      }
    }
  }

  /** The edges met in the first k positions of an orbit. */
  function OrbitSet(m: MeshState, fan: bool, h0: int, k: nat): set<int>
    requires MeshValid(m) && InUse(m, h0)
  {
    if k == 0 then {} else OrbitSet(m, fan, h0, k - 1) + {Orbit(m, fan, h0, k - 1)}
  }

  lemma {:induction false} OrbitSetMembers(m: MeshState, fan: bool, h0: int, k: nat, x: int)
    requires MeshValid(m) && InUse(m, h0)
    ensures x in OrbitSet(m, fan, h0, k) ==> InUse(m, x)
    ensures x in OrbitSet(m, fan, h0, k) ==> exists i :: 0 <= i < k && Orbit(m, fan, h0, i) == x
  {
    if k > 0 {
      OrbitSetMembers(m, fan, h0, k - 1, x);
    }
  }

  /** The position at which a member of OrbitSet was met. */
  lemma {:induction false} OrbitSetIndex(m: MeshState, fan: bool, h0: int, k: nat, x: int) returns (i: nat)
    requires MeshValid(m) && InUse(m, h0) && x in OrbitSet(m, fan, h0, k)
    ensures i < k && Orbit(m, fan, h0, i) == x
  {
    if x == Orbit(m, fan, h0, k - 1) {
      i := k - 1;
    } else {
      i := OrbitSetIndex(m, fan, h0, k - 1, x);
    }
  }

  /** Before the orbit returns, its positions are pairwise distinct. */
  lemma {:induction false} OrbitSetSize(m: MeshState, fan: bool, h0: int, k: nat)
    requires MeshValid(m) && InUse(m, h0)
    requires forall j :: 1 <= j < k ==> Orbit(m, fan, h0, j) != h0
    ensures |OrbitSet(m, fan, h0, k)| == k
  {
    if k > 0 {
      OrbitSetSize(m, fan, h0, k - 1);
      var last := Orbit(m, fan, h0, k - 1);
      OrbitSetFresh(m, fan, h0, k - 1);
      assert OrbitSet(m, fan, h0, k) == OrbitSet(m, fan, h0, k - 1) + {last};
    }
  }

  /** The k-th position of an orbit that has not yet returned is new. */
  lemma OrbitSetFresh(m: MeshState, fan: bool, h0: int, k: nat)
    requires MeshValid(m) && InUse(m, h0)
    requires forall j :: 1 <= j <= k ==> Orbit(m, fan, h0, j) != h0
    ensures Orbit(m, fan, h0, k) !in OrbitSet(m, fan, h0, k)
  {
    var last := Orbit(m, fan, h0, k);
    if last in OrbitSet(m, fan, h0, k) {
      var i := OrbitSetIndex(m, fan, h0, k, last);
      OrbitBack(m, fan, h0, i, k);
      assert Orbit(m, fan, h0, k - i) == h0;
      assert false;
    }
  }

  /** Every orbit comes back to its start within |edges| steps: the steps
      permute the finitely many in-use edges. */
  lemma OrbitReturns(m: MeshState, fan: bool, h0: int)
    requires MeshValid(m) && InUse(m, h0)
    ensures exists k :: 1 <= k <= |m.edges| && Orbit(m, fan, h0, k) == h0
  {
    var n := |m.edges|;
    if forall j :: 1 <= j <= n ==> Orbit(m, fan, h0, j) != h0 {
      OrbitSetSize(m, fan, h0, n + 1);
      var seen := OrbitSet(m, fan, h0, n + 1);
      forall x | x in seen
        ensures 0 <= x < n
      {
        OrbitSetMembers(m, fan, h0, n + 1, x);
      }
      BoundedSetSize(seen, n);
      assert false;
    }
  }

  /** No edge among the first p of the fan from h0 ends at i1. */
  predicate FanMisses(m: MeshState, h0: int, i1: int, p: nat)
    requires MeshValid(m) && InUse(m, h0)
  {
    forall l :: 0 <= l < p ==> Origin(m, Twin(m, Orbit(m, true, h0, l))) != i1
  }

  /** The loop of getHalfEdge from its k-th step, with `fuel` steps left. */
  function FanSearch(m: MeshState, h0: int, k: nat, i1: int, fuel: nat): Option<int>
    requires MeshValid(m) && InUse(m, h0)
    decreases fuel
  {
    var h := Orbit(m, true, h0, k);
    if Origin(m, Twin(m, h)) == i1 then Some(h)
    else if Orbit(m, true, h0, k + 1) == h0 then None
    else if fuel == 0 then None
    else FanSearch(m, h0, k + 1, i1, fuel - 1)
  }

  /** From step k with |edges| - k steps of fuel, the search finds the first
      edge of the fan ending at i1, or reports None exactly where the fan
      closes; the fuel never runs out first. */
  lemma {:induction false} FanSearchFinds(m: MeshState, h0: int, k: nat, i1: int, p: nat)
    requires MeshValid(m) && InUse(m, h0)
    requires k < p <= |m.edges| && Orbit(m, true, h0, p) == h0
    requires forall j :: 1 <= j <= k ==> Orbit(m, true, h0, j) != h0
    requires FanMisses(m, h0, i1, k)
    ensures var r := FanSearch(m, h0, k, i1, |m.edges| - k);
      (r.Some? ==>
         exists j :: k <= j < p && r.value == Orbit(m, true, h0, j) &&
           Origin(m, Twin(m, r.value)) == i1 && FanMisses(m, h0, i1, j)) &&
      (r.None? ==> exists q :: 1 <= q <= |m.edges| && Orbit(m, true, h0, q) == h0 && FanMisses(m, h0, i1, q))
    decreases p - k
  {
    var h := Orbit(m, true, h0, k);
    if Origin(m, Twin(m, h)) == i1 {
    } else if Orbit(m, true, h0, k + 1) == h0 {
      assert FanMisses(m, h0, i1, k + 1);
    } else {
      assert k + 1 < p;
      assert FanMisses(m, h0, i1, k + 1);
      FanSearchFinds(m, h0, k + 1, i1, p);
    }
  }

  /** Dcel.getHalfEdge as a value: the first edge in the fan of v0.edge whose
      twin starts at i1, or None (null) once the fan returns to v0.edge. */
  function FindHalfEdge(m: MeshState, i0: int, i1: int): (r: Result<Option<int>>)
    requires MeshValid(m)
  {
    var v0 :- GetVertex(m, i0);
    if v0.None? then Failure(NullPointer)
    else Success(FanSearch(m, VertexEdge(m, i0), 0, i1, |m.edges|))
  }

  /** What getHalfEdge returns: it fails only for an id with no vertex;
      otherwise it gives an in-use edge from i0 to i1 that comes first in
      the fan of v0.edge, or None after the whole fan, back to v0.edge,
      held no edge ending at i1. */
  lemma FindHalfEdgeMeaning(m: MeshState, i0: int, i1: int)
    requires MeshValid(m)
    ensures FindHalfEdge(m, i0, i1).Success? <==> IsVertex(m, i0)
    ensures IsVertex(m, i0) ==>
      var r := FindHalfEdge(m, i0, i1).value;
      var h0 := VertexEdge(m, i0);
      (r.Some? ==>
         InUse(m, r.value) && Origin(m, r.value) == i0 && Origin(m, Twin(m, r.value)) == i1 &&
         exists j :: 0 <= j < |m.edges| && r.value == Orbit(m, true, h0, j) && FanMisses(m, h0, i1, j)) &&
      (r.None? ==> exists q :: 1 <= q <= |m.edges| && Orbit(m, true, h0, q) == h0 && FanMisses(m, h0, i1, q))
  {
    if IsVertex(m, i0) {
      var h0 := VertexEdge(m, i0);
      OrbitReturns(m, true, h0);
      var p :| 1 <= p <= |m.edges| && Orbit(m, true, h0, p) == h0;
      FanSearchFinds(m, h0, 0, i1, p);
    }
  }
}
