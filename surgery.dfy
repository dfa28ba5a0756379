/** The three edits Dcel.java makes to the mesh, as functions from the old
    state to the new one, and the proofs that each keeps MeshValid. Edge and
    face indexes follow the order in which Dcel.java creates the objects: a
    split or flip appends its new half-edges to `edges` and its new faces to
    `faces`. */
module Surgery {
  import opened Wrappers
  import opened Triangles
  import opened Mesh
  import Util

  /** splitTriangle of the triangle whose edge h01 (cycle h01, h12, h20)
      leaves from v0, by the new point p. With n = |edges| and F = |faces|,
      the new half-edges are h03 = n, h30 = n+1, h13 = n+2, h31 = n+3,
      h23 = n+4, h32 = n+5 and the new faces are f013 = F, f123 = F+1,
      f203 = F+2. */
  function SplitTriangleSpec(m: MeshState, h01: int, p: int): (r: MeshState)
    requires AllLinked(m) && 0 <= h01 < |m.edges| && 0 <= p < |m.vertices|
  {
    var n, f := |m.edges|, |m.faces|;
    var h12 := Next(m, h01);
    var h20 := Next(m, h12);
    MeshState(SplitTriangleEdgesOf(m.edges, f, h01, h12, h20, Origin(m, h01), Origin(m, h12), Origin(m, h20), p),
      m.faces + [Face(h01, None), Face(h12, None), Face(h20, None)],
      m.vertices[p := Some(n + 1)], m.upperLeftEdge, m.rightEdge)
  }

  /** The half-edges after splitTriangle, with the handles of the cycle
      and their origins given. */
  function SplitTriangleEdgesOf(e: seq<HalfEdge>, f: int, h01: int, h12: int, h20: int,
                                v0: int, v1: int, v2: int, p: int): seq<HalfEdge>
    requires 0 <= h01 < |e| && 0 <= h12 < |e| && 0 <= h20 < |e|
  {
    var n := |e|;
    var e1 := e[h01 := e[h01].(next := n + 2, prev := n + 1, face := f)];
    var e2 := e1[h12 := e1[h12].(next := n + 4, prev := n + 3, face := f + 1)];
    var e3 := e2[h20 := e2[h20].(next := n, prev := n + 5, face := f + 2)];
    e3 + [
      HalfEdge(n + 1, n + 5, h20, v0, f + 2, true),   // h03
      HalfEdge(n, h01, n + 2, p, f, true),            // h30
      HalfEdge(n + 3, n + 1, h01, v1, f, true),       // h13
      HalfEdge(n + 2, h12, n + 4, p, f + 1, true),    // h31
      HalfEdge(n + 5, n + 3, h12, v2, f + 1, true),   // h23
      HalfEdge(n + 4, h20, n, p, f + 2, true)]        // h32
  }

  /** An in-use edge h, the cycle of h01 and the twin of h01 in a valid
      mesh: the three edges of the cycle are distinct and none is the twin
      of another, and h is outside the cycle exactly when its next and its
      prev are. */
  lemma CycleFacts(m: MeshState, h01: int, h: int)
    requires MeshValid(m) && InUse(m, h01) && InUse(m, h)
    ensures var h12 := Next(m, h01); var h20 := Next(m, h12);
      h01 != h12 && h12 != h20 && h20 != h01 &&
      Next(m, h20) == h01 && Prev(m, h01) == h20 &&
      Twin(m, h01) !in {h01, h12, h20} && Twin(m, h12) !in {h01, h12, h20} &&
      Twin(m, h20) !in {h01, h12, h20} &&
      (h !in {h01, h12, h20} ==> Next(m, h) !in {h01, h12, h20} && Prev(m, h) !in {h01, h12, h20})
  {
    var h12 := Next(m, h01);
    var h20 := Next(m, h12);
    EdgeLaws(m, h01);
    EdgeLaws(m, h12);
    EdgeLaws(m, h20);
    EdgeLaws(m, h);
    assert EdgeOk(m, Twin(m, h01)) && EdgeOk(m, Twin(m, h12)) && EdgeOk(m, Twin(m, h20));
  }

  /** An edge outside the split cycle keeps its laws. */
  lemma SplitTriangleKeepsOther(m: MeshState, h01: int, p: int, h: int)
    requires MeshValid(m) && InUse(m, h01) && 0 <= p < |m.vertices| && m.vertices[p].None?
    requires AllLinked(SplitTriangleSpec(m, h01, p))
    requires InUse(m, h) && h !in {h01, Next(m, h01), Next(m, Next(m, h01))}
    ensures EdgeOk(SplitTriangleSpec(m, h01, p), h)
  {
    var r := SplitTriangleSpec(m, h01, p);
    CycleFacts(m, h01, h);
    EdgeLaws(m, h);
    var e := m.edges[h];
    assert r.edges[h] == e;
    CycleFacts(m, h01, e.next);
    EdgeLaws(m, e.next);
    assert r.edges[e.next] == m.edges[e.next];
    assert r.edges[e.prev] == m.edges[e.prev];
    assert r.edges[e.twin].twin == h;
    assert r.edges[m.edges[e.next].next] == m.edges[m.edges[e.next].next];
    assert r.edges[e.twin].origin == m.edges[e.twin].origin;
  }

  /** The shape of the split: the edges outside the cycle and the older
      faces are as they were. */
  lemma SplitTriangleShape(m: MeshState, h01: int, p: int)
    requires MeshValid(m) && InUse(m, h01) && 0 <= p < |m.vertices|
    ensures var r := SplitTriangleSpec(m, h01, p); var n := |m.edges|;
      var h12 := Next(m, h01); var h20 := Next(m, h12);
      |r.edges| == n + 6 && |r.faces| == |m.faces| + 3 && r.faces[..|m.faces|] == m.faces &&
      (forall h :: 0 <= h < n && h !in {h01, h12, h20} ==> r.edges[h] == m.edges[h]) &&
      r.edges[h01].twin == m.edges[h01].twin && r.edges[h12].twin == m.edges[h12].twin &&
      r.edges[h20].twin == m.edges[h20].twin &&
      r.edges[h01].origin == m.edges[h01].origin && r.edges[h12].origin == m.edges[h12].origin &&
      r.edges[h20].origin == m.edges[h20].origin &&
      (forall h :: 0 <= h < n ==> r.edges[h].inUse == m.edges[h].inUse)
    ensures var r := SplitTriangleSpec(m, h01, p); var n, f := |m.edges|, |m.faces|;
      var h12 := Next(m, h01); var h20 := Next(m, h12);
      var v0, v1, v2 := Origin(m, h01), Origin(m, h12), Origin(m, h20);
      r.edges[h01] == m.edges[h01].(next := n + 2, prev := n + 1, face := f) &&
      r.edges[h12] == m.edges[h12].(next := n + 4, prev := n + 3, face := f + 1) &&
      r.edges[h20] == m.edges[h20].(next := n, prev := n + 5, face := f + 2) &&
      r.edges[n] == HalfEdge(n + 1, n + 5, h20, v0, f + 2, true) &&
      r.edges[n + 1] == HalfEdge(n, h01, n + 2, p, f, true) &&
      r.edges[n + 2] == HalfEdge(n + 3, n + 1, h01, v1, f, true) &&
      r.edges[n + 3] == HalfEdge(n + 2, h12, n + 4, p, f + 1, true) &&
      r.edges[n + 4] == HalfEdge(n + 5, n + 3, h12, v2, f + 1, true) &&
      r.edges[n + 5] == HalfEdge(n + 4, h20, n, p, f + 2, true) &&
      r.faces[f] == Face(h01, None) && r.faces[f + 1] == Face(h12, None) && r.faces[f + 2] == Face(h20, None) &&
      r.vertices == m.vertices[p := Some(n + 1)] &&
      r.upperLeftEdge == m.upperLeftEdge && r.rightEdge == m.rightEdge
  {
    CycleFacts(m, h01, h01);
  }

  lemma SplitTriangleLinked(m: MeshState, h01: int, p: int)
    requires AllLinked(m) && 0 <= h01 < |m.edges| && 0 <= p < |m.vertices|
    ensures AllLinked(SplitTriangleSpec(m, h01, p))
  {
    var r := SplitTriangleSpec(m, h01, p);
    SplitTriangleFrame(m, h01, p);
    forall h | 0 <= h < |r.edges| ensures Linked(r, h) {
      SplitTriangleLinkedAt(m, h01, p, h);
    }
    forall k | 0 <= k < |r.faces| ensures 0 <= r.faces[k].edge < |r.edges| {
      if k < |m.faces| {
        assert r.faces[k] == m.faces[k];
      }
    }
  }

  /** The sizes and faces after splitTriangle. */
  lemma SplitTriangleFrame(m: MeshState, h01: int, p: int)
    requires AllLinked(m) && 0 <= h01 < |m.edges| && 0 <= p < |m.vertices|
    ensures var r := SplitTriangleSpec(m, h01, p); var n, f := |m.edges|, |m.faces|;
      var h12 := Next(m, h01); var h20 := Next(m, h12);
      0 <= h12 < n && 0 <= h20 < n &&
      r.edges == SplitTriangleEdgesOf(m.edges, f, h01, h12, h20, Origin(m, h01), Origin(m, h12), Origin(m, h20), p) &&
      r.faces == m.faces + [Face(h01, None), Face(h12, None), Face(h20, None)] &&
      r.vertices == m.vertices[p := Some(n + 1)]
  {
    assert Linked(m, h01) && Linked(m, Next(m, h01));
  }

  /** Each half-edge after splitTriangle has all its references set. */
  lemma SplitTriangleLinkedAt(m: MeshState, h01: int, p: int, h: int)
    requires AllLinked(m) && 0 <= h01 < |m.edges| && 0 <= p < |m.vertices|
    requires 0 <= h < |m.edges| + 6
    ensures Linked(SplitTriangleSpec(m, h01, p), h)
  {
    var n, f := |m.edges|, |m.faces|;
    var h12 := Next(m, h01);
    var h20 := Next(m, h12);
    SplitTriangleFrame(m, h01, p);
    assert Linked(m, h01) && Linked(m, h12) && Linked(m, h20);
    var r := SplitTriangleSpec(m, h01, p);
    var v0, v1, v2 := Origin(m, h01), Origin(m, h12), Origin(m, h20);
    if h < n {
      assert Linked(m, h);
      SplitTriangleKeptRecord(m.edges, f, h01, h12, h20, v0, v1, v2, p, h);
      assert IsVertex(r, m.edges[h].origin);
    } else {
      assert IsVertex(r, v0) && IsVertex(r, v1) && IsVertex(r, v2) && IsVertex(r, p);
      SplitTriangleAddedLinked(m.edges, f, h01, h12, h20, v0, v1, v2, p, h);
    }
  }

  /** An older record of SplitTriangleEdgesOf keeps its twin and origin,
      and its next, prev and face are the old ones or new ones. */
  lemma SplitTriangleKeptRecord(e: seq<HalfEdge>, f: int, h01: int, h12: int, h20: int,
                                v0: int, v1: int, v2: int, p: int, h: int)
    requires 0 <= h01 < |e| && 0 <= h12 < |e| && 0 <= h20 < |e| && 0 <= h < |e|
    ensures var r := SplitTriangleEdgesOf(e, f, h01, h12, h20, v0, v1, v2, p); var n := |e|;
      |r| == n + 6 && r[h].twin == e[h].twin && r[h].origin == e[h].origin &&
      (r[h].next == e[h].next || n <= r[h].next < n + 6) &&
      (r[h].prev == e[h].prev || n <= r[h].prev < n + 6) &&
      (r[h].face == e[h].face || f <= r[h].face < f + 3)
  {
  }

  /** The six new records of SplitTriangleEdgesOf point into the arenas. */
  lemma SplitTriangleAddedLinked(e: seq<HalfEdge>, f: int, h01: int, h12: int, h20: int,
                                 v0: int, v1: int, v2: int, p: int, h: int)
    requires 0 <= h01 < |e| && 0 <= h12 < |e| && 0 <= h20 < |e| && |e| <= h < |e| + 6
    ensures var x := SplitTriangleEdgesOf(e, f, h01, h12, h20, v0, v1, v2, p)[h]; var n := |e|;
      0 <= x.twin < n + 6 && 0 <= x.next < n + 6 && 0 <= x.prev < n + 6 &&
      f <= x.face < f + 3 && x.origin in {v0, v1, v2, p}
  {
  }

  lemma SplitTriangleVertices(m: MeshState, h01: int, p: int)
    requires MeshValid(m) && InUse(m, h01) && 0 <= p < |m.vertices|
    ensures VertexEdgesOk(SplitTriangleSpec(m, h01, p))
  {
    SplitTriangleShape(m, h01, p);
  }

  /** The edges of the old cycle keep their laws. */
  lemma SplitTriangleKeepsCycle(m: MeshState, h01: int, p: int, h: int)
    requires MeshValid(m) && InUse(m, h01) && 0 <= p < |m.vertices| && m.vertices[p].None?
    requires AllLinked(SplitTriangleSpec(m, h01, p))
    requires h in {h01, Next(m, h01), Next(m, Next(m, h01))}
    ensures EdgeOk(SplitTriangleSpec(m, h01, p), h)
  {
    var r := SplitTriangleSpec(m, h01, p);
    CycleFacts(m, h01, h01);
    SplitTriangleShape(m, h01, p);
    EdgeLaws(m, h01);
    EdgeLaws(m, Next(m, h01));
    EdgeLaws(m, h);
    var t := Twin(m, h);
    assert EdgeOk(m, t);
    assert r.edges[t] == m.edges[t];
  }

  /** The six new edges obey the laws. */
  lemma SplitTriangleNewEdges(m: MeshState, h01: int, p: int, h: int)
    requires MeshValid(m) && InUse(m, h01) && 0 <= p < |m.vertices| && m.vertices[p].None?
    requires AllLinked(SplitTriangleSpec(m, h01, p))
    requires |m.edges| <= h < |m.edges| + 6
    ensures EdgeOk(SplitTriangleSpec(m, h01, p), h)
  {
    var r := SplitTriangleSpec(m, h01, p);
    var n := |m.edges|;
    var h12 := Next(m, h01);
    var h20 := Next(m, h12);
    CycleFacts(m, h01, h01);
    SplitTriangleShape(m, h01, p);
    EdgeLaws(m, h01);
    EdgeLaws(m, h12);
    EdgeLaws(m, h20);
    assert IsVertex(m, Origin(m, h01)) && IsVertex(m, Origin(m, h12)) && IsVertex(m, Origin(m, h20)) by {
      assert Linked(m, h01) && Linked(m, h12) && Linked(m, h20);
    }
    if h == n {
    } else if h == n + 1 {
    } else if h == n + 2 {
    } else if h == n + 3 {
    } else if h == n + 4 {
    } else {
    }
  }

  /** splitTriangle keeps the mesh valid when p is a point with no vertex
      yet. */
  lemma SplitTriangleValid(m: MeshState, h01: int, p: int)
    requires MeshValid(m) && InUse(m, h01) && 0 <= p < |m.vertices| && m.vertices[p].None?
    ensures MeshValid(SplitTriangleSpec(m, h01, p))
  {
    var r := SplitTriangleSpec(m, h01, p);
    var n := |m.edges|;
    SplitTriangleLinked(m, h01, p);
    SplitTriangleVertices(m, h01, p);
    SplitTriangleShape(m, h01, p);
    forall h | 0 <= h < |r.edges| && r.edges[h].inUse
      ensures EdgeOk(r, h)
    {
      if h >= n {
        SplitTriangleNewEdges(m, h01, p, h);
      } else if h in {h01, Next(m, h01), Next(m, Next(m, h01))} {
        SplitTriangleKeepsCycle(m, h01, p, h);
      } else {
        SplitTriangleKeepsOther(m, h01, p, h);
      }
    }
  }

  /** The three new faces are the triangles {v0,v1,p}, {v1,v2,p} and
      {v2,v0,p}, with no history node yet; h30 = n+1 leaves p in the
      first. */
  lemma SplitTriangleFaces(m: MeshState, h01: int, p: int)
    requires MeshValid(m) && InUse(m, h01) && 0 <= p < |m.vertices| && m.vertices[p].None?
    ensures var r := SplitTriangleSpec(m, h01, p); var t := CycleIds(m, h01); var f := |m.faces|;
      AllLinked(r) && |r.faces| == f + 3 &&
      CalcTriangleOf(r, f) == Success(Canonical([t[0], t[1], p])) &&
      CalcTriangleOf(r, f + 1) == Success(Canonical([t[1], t[2], p])) &&
      CalcTriangleOf(r, f + 2) == Success(Canonical([t[2], t[0], p])) &&
      r.faces[f].data.None? && r.faces[f + 1].data.None? && r.faces[f + 2].data.None?
  {
    SplitTriangleLinked(m, h01, p);
    SplitTriangleShape(m, h01, p);
    CycleFacts(m, h01, h01);
  }

  /** HalfEdge.flip of h01, whose triangles are v0,v1,v2 (cycle h01, h12,
      h20) and v1,v0,v3 (cycle h10, h03, h31). With n = |edges| and
      F = |faces|, the new half-edges are h23 = n and h32 = n+1, the new
      faces f032 = F and f123 = F+1; h01 and h10 leave use, and v0 and v1
      are repaired away from them. */
  function FlipSpec(m: MeshState, h01: int): (r: MeshState)
    requires AllLinked(m) && 0 <= h01 < |m.edges|
  {
    var n, f := |m.edges|, |m.faces|;
    var h12 := Next(m, h01);
    var h20 := Next(m, h12);
    var h10 := Twin(m, h01);
    var h03 := Next(m, h10);
    var h31 := Next(m, h03);
    assert Linked(m, h01) && Linked(m, h10);
    var m1 := MeshState(FlipEdgesOf(m.edges, f, h01, h10, h12, h20, h03, h31, Origin(m, h20), Origin(m, h31)),
      m.faces + [Face(h03, None), Face(h12, None)], m.vertices, m.upperLeftEdge, m.rightEdge);
    var m2 := Repair(m1, Origin(m, h01), h01, h03);
    Repair(m2, Origin(m, h10), h10, h12)
  }

  /** The half-edges after a flip, with the handles of the quad given: the
      four kept edges relinked into the two new cycles, h01 and h10 retired
      and the new pair h23 = n, h32 = n+1 appended. */
  function FlipEdgesOf(e: seq<HalfEdge>, f: int, h01: int, h10: int, h12: int, h20: int, h03: int, h31: int,
                       v2: int, v3: int): seq<HalfEdge>
    requires 0 <= h01 < |e| && 0 <= h10 < |e| && 0 <= h12 < |e| && 0 <= h20 < |e| && 0 <= h03 < |e| && 0 <= h31 < |e|
  {
    var n := |e|;
    var e1 := e[h03 := e[h03].(next := n + 1, prev := h20, face := f)];
    var e2 := e1[h20 := e1[h20].(next := h03, prev := n + 1, face := f)];
    var e3 := e2[h12 := e2[h12].(next := n, prev := h31, face := f + 1)];
    var e4 := e3[h31 := e3[h31].(next := h12, prev := n, face := f + 1)];
    var e5 := e4[h01 := e4[h01].(inUse := false)];
    var e6 := e5[h10 := e5[h10].(inUse := false)];
    e6 + [
      HalfEdge(n + 1, h31, h12, v2, f + 1, true),   // h23
      HalfEdge(n, h20, h03, v3, f, true)]           // h32
  }

  /** The two triangles around an in-use edge h01 of a valid mesh: their
      six edges are distinct, and an in-use edge outside them has its next
      and prev outside them too, and its twin is not h01 or h10. */
  lemma QuadFacts(m: MeshState, h01: int, h: int)
    requires MeshValid(m) && InUse(m, h01) && InUse(m, h)
    ensures var h12 := Next(m, h01); var h20 := Next(m, h12);
      var h10 := Twin(m, h01); var h03 := Next(m, h10); var h31 := Next(m, h03);
      var six := {h01, h12, h20, h10, h03, h31};
      InUse(m, h10) && InUse(m, h03) && InUse(m, h31) &&
      h01 != h12 && h01 != h20 && h12 != h20 && h10 != h03 && h10 != h31 && h03 != h31 &&
      h01 != h10 && h01 != h03 && h01 != h31 && h12 != h10 && h12 != h03 && h12 != h31 &&
      h20 != h10 && h20 != h03 && h20 != h31 &&
      Next(m, h20) == h01 && Next(m, h31) == h10 && Twin(m, h10) == h01 &&
      Twin(m, h12) !in {h01, h10} && Twin(m, h20) !in {h01, h10} &&
      Twin(m, h03) !in {h01, h10} && Twin(m, h31) !in {h01, h10} &&
      (h !in six ==> Next(m, h) !in six && Prev(m, h) !in six && Twin(m, h) !in {h01, h10})
  {
    var h12 := Next(m, h01);
    var h20 := Next(m, h12);
    var h10 := Twin(m, h01);
    EdgeLaws(m, h01);
    EdgeLaws(m, h10);
    var h03 := Next(m, h10);
    var h31 := Next(m, h03);
    CycleFacts(m, h01, h10);
    CycleFacts(m, h01, h);
    CycleFacts(m, h10, h);
    EdgeLaws(m, h);
    EdgeLaws(m, h12);
    EdgeLaws(m, h20);
    EdgeLaws(m, h03);
    EdgeLaws(m, h31);
  }

  /** The shape of a flip: its edges, faces and vertex slots. */
  lemma FlipShape(m: MeshState, h01: int)
    requires AllLinked(m) && 0 <= h01 < |m.edges|
    ensures var r := FlipSpec(m, h01); var f := |m.faces|;
      var h12 := Next(m, h01); var h20 := Next(m, h12);
      var h10 := Twin(m, h01); var h03 := Next(m, h10); var h31 := Next(m, h03);
      r.edges == FlipEdgesOf(m.edges, f, h01, h10, h12, h20, h03, h31, Origin(m, h20), Origin(m, h31)) &&
      |r.faces| == f + 2 && r.faces[..f] == m.faces &&
      r.faces[f] == Face(h03, None) && r.faces[f + 1] == Face(h12, None) &&
      |r.vertices| == |m.vertices|
  {
    assert Linked(m, h01) && Linked(m, Twin(m, h01));
  }

  /** The older records of FlipEdgesOf keep their twin and origin, lose
      their use only at h01 and h10, and point into the grown arena. */
  lemma FlipKeptRecord(e: seq<HalfEdge>, f: int, h01: int, h10: int, h12: int, h20: int, h03: int, h31: int,
                       v2: int, v3: int, h: int)
    requires 0 <= h01 < |e| && 0 <= h10 < |e| && 0 <= h12 < |e| && 0 <= h20 < |e| && 0 <= h03 < |e| && 0 <= h31 < |e|
    requires 0 <= h < |e|
    ensures var r := FlipEdgesOf(e, f, h01, h10, h12, h20, h03, h31, v2, v3); var n := |e|;
      |r| == n + 2 && r[h].twin == e[h].twin && r[h].origin == e[h].origin &&
      (r[h].inUse <==> e[h].inUse && h != h01 && h != h10) &&
      (r[h].next == e[h].next || 0 <= r[h].next < n + 2) &&
      (r[h].prev == e[h].prev || 0 <= r[h].prev < n + 2) &&
      (r[h].face == e[h].face || f <= r[h].face < f + 2)
  {
  }

  /** A record of FlipEdgesOf outside the two triangles is left as it was. */
  lemma FlipUntouched(e: seq<HalfEdge>, f: int, h01: int, h10: int, h12: int, h20: int, h03: int, h31: int,
                      v2: int, v3: int, h: int)
    requires 0 <= h01 < |e| && 0 <= h10 < |e| && 0 <= h12 < |e| && 0 <= h20 < |e| && 0 <= h03 < |e| && 0 <= h31 < |e|
    requires 0 <= h < |e| && h != h01 && h != h10 && h != h12 && h != h20 && h != h03 && h != h31
    ensures FlipEdgesOf(e, f, h01, h10, h12, h20, h03, h31, v2, v3)[h] == e[h]
  {
  }

  /** The records a flip leaves on its two new half-edges, on the four kept
      half-edges of the quad and on its two new faces. */
  predicate FlipRecords(r: MeshState, n: int, f: int, h12: int, h20: int, h03: int, h31: int,
                        v0: int, v1: int, v2: int, v3: int)
  {
    0 <= n && 0 <= f && |r.edges| == n + 2 && |r.faces| == f + 2 &&
    0 <= h12 < n && 0 <= h20 < n && 0 <= h03 < n && 0 <= h31 < n &&
    r.edges[n] == HalfEdge(n + 1, h31, h12, v2, f + 1, true) &&
    r.edges[n + 1] == HalfEdge(n, h20, h03, v3, f, true) &&
    r.edges[h03].next == n + 1 && r.edges[h03].prev == h20 && r.edges[h03].face == f &&
    r.edges[h03].origin == v0 && r.edges[h03].inUse &&
    r.edges[h20].next == h03 && r.edges[h20].prev == n + 1 && r.edges[h20].face == f &&
    r.edges[h20].origin == v2 && r.edges[h20].inUse &&
    r.edges[h12].next == n && r.edges[h12].prev == h31 && r.edges[h12].face == f + 1 &&
    r.edges[h12].origin == v1 && r.edges[h12].inUse &&
    r.edges[h31].next == h12 && r.edges[h31].prev == n && r.edges[h31].face == f + 1 &&
    r.edges[h31].origin == v3 && r.edges[h31].inUse &&
    r.faces[f].edge == h03 && r.faces[f + 1].edge == h12
  }

  /** FlipEdgesOf leaves the records FlipRecords names when the six handles
      differ and the four kept ones are in use with the corners as origins. */
  lemma FlipRecordsOf(r: MeshState, e: seq<HalfEdge>, f: int, h01: int, h10: int, h12: int, h20: int, h03: int, h31: int,
                      v0: int, v1: int, v2: int, v3: int)
    requires 0 <= h01 < |e| && 0 <= h10 < |e| && 0 <= h12 < |e| && 0 <= h20 < |e| && 0 <= h03 < |e| && 0 <= h31 < |e|
    requires h01 != h12 && h01 != h20 && h12 != h20 && h10 != h03 && h10 != h31 && h03 != h31 &&
      h01 != h10 && h01 != h03 && h01 != h31 && h12 != h10 && h12 != h03 && h12 != h31 &&
      h20 != h10 && h20 != h03 && h20 != h31
    requires e[h12].origin == v1 && e[h20].origin == v2 && e[h03].origin == v0 && e[h31].origin == v3
    requires e[h12].inUse && e[h20].inUse && e[h03].inUse && e[h31].inUse
    requires r.edges == FlipEdgesOf(e, f, h01, h10, h12, h20, h03, h31, v2, v3)
    requires 0 <= f && |r.faces| == f + 2 && r.faces[f].edge == h03 && r.faces[f + 1].edge == h12
    ensures FlipRecords(r, |e|, f, h12, h20, h03, h31, v0, v1, v2, v3)
  {
  }

  /** A flip leaves the records FlipRecords names. */
  lemma FlipRecordsHold(m: MeshState, h01: int)
    requires MeshValid(m) && InUse(m, h01)
    ensures var h12 := Next(m, h01); var h20 := Next(m, h12);
      var h10 := Twin(m, h01); var h03 := Next(m, h10); var h31 := Next(m, h03);
      FlipRecords(FlipSpec(m, h01), |m.edges|, |m.faces|, h12, h20, h03, h31,
        Origin(m, h01), Origin(m, h10), Origin(m, h20), Origin(m, h31))
  {
    var h10 := Twin(m, h01);
    var h12 := Next(m, h01);
    var h20 := Next(m, h12);
    var h03 := Next(m, h10);
    var h31 := Next(m, h03);
    QuadFacts(m, h01, h01);
    EdgeLaws(m, h01);
    EdgeLaws(m, h10);
    FlipShape(m, h01);
    FlipRecordsOf(FlipSpec(m, h01), m.edges, |m.faces|, h01, h10, h12, h20, h03, h31,
      Origin(m, h01), Origin(m, h10), Origin(m, h20), Origin(m, h31));
  }

  /** A flip changes the edges of v0 and v1 alone, and only away from h01
      and h10. */
  lemma FlipVertexShape(m: MeshState, h01: int, u: int)
    requires AllLinked(m) && 0 <= h01 < |m.edges| && Next(m, Twin(m, h01)) != Twin(m, h01)
    ensures var r := FlipSpec(m, h01);
      var h10 := Twin(m, h01);
      var v0, v1 := Origin(m, h01), Origin(m, h10);
      (IsVertex(r, u) <==> IsVertex(m, u)) &&
      (IsVertex(m, u) ==>
        (VertexEdge(r, u) ==
         if u == v0 && VertexEdge(m, u) == h01 then Next(m, h10)
         else if u == v1 && VertexEdge(m, u) == h10 then Next(m, h01)
         else VertexEdge(m, u)))
  {
    var n, f := |m.edges|, |m.faces|;
    var h12 := Next(m, h01);
    var h20 := Next(m, h12);
    var h10 := Twin(m, h01);
    var h03 := Next(m, h10);
    var h31 := Next(m, h03);
    var v0, v1 := Origin(m, h01), Origin(m, h10);
    assert Linked(m, h01) && Linked(m, h10);
    var r := FlipSpec(m, h01);
    var m1 := MeshState(r.edges, r.faces, m.vertices, m.upperLeftEdge, m.rightEdge);
    assert IsVertex(m1, u) <==> IsVertex(m, u);
    assert IsVertex(m, u) ==> VertexEdge(m1, u) == VertexEdge(m, u);
    var m2 := Repair(m1, v0, h01, h03);
    RepairVertex(m1, v0, h01, h03, u);
    RepairVertex(m2, v1, h10, h12, u);
    assert r == Repair(m2, v1, h10, h12);
  }

  /** An older half-edge after a flip has all its references set. */
  lemma FlipLinkedOld(m: MeshState, h01: int, h: int)
    requires MeshValid(m) && InUse(m, h01) && 0 <= h < |m.edges|
    ensures Linked(FlipSpec(m, h01), h)
  {
    var h10 := Twin(m, h01);
    var h12 := Next(m, h01);
    var h03 := Next(m, h10);
    EdgeLaws(m, h01);
    EdgeLaws(m, h10);
    assert Linked(m, h12) && Linked(m, h03) && Linked(m, h);
    FlipShape(m, h01);
    FlipKeptRecord(m.edges, |m.faces|, h01, h10, h12, Next(m, h12), h03, Next(m, h03),
      Origin(m, Next(m, h12)), Origin(m, Next(m, h03)), h);
    FlipVertexShape(m, h01, m.edges[h].origin);
  }

  /** The two new half-edges of a flip have all their references set. */
  lemma FlipLinkedNew(m: MeshState, h01: int, h: int)
    requires MeshValid(m) && InUse(m, h01) && |m.edges| <= h < |m.edges| + 2
    ensures Linked(FlipSpec(m, h01), h)
  {
    var h10 := Twin(m, h01);
    var h12 := Next(m, h01);
    var h20 := Next(m, h12);
    var h03 := Next(m, h10);
    var h31 := Next(m, h03);
    EdgeLaws(m, h01);
    EdgeLaws(m, h10);
    assert Linked(m, h20) && Linked(m, h31);
    FlipRecordsHold(m, h01);
    FlipVertexShape(m, h01, Origin(m, h20));
    FlipVertexShape(m, h01, Origin(m, h31));
    FlipNewEdgeLinked(FlipSpec(m, h01), |m.edges|, |m.faces|, h12, h20, h03, h31, Origin(m, h20), Origin(m, h31), h);
  }

  /** The two new records of a flip are linked in r. */
  lemma FlipNewEdgeLinked(r: MeshState, n: int, f: int, h12: int, h20: int, h03: int, h31: int,
                          v2: int, v3: int, h: int)
    requires 0 <= n && |r.edges| == n + 2 && |r.faces| == f + 2 && 0 <= f
    requires 0 <= h12 < n && 0 <= h20 < n && 0 <= h03 < n && 0 <= h31 < n
    requires IsVertex(r, v2) && IsVertex(r, v3)
    requires r.edges[n] == HalfEdge(n + 1, h31, h12, v2, f + 1, true)
    requires r.edges[n + 1] == HalfEdge(n, h20, h03, v3, f, true)
    requires n <= h < n + 2
    ensures Linked(r, h)
  {
  }

  lemma FlipLinked(m: MeshState, h01: int)
    requires MeshValid(m) && InUse(m, h01)
    ensures AllLinked(FlipSpec(m, h01))
  {
    var r := FlipSpec(m, h01);
    var n := |m.edges|;
    FlipShape(m, h01);
    forall h | 0 <= h < |r.edges| ensures Linked(r, h) {
      if h < n {
        FlipLinkedOld(m, h01, h);
      } else {
        FlipLinkedNew(m, h01, h);
      }
    }
    forall k | 0 <= k < |r.faces| ensures 0 <= r.faces[k].edge < |r.edges| {
      if k < |m.faces| {
        assert r.faces[k] == m.faces[k];
      }
    }
  }

  /** Every vertex's edge is in use after the flip and still leaves it. */
  lemma FlipVertex(m: MeshState, h01: int, u: int)
    requires MeshValid(m) && InUse(m, h01) && IsVertex(m, u)
    ensures IsVertex(FlipSpec(m, h01), u)
    ensures var r := FlipSpec(m, h01); InUse(r, VertexEdge(r, u)) && Origin(r, VertexEdge(r, u)) == u
  {
    var h10 := Twin(m, h01);
    var h12 := Next(m, h01);
    var h20 := Next(m, h12);
    var h03 := Next(m, h10);
    var h31 := Next(m, h03);
    QuadFacts(m, h01, h01);
    EdgeLaws(m, h01);
    EdgeLaws(m, h10);
    FlipShape(m, h01);
    FlipVertexShape(m, h01, u);
    var g := VertexEdge(m, u);
    assert InUse(m, g) && Origin(m, g) == u;
    FlipVertexFrom(FlipSpec(m, h01), m.edges, |m.faces|, h01, h10, h12, h20, h03, h31,
      Origin(m, h01), Origin(m, h10), Origin(m, h20), Origin(m, h31), u, g);
  }

  /** A vertex's edge after the flip is in use and leaves it, given where
      the flip sends it and its edge g before. */
  lemma FlipVertexFrom(r: MeshState, e: seq<HalfEdge>, f: int, h01: int, h10: int, h12: int, h20: int, h03: int, h31: int,
                       v0: int, v1: int, v2: int, v3: int, u: int, g: int)
    requires 0 <= h01 < |e| && 0 <= h10 < |e| && 0 <= h12 < |e| && 0 <= h20 < |e| && 0 <= h03 < |e| && 0 <= h31 < |e|
    requires h12 != h01 && h12 != h10 && h03 != h01 && h03 != h10
    requires r.edges == FlipEdgesOf(e, f, h01, h10, h12, h20, h03, h31, v2, v3)
    requires e[h01].origin == v0 && e[h10].origin == v1 && v0 != v1
    requires e[h03].origin == v0 && e[h12].origin == v1 && e[h03].inUse && e[h12].inUse
    requires IsVertex(r, u)
    requires 0 <= g < |e| && e[g].inUse && e[g].origin == u
    requires VertexEdge(r, u) == if u == v0 && g == h01 then h03 else if u == v1 && g == h10 then h12 else g
    ensures InUse(r, VertexEdge(r, u)) && r.edges[VertexEdge(r, u)].origin == u
  {
    if u == v0 && g == h01 {
      FlipKeptRecord(e, f, h01, h10, h12, h20, h03, h31, v2, v3, h03);
    } else if u == v1 && g == h10 {
      FlipKeptRecord(e, f, h01, h10, h12, h20, h03, h31, v2, v3, h12);
    } else {
      FlipKeptRecord(e, f, h01, h10, h12, h20, h03, h31, v2, v3, g);
    }
  }

  lemma FlipVertices(m: MeshState, h01: int)
    requires MeshValid(m) && InUse(m, h01)
    ensures VertexEdgesOk(FlipSpec(m, h01))
  {
    var r := FlipSpec(m, h01);
    FlipShape(m, h01);
    EdgeLaws(m, h01);
    EdgeLaws(m, Twin(m, h01));
    FlipVertex(m, h01, -2);
    FlipVertex(m, h01, -1);
    forall i | 0 <= i < |r.vertices| && r.vertices[i].Some?
      ensures InUse(r, r.vertices[i].value) && r.edges[r.vertices[i].value].origin == i
    {
      assert IsVertex(r, i);
      FlipVertexShape(m, h01, i);
      FlipVertex(m, h01, i);
    }
  }

  /** An in-use edge outside the two triangles keeps its laws. */
  lemma FlipKeepsOther(m: MeshState, h01: int, h: int)
    requires MeshValid(m) && InUse(m, h01) && AllLinked(FlipSpec(m, h01))
    requires InUse(m, h) && h !in {h01, Next(m, h01), Next(m, Next(m, h01)),
      Twin(m, h01), Next(m, Twin(m, h01)), Next(m, Next(m, Twin(m, h01)))}
    ensures EdgeOk(FlipSpec(m, h01), h)
  {
    var h10 := Twin(m, h01);
    var h12 := Next(m, h01);
    var h20 := Next(m, h12);
    var h03 := Next(m, h10);
    var h31 := Next(m, h03);
    QuadFacts(m, h01, h);
    EdgeLaws(m, h01);
    EdgeLaws(m, h);
    var e := m.edges[h];
    QuadFacts(m, h01, e.next);
    var v2, v3 := Origin(m, h20), Origin(m, h31);
    var f := |m.faces|;
    FlipShape(m, h01);
    FlipUntouched(m.edges, f, h01, h10, h12, h20, h03, h31, v2, v3, h);
    FlipUntouched(m.edges, f, h01, h10, h12, h20, h03, h31, v2, v3, e.next);
    FlipUntouched(m.edges, f, h01, h10, h12, h20, h03, h31, v2, v3, e.prev);
    FlipKeptRecord(m.edges, f, h01, h10, h12, h20, h03, h31, v2, v3, e.twin);
    var r := FlipSpec(m, h01);
    assert r.faces[e.face] == m.faces[e.face];
  }

  /** A kept half-edge of the quad obeys the edge laws when its twin still
      answers to it and starts where its new successor does. */
  lemma FlipKeptEdgeOk(r: MeshState, n: int, f: int, h12: int, h20: int, h03: int, h31: int,
                       v0: int, v1: int, v2: int, v3: int, h: int)
    requires FlipRecords(r, n, f, h12, h20, h03, h31, v0, v1, v2, v3) && AllLinked(r)
    requires h in {h12, h20, h03, h31}
    requires var t := r.edges[h].twin;
      InUse(r, t) && r.edges[t].twin == h &&
      r.edges[t].origin == r.edges[r.edges[h].next].origin && r.edges[h].origin != r.edges[t].origin
    ensures EdgeOk(r, h)
  {
    assert Linked(r, h);
  }

  /** A kept half-edge of the quad obeys the edge laws after the flip, given
      what the mesh before it says about its twin. */
  lemma FlipKeptQuadOk(r: MeshState, e: seq<HalfEdge>, f: int, h01: int, h10: int, h12: int, h20: int, h03: int, h31: int,
                       v0: int, v1: int, v2: int, v3: int, h: int)
    requires 0 <= h01 < |e| && 0 <= h10 < |e| && 0 <= h12 < |e| && 0 <= h20 < |e| && 0 <= h03 < |e| && 0 <= h31 < |e|
    requires r.edges == FlipEdgesOf(e, f, h01, h10, h12, h20, h03, h31, v2, v3)
    requires FlipRecords(r, |e|, f, h12, h20, h03, h31, v0, v1, v2, v3) && AllLinked(r)
    requires h in {h12, h20, h03, h31}
    requires var t := e[h].twin;
      0 <= t < |e| && e[t].twin == h && e[t].inUse && t != h01 && t != h10 && e[h].origin != e[t].origin &&
      e[t].origin == (if h == h12 then v2 else if h == h20 then v0 else if h == h03 then v3 else v1)
    ensures EdgeOk(r, h)
  {
    var t := e[h].twin;
    FlipKeptRecord(e, f, h01, h10, h12, h20, h03, h31, v2, v3, h);
    FlipKeptRecord(e, f, h01, h10, h12, h20, h03, h31, v2, v3, t);
    FlipKeptEdgeOk(r, |e|, f, h12, h20, h03, h31, v0, v1, v2, v3, h);
  }

  /** The four surviving edges of the two triangles keep their laws, given
      that the new diagonal joins two distinct vertices. */
  lemma FlipKeepsQuad(m: MeshState, h01: int, h: int)
    requires MeshValid(m) && InUse(m, h01) && AllLinked(FlipSpec(m, h01))
    requires Origin(m, Next(m, Next(m, h01))) != Origin(m, Next(m, Next(m, Twin(m, h01))))
    requires h in {Next(m, h01), Next(m, Next(m, h01)), Next(m, Twin(m, h01)), Next(m, Next(m, Twin(m, h01)))}
    ensures EdgeOk(FlipSpec(m, h01), h)
  {
    var h10 := Twin(m, h01);
    var h12 := Next(m, h01);
    var h20 := Next(m, h12);
    var h03 := Next(m, h10);
    var h31 := Next(m, h03);
    QuadFacts(m, h01, h01);
    EdgeLaws(m, h01);
    EdgeLaws(m, h10);
    EdgeLaws(m, h);
    FlipRecordsHold(m, h01);
    FlipShape(m, h01);
    FlipKeptQuadOk(FlipSpec(m, h01), m.edges, |m.faces|, h01, h10, h12, h20, h03, h31,
      Origin(m, h01), Origin(m, h10), Origin(m, h20), Origin(m, h31), h);
  }

  /** A new half-edge of a flip obeys the edge laws when the diagonal joins
      two distinct vertices. */
  lemma FlipNewEdgeOk(r: MeshState, n: int, f: int, h12: int, h20: int, h03: int, h31: int,
                      v0: int, v1: int, v2: int, v3: int, h: int)
    requires FlipRecords(r, n, f, h12, h20, h03, h31, v0, v1, v2, v3) && AllLinked(r)
    requires v2 != v3
    requires h == n || h == n + 1
    ensures EdgeOk(r, h)
  {
    assert Linked(r, h);
  }

  /** The new diagonal obeys the laws. */
  lemma FlipNewEdges(m: MeshState, h01: int, h: int)
    requires MeshValid(m) && InUse(m, h01) && AllLinked(FlipSpec(m, h01))
    requires Origin(m, Next(m, Next(m, h01))) != Origin(m, Next(m, Next(m, Twin(m, h01))))
    requires h == |m.edges| || h == |m.edges| + 1
    ensures EdgeOk(FlipSpec(m, h01), h)
  {
    var h10 := Twin(m, h01);
    var h12 := Next(m, h01);
    var h20 := Next(m, h12);
    var h03 := Next(m, h10);
    var h31 := Next(m, h03);
    EdgeLaws(m, h01);
    EdgeLaws(m, h10);
    FlipRecordsHold(m, h01);
    FlipNewEdgeOk(FlipSpec(m, h01), |m.edges|, |m.faces|, h12, h20, h03, h31,
      Origin(m, h01), Origin(m, h10), Origin(m, h20), Origin(m, h31), h);
  }

  /** flip keeps the mesh valid when the new diagonal v2,v3 joins two
      distinct vertices. */
  lemma FlipValid(m: MeshState, h01: int)
    requires MeshValid(m) && InUse(m, h01)
    requires Origin(m, Next(m, Next(m, h01))) != Origin(m, Next(m, Next(m, Twin(m, h01))))
    ensures MeshValid(FlipSpec(m, h01))
  {
    var r := FlipSpec(m, h01);
    var n := |m.edges|;
    FlipLinked(m, h01);
    FlipVertices(m, h01);
    FlipShape(m, h01);
    var quad := {Next(m, h01), Next(m, Next(m, h01)), Next(m, Twin(m, h01)), Next(m, Next(m, Twin(m, h01)))};
    forall h | 0 <= h < |r.edges| && r.edges[h].inUse
      ensures EdgeOk(r, h)
    {
      if h >= n {
        FlipNewEdges(m, h01, h);
      } else if h in quad {
        FlipKeepsQuad(m, h01, h);
      } else {
        assert Linked(m, h01) && Linked(m, Twin(m, h01)) && Linked(m, Next(m, h01)) && Linked(m, Next(m, Twin(m, h01)));
        FlipKeptRecord(m.edges, |m.faces|, h01, Twin(m, h01), Next(m, h01), Next(m, Next(m, h01)),
          Next(m, Twin(m, h01)), Next(m, Next(m, Twin(m, h01))),
          Origin(m, Next(m, Next(m, h01))), Origin(m, Next(m, Next(m, Twin(m, h01)))), h);
        assert h != h01 && h != Twin(m, h01);
        FlipKeepsOther(m, h01, h);
      }
    }
  }

  /** The two new faces of a flip have no history node yet; the new
      half-edge h23 joins v2 to v3, the apexes of the two triangles, lies
      on the second new face and closes a 3-cycle, and its twin h32 lies on
      the first. */
  lemma FlipFaces(m: MeshState, h01: int)
    requires MeshValid(m) && InUse(m, h01)
    ensures var r := FlipSpec(m, h01); var n, f := |m.edges|, |m.faces|;
      var v2, v3 := Origin(m, Next(m, Next(m, h01))), Origin(m, Next(m, Next(m, Twin(m, h01))));
      AllLinked(r) && |r.edges| == n + 2 && |r.faces| == f + 2 && r.faces[..f] == m.faces &&
      r.edges[n].face == f + 1 && r.edges[n].twin == n + 1 && r.edges[n + 1].face == f &&
      r.edges[n].origin == v2 && r.edges[n + 1].origin == v3 &&
      Next(r, Next(r, Next(r, n))) == n &&
      r.faces[f].data.None? && r.faces[f + 1].data.None?
  {
    FlipLinked(m, h01);
    FlipShape(m, h01);
    FlipRecordsHold(m, h01);
  }

  /** The two new faces are the triangles {v1,v2,v3} (of h23) and
      {v0,v3,v2} (of its twin h32). */
  lemma FlipFaceTriangles(m: MeshState, h01: int)
    requires MeshValid(m) && InUse(m, h01)
    ensures var r := FlipSpec(m, h01); var f := |m.faces|;
      var v0, v1 := Origin(m, h01), Origin(m, Twin(m, h01));
      var v2, v3 := Origin(m, Next(m, Next(m, h01))), Origin(m, Next(m, Next(m, Twin(m, h01))));
      AllLinked(r) && |r.faces| == f + 2 &&
      CalcTriangleOf(r, f + 1) == Success(Canonical([v1, v2, v3])) &&
      CalcTriangleOf(r, f) == Success(Canonical([v0, v3, v2]))
  {
    FlipLinked(m, h01);
    FlipShape(m, h01);
    FlipRecordsHold(m, h01);
  }

  /** splitTriangles where the new point i4 lies on the edge h01 shared by
      the triangles v0,v1,v2 (cycle h01, h12, h20) and v1,v0,v3 (cycle h10,
      h03, h31), with the four new cycles linked (the links Dcel.java leaves
      out; see SplitTrianglesAsWritten). With n = |edges| and F = |faces|,
      the new half-edges are h04 = n, h40 = n+1, h14 = n+2, h41 = n+3,
      h24 = n+4, h42 = n+5, h34 = n+6, h43 = n+7 and the new faces
      f042 = F, f412 = F+1, f143 = F+2, f403 = F+3. */
  function SplitTrianglesSpec(m: MeshState, h01: int, i4: int): (r: MeshState)
    requires AllLinked(m) && 0 <= h01 < |m.edges| && 0 <= i4 < |m.vertices|
  {
    var h10 := Twin(m, h01);
    assert Linked(m, h01) && Linked(m, h10);
    SplitTrianglesSpecOf(m, SplitTrianglesEdges(m, h01, i4), Origin(m, h01), h01, Origin(m, h10), h10, i4)
  }

  /** SplitTrianglesSpec once its half-edges e are known: four faces are
      added and the vertices v0 and v1 of the split edge h01, h10 are
      repaired before i4 gets its edge h40. */
  function SplitTrianglesSpecOf(m: MeshState, e: seq<HalfEdge>, v0: int, h01: int, v1: int, h10: int, i4: int): (r: MeshState)
    requires IsVertex(m, v0) && IsVertex(m, v1) && 0 <= i4 < |m.vertices|
    ensures r.edges == e && |r.vertices| == |m.vertices|
  {
    var n, f := |m.edges|, |m.faces|;
    var m1 := MeshState(e, m.faces + [Face(n, None), Face(n + 3, None), Face(n + 2, None), Face(n + 1, None)],
      m.vertices, m.upperLeftEdge, m.rightEdge);
    var m2 := Repair(m1, v0, h01, n);
    var m3 := Repair(m2, v1, h10, n + 2);
    m3.(vertices := m3.vertices[i4 := Some(n + 1)])
  }

  /** The half-edges after splitTriangles. */
  function SplitTrianglesEdges(m: MeshState, h01: int, i4: int): seq<HalfEdge>
    requires AllLinked(m) && 0 <= h01 < |m.edges|
  {
    var h12 := Next(m, h01);
    var h20 := Next(m, h12);
    var h10 := Twin(m, h01);
    var h03 := Next(m, h10);
    var h31 := Next(m, h03);
    SplitTrianglesEdgesOf(m.edges, |m.faces|, h01, h10, h12, h20, h03, h31,
      Origin(m, h01), Origin(m, h10), Origin(m, h20), Origin(m, h31), i4)
  }

  /** SplitTrianglesEdges with the handles of the quad given. */
  function SplitTrianglesEdgesOf(e: seq<HalfEdge>, f: int, h01: int, h10: int, h12: int, h20: int, h03: int, h31: int,
                                 v0: int, v1: int, v2: int, v3: int, i4: int): seq<HalfEdge>
    requires 0 <= h01 < |e| && 0 <= h10 < |e| && 0 <= h12 < |e| && 0 <= h20 < |e| && 0 <= h03 < |e| && 0 <= h31 < |e|
  {
    var n := |e|;
    var e1 := e[h20 := e[h20].(next := n, prev := n + 5, face := f)];
    var e2 := e1[h12 := e1[h12].(next := n + 4, prev := n + 3, face := f + 1)];
    var e3 := e2[h31 := e2[h31].(next := n + 2, prev := n + 7, face := f + 2)];
    var e4 := e3[h03 := e3[h03].(next := n + 6, prev := n + 1, face := f + 3)];
    var e5 := e4[h01 := e4[h01].(inUse := false)];
    var e6 := e5[h10 := e5[h10].(inUse := false)];
    e6 + [
      HalfEdge(n + 1, n + 5, h20, v0, f, true),       // h04
      HalfEdge(n, h03, n + 6, i4, f + 3, true),       // h40
      HalfEdge(n + 3, n + 7, h31, v1, f + 2, true),   // h14
      HalfEdge(n + 2, h12, n + 4, i4, f + 1, true),   // h41
      HalfEdge(n + 5, n + 3, h12, v2, f + 1, true),   // h24
      HalfEdge(n + 4, h20, n, i4, f, true),           // h42
      HalfEdge(n + 7, n + 1, h03, v3, f + 3, true),   // h34
      HalfEdge(n + 6, h31, n + 2, i4, f + 2, true)]   // h43
  }

  /** The older records of SplitTrianglesEdgesOf keep their twin and origin,
      lose their use only at h01 and h10, and point into the grown arenas. */
  lemma SplitTrianglesKeptRecord(e: seq<HalfEdge>, f: int, h01: int, h10: int, h12: int, h20: int, h03: int, h31: int,
                                v0: int, v1: int, v2: int, v3: int, i4: int, h: int)
    requires 0 <= h01 < |e| && 0 <= h10 < |e| && 0 <= h12 < |e| && 0 <= h20 < |e| && 0 <= h03 < |e| && 0 <= h31 < |e|
    requires 0 <= h < |e|
    ensures var r := SplitTrianglesEdgesOf(e, f, h01, h10, h12, h20, h03, h31, v0, v1, v2, v3, i4); var n := |e|;
      |r| == n + 8 && r[h].twin == e[h].twin && r[h].origin == e[h].origin &&
      (r[h].inUse <==> e[h].inUse && h != h01 && h != h10) &&
      (r[h].next == e[h].next || n <= r[h].next < n + 8) &&
      (r[h].prev == e[h].prev || n <= r[h].prev < n + 8) &&
      (r[h].face == e[h].face || f <= r[h].face < f + 4)
  {
  }

  /** A record of SplitTrianglesEdgesOf outside the two triangles is left
      as it was. */
  lemma SplitTrianglesUntouched(e: seq<HalfEdge>, f: int, h01: int, h10: int, h12: int, h20: int, h03: int, h31: int,
                                v0: int, v1: int, v2: int, v3: int, i4: int, h: int)
    requires 0 <= h01 < |e| && 0 <= h10 < |e| && 0 <= h12 < |e| && 0 <= h20 < |e| && 0 <= h03 < |e| && 0 <= h31 < |e|
    requires 0 <= h < |e| && h != h01 && h != h10 && h != h12 && h != h20 && h != h03 && h != h31
    ensures SplitTrianglesEdgesOf(e, f, h01, h10, h12, h20, h03, h31, v0, v1, v2, v3, i4)[h] == e[h]
  {
  }

  /** The eight new records of SplitTrianglesEdgesOf. */
  lemma SplitTrianglesAddedRecords(e: seq<HalfEdge>, f: int, h01: int, h10: int, h12: int, h20: int, h03: int, h31: int,
                                 v0: int, v1: int, v2: int, v3: int, i4: int)
    requires 0 <= h01 < |e| && 0 <= h10 < |e| && 0 <= h12 < |e| && 0 <= h20 < |e| && 0 <= h03 < |e| && 0 <= h31 < |e|
    ensures var r := SplitTrianglesEdgesOf(e, f, h01, h10, h12, h20, h03, h31, v0, v1, v2, v3, i4); var n := |e|;
      |r| == n + 8 &&
      r[n] == HalfEdge(n + 1, n + 5, h20, v0, f, true) &&
      r[n + 1] == HalfEdge(n, h03, n + 6, i4, f + 3, true) &&
      r[n + 2] == HalfEdge(n + 3, n + 7, h31, v1, f + 2, true) &&
      r[n + 3] == HalfEdge(n + 2, h12, n + 4, i4, f + 1, true) &&
      r[n + 4] == HalfEdge(n + 5, n + 3, h12, v2, f + 1, true) &&
      r[n + 5] == HalfEdge(n + 4, h20, n, i4, f, true) &&
      r[n + 6] == HalfEdge(n + 7, n + 1, h03, v3, f + 3, true) &&
      r[n + 7] == HalfEdge(n + 6, h31, n + 2, i4, f + 2, true)
  {
  }

  /** The six records of the two triangles in SplitTrianglesEdgesOf, when
      they are six different half-edges. */
  lemma SplitTrianglesQuadRecords(e: seq<HalfEdge>, f: int, h01: int, h10: int, h12: int, h20: int, h03: int, h31: int,
                                  v0: int, v1: int, v2: int, v3: int, i4: int)
    requires 0 <= h01 < |e| && 0 <= h10 < |e| && 0 <= h12 < |e| && 0 <= h20 < |e| && 0 <= h03 < |e| && 0 <= h31 < |e|
    requires h01 != h12 && h01 != h20 && h12 != h20 && h10 != h03 && h10 != h31 && h03 != h31 &&
      h01 != h10 && h01 != h03 && h01 != h31 && h12 != h10 && h12 != h03 && h12 != h31 &&
      h20 != h10 && h20 != h03 && h20 != h31
    ensures var r := SplitTrianglesEdgesOf(e, f, h01, h10, h12, h20, h03, h31, v0, v1, v2, v3, i4); var n := |e|;
      |r| == n + 8 &&
      r[h20] == e[h20].(next := n, prev := n + 5, face := f) &&
      r[h12] == e[h12].(next := n + 4, prev := n + 3, face := f + 1) &&
      r[h31] == e[h31].(next := n + 2, prev := n + 7, face := f + 2) &&
      r[h03] == e[h03].(next := n + 6, prev := n + 1, face := f + 3) &&
      r[h01] == e[h01].(inUse := false) &&
      r[h10] == e[h10].(inUse := false)
  {
  }

  /** The records splitTriangles leaves on its eight new half-edges, on the
      four kept half-edges of the two triangles and on its four new faces. */
  predicate SplitRecords(r: MeshState, n: int, f: int, h12: int, h20: int, h03: int, h31: int,
                         v0: int, v1: int, v2: int, v3: int, i4: int)
  {
    0 <= n && 0 <= f && |r.edges| == n + 8 && |r.faces| == f + 4 &&
    0 <= h12 < n && 0 <= h20 < n && 0 <= h03 < n && 0 <= h31 < n &&
    r.edges[n] == HalfEdge(n + 1, n + 5, h20, v0, f, true) &&
    r.edges[n + 1] == HalfEdge(n, h03, n + 6, i4, f + 3, true) &&
    r.edges[n + 2] == HalfEdge(n + 3, n + 7, h31, v1, f + 2, true) &&
    r.edges[n + 3] == HalfEdge(n + 2, h12, n + 4, i4, f + 1, true) &&
    r.edges[n + 4] == HalfEdge(n + 5, n + 3, h12, v2, f + 1, true) &&
    r.edges[n + 5] == HalfEdge(n + 4, h20, n, i4, f, true) &&
    r.edges[n + 6] == HalfEdge(n + 7, n + 1, h03, v3, f + 3, true) &&
    r.edges[n + 7] == HalfEdge(n + 6, h31, n + 2, i4, f + 2, true) &&
    r.edges[h20].next == n && r.edges[h20].prev == n + 5 && r.edges[h20].face == f &&
    r.edges[h20].origin == v2 && r.edges[h20].inUse &&
    r.edges[h12].next == n + 4 && r.edges[h12].prev == n + 3 && r.edges[h12].face == f + 1 &&
    r.edges[h12].origin == v1 && r.edges[h12].inUse &&
    r.edges[h31].next == n + 2 && r.edges[h31].prev == n + 7 && r.edges[h31].face == f + 2 &&
    r.edges[h31].origin == v3 && r.edges[h31].inUse &&
    r.edges[h03].next == n + 6 && r.edges[h03].prev == n + 1 && r.edges[h03].face == f + 3 &&
    r.edges[h03].origin == v0 && r.edges[h03].inUse &&
    r.faces[f].edge == n && r.faces[f + 1].edge == n + 3 &&
    r.faces[f + 2].edge == n + 2 && r.faces[f + 3].edge == n + 1
  }

  /** SplitTrianglesEdgesOf leaves the records SplitRecords names when the
      six handles differ and the four kept ones are in use with the corners
      as origins. */
  lemma SplitRecordsOf(r: MeshState, e: seq<HalfEdge>, f: int, h01: int, h10: int, h12: int, h20: int, h03: int, h31: int,
                       v0: int, v1: int, v2: int, v3: int, i4: int)
    requires 0 <= h01 < |e| && 0 <= h10 < |e| && 0 <= h12 < |e| && 0 <= h20 < |e| && 0 <= h03 < |e| && 0 <= h31 < |e|
    requires h01 != h12 && h01 != h20 && h12 != h20 && h10 != h03 && h10 != h31 && h03 != h31 &&
      h01 != h10 && h01 != h03 && h01 != h31 && h12 != h10 && h12 != h03 && h12 != h31 &&
      h20 != h10 && h20 != h03 && h20 != h31
    requires e[h12].origin == v1 && e[h20].origin == v2 && e[h03].origin == v0 && e[h31].origin == v3
    requires e[h12].inUse && e[h20].inUse && e[h03].inUse && e[h31].inUse
    requires r.edges == SplitTrianglesEdgesOf(e, f, h01, h10, h12, h20, h03, h31, v0, v1, v2, v3, i4)
    requires 0 <= f && |r.faces| == f + 4
    requires r.faces[f].edge == |e| && r.faces[f + 1].edge == |e| + 3 &&
      r.faces[f + 2].edge == |e| + 2 && r.faces[f + 3].edge == |e| + 1
    ensures SplitRecords(r, |e|, f, h12, h20, h03, h31, v0, v1, v2, v3, i4)
  {
    SplitTrianglesQuadRecords(e, f, h01, h10, h12, h20, h03, h31, v0, v1, v2, v3, i4);
    SplitTrianglesAddedRecords(e, f, h01, h10, h12, h20, h03, h31, v0, v1, v2, v3, i4);
  }

  /** splitTriangles leaves the records SplitRecords names. */
  lemma SplitRecordsHold(m: MeshState, h01: int, i4: int)
    requires MeshValid(m) && InUse(m, h01) && 0 <= i4 < |m.vertices|
    ensures var h12 := Next(m, h01); var h20 := Next(m, h12);
      var h10 := Twin(m, h01); var h03 := Next(m, h10); var h31 := Next(m, h03);
      SplitRecords(SplitTrianglesSpec(m, h01, i4), |m.edges|, |m.faces|, h12, h20, h03, h31,
        Origin(m, h01), Origin(m, h10), Origin(m, h20), Origin(m, h31), i4)
  {
    var h10 := Twin(m, h01);
    var h12 := Next(m, h01);
    var h20 := Next(m, h12);
    var h03 := Next(m, h10);
    var h31 := Next(m, h03);
    QuadFacts(m, h01, h01);
    EdgeLaws(m, h01);
    EdgeLaws(m, h10);
    SplitTrianglesShape(m, h01, i4);
    SplitRecordsOf(SplitTrianglesSpec(m, h01, i4), m.edges, |m.faces|, h01, h10, h12, h20, h03, h31,
      Origin(m, h01), Origin(m, h10), Origin(m, h20), Origin(m, h31), i4);
  }

  /** A new half-edge obeys the edge laws when i4 differs from the four
      corners of the quad. */
  lemma SplitNewEdgeOk(r: MeshState, n: int, f: int, h12: int, h20: int, h03: int, h31: int,
                       v0: int, v1: int, v2: int, v3: int, i4: int, h: int)
    requires SplitRecords(r, n, f, h12, h20, h03, h31, v0, v1, v2, v3, i4) && AllLinked(r)
    requires v0 != i4 && v1 != i4 && v2 != i4 && v3 != i4
    requires n <= h < n + 8
    ensures EdgeOk(r, h)
  {
    assert Linked(r, h);
    if h == n {
    } else if h == n + 1 {
    } else if h == n + 2 {
    } else if h == n + 3 {
    } else if h == n + 4 {
    } else if h == n + 5 {
    } else if h == n + 6 {
    } else {
    }
  }

  /** A kept half-edge of the two triangles obeys the edge laws when its
      twin still answers to it and starts where its new successor does. */
  lemma SplitKeptEdgeOk(r: MeshState, n: int, f: int, h12: int, h20: int, h03: int, h31: int,
                        v0: int, v1: int, v2: int, v3: int, i4: int, h: int)
    requires SplitRecords(r, n, f, h12, h20, h03, h31, v0, v1, v2, v3, i4) && AllLinked(r)
    requires h in {h12, h20, h03, h31}
    requires var t := r.edges[h].twin;
      InUse(r, t) && r.edges[t].twin == h &&
      r.edges[t].origin == r.edges[r.edges[h].next].origin && r.edges[h].origin != r.edges[t].origin
    ensures EdgeOk(r, h)
  {
    assert Linked(r, h);
  }

  /** The shape of splitTriangles: its edges and faces. */
  lemma SplitTrianglesShape(m: MeshState, h01: int, i4: int)
    requires AllLinked(m) && 0 <= h01 < |m.edges| && 0 <= i4 < |m.vertices|
    ensures var r := SplitTrianglesSpec(m, h01, i4); var n, f := |m.edges|, |m.faces|;
      r.edges == SplitTrianglesEdges(m, h01, i4) &&
      |r.faces| == f + 4 && r.faces[..f] == m.faces &&
      r.faces[f] == Face(n, None) && r.faces[f + 1] == Face(n + 3, None) &&
      r.faces[f + 2] == Face(n + 2, None) && r.faces[f + 3] == Face(n + 1, None) &&
      |r.vertices| == |m.vertices| && r.vertices[i4] == Some(n + 1)
  {
    assert Linked(m, h01) && Linked(m, Twin(m, h01));
  }

  /** splitTriangles gives i4 its vertex and changes the edges of v0 and
      v1 alone, and only away from h01 and h10. */
  lemma SplitTrianglesVertexShape(m: MeshState, h01: int, i4: int, u: int)
    requires AllLinked(m) && 0 <= h01 < |m.edges| && 0 <= i4 < |m.vertices|
    ensures var r := SplitTrianglesSpec(m, h01, i4); var n := |m.edges|;
      var v0, v1 := Origin(m, h01), Origin(m, Twin(m, h01));
      (IsVertex(r, u) <==> IsVertex(m, u) || u == i4) &&
      (u == i4 ==> VertexEdge(r, u) == n + 1) &&
      (IsVertex(m, u) && u != i4 ==>
        (VertexEdge(r, u) ==
         if u == v0 && VertexEdge(m, u) == h01 then n
         else if u == v1 && VertexEdge(m, u) == Twin(m, h01) then n + 2
         else VertexEdge(m, u)))
  {
    var h10 := Twin(m, h01);
    assert Linked(m, h01) && Linked(m, h10);
    SplitSpecOfVertex(m, SplitTrianglesEdges(m, h01, i4), Origin(m, h01), h01, Origin(m, h10), h10, i4, u);
  }

  /** SplitTrianglesSpecOf adds the vertex i4 and moves the edges of v0
      and v1 away from h01 and h10 only. */
  lemma SplitSpecOfVertex(m: MeshState, e: seq<HalfEdge>, v0: int, h01: int, v1: int, h10: int, i4: int, u: int)
    requires IsVertex(m, v0) && IsVertex(m, v1) && 0 <= i4 < |m.vertices| && 0 <= h10 < |m.edges|
    ensures var r := SplitTrianglesSpecOf(m, e, v0, h01, v1, h10, i4); var n := |m.edges|;
      (IsVertex(r, u) <==> IsVertex(m, u) || u == i4) &&
      (u == i4 ==> VertexEdge(r, u) == n + 1) &&
      (IsVertex(m, u) && u != i4 ==>
        (VertexEdge(r, u) ==
         if u == v0 && VertexEdge(m, u) == h01 then n
         else if u == v1 && VertexEdge(m, u) == h10 then n + 2
         else VertexEdge(m, u)))
  {
    var n, f := |m.edges|, |m.faces|;
    var m1 := MeshState(e, m.faces + [Face(n, None), Face(n + 3, None), Face(n + 2, None), Face(n + 1, None)],
      m.vertices, m.upperLeftEdge, m.rightEdge);
    assert IsVertex(m, u) <==> IsVertex(m1, u);
    assert IsVertex(m, u) ==> VertexEdge(m1, u) == VertexEdge(m, u);
    var m2 := Repair(m1, v0, h01, n);
    RepairVertex(m1, v0, h01, n, u);
    RepairVertex(m2, v1, h10, n + 2, u);
  }

  /** An older half-edge after splitTriangles has all its references set. */
  lemma SplitTrianglesLinkedOld(m: MeshState, h01: int, i4: int, h: int)
    requires AllLinked(m) && 0 <= h01 < |m.edges| && 0 <= i4 < |m.vertices|
    requires 0 <= h < |m.edges|
    ensures Linked(SplitTrianglesSpec(m, h01, i4), h)
  {
    var h10 := Twin(m, h01);
    var h12 := Next(m, h01);
    var h03 := Next(m, h10);
    assert Linked(m, h01) && Linked(m, h10) && Linked(m, h12) && Linked(m, h03) && Linked(m, h);
    SplitTrianglesShape(m, h01, i4);
    SplitTrianglesKeptRecord(m.edges, |m.faces|, h01, h10, h12, Next(m, h12), h03, Next(m, h03),
      Origin(m, h01), Origin(m, h10), Origin(m, Next(m, h12)), Origin(m, Next(m, h03)), i4, h);
    SplitTrianglesVertexShape(m, h01, i4, m.edges[h].origin);
  }

  /** A new half-edge of splitTriangles has all its references set. */
  lemma SplitTrianglesLinkedNew(m: MeshState, h01: int, i4: int, h: int)
    requires AllLinked(m) && 0 <= h01 < |m.edges| && 0 <= i4 < |m.vertices|
    requires |m.edges| <= h < |m.edges| + 8
    ensures Linked(SplitTrianglesSpec(m, h01, i4), h)
  {
    var r := SplitTrianglesSpec(m, h01, i4);
    var f := |m.faces|;
    var h10 := Twin(m, h01);
    var h12 := Next(m, h01);
    var h20 := Next(m, h12);
    var h03 := Next(m, h10);
    var h31 := Next(m, h03);
    assert Linked(m, h01) && Linked(m, h10) && Linked(m, h12) && Linked(m, h20) && Linked(m, h03) && Linked(m, h31);
    SplitTrianglesShape(m, h01, i4);
    SplitTrianglesAddedLinked(m.edges, f, h01, h10, h12, h20, h03, h31,
      Origin(m, h01), Origin(m, h10), Origin(m, h20), Origin(m, h31), i4, h);
    SplitTrianglesVertexShape(m, h01, i4, r.edges[h].origin);
  }

  /** The eight new records of SplitTrianglesEdgesOf point into the arenas. */
  lemma SplitTrianglesAddedLinked(e: seq<HalfEdge>, f: int, h01: int, h10: int, h12: int, h20: int, h03: int, h31: int,
                                  v0: int, v1: int, v2: int, v3: int, i4: int, h: int)
    requires 0 <= h01 < |e| && 0 <= h10 < |e| && 0 <= h12 < |e| && 0 <= h20 < |e| && 0 <= h03 < |e| && 0 <= h31 < |e|
    requires |e| <= h < |e| + 8
    ensures var x := SplitTrianglesEdgesOf(e, f, h01, h10, h12, h20, h03, h31, v0, v1, v2, v3, i4)[h]; var n := |e|;
      0 <= x.twin < n + 8 && 0 <= x.next < n + 8 && 0 <= x.prev < n + 8 &&
      f <= x.face < f + 4 && x.origin in {v0, v1, v2, v3, i4}
  {
  }

  lemma SplitTrianglesLinked(m: MeshState, h01: int, i4: int)
    requires MeshValid(m) && InUse(m, h01) && 0 <= i4 < |m.vertices|
    ensures AllLinked(SplitTrianglesSpec(m, h01, i4))
  {
    var r := SplitTrianglesSpec(m, h01, i4);
    SplitTrianglesShape(m, h01, i4);
    forall h | 0 <= h < |r.edges| ensures Linked(r, h) {
      if h < |m.edges| {
        SplitTrianglesLinkedOld(m, h01, i4, h);
      } else {
        SplitTrianglesLinkedNew(m, h01, i4, h);
      }
    }
    forall k | 0 <= k < |r.faces| ensures 0 <= r.faces[k].edge < |r.edges| {
      if k < |m.faces| {
        assert r.faces[k] == m.faces[k];
      }
    }
  }

  /** Every vertex's edge is in use after the split and still leaves it. */
  lemma SplitTrianglesVertex(m: MeshState, h01: int, i4: int, u: int)
    requires MeshValid(m) && InUse(m, h01) && 0 <= i4 < |m.vertices| && m.vertices[i4].None?
    requires IsVertex(SplitTrianglesSpec(m, h01, i4), u)
    ensures var r := SplitTrianglesSpec(m, h01, i4); InUse(r, VertexEdge(r, u)) && Origin(r, VertexEdge(r, u)) == u
  {
    var h10 := Twin(m, h01);
    var h12 := Next(m, h01);
    var h20 := Next(m, h12);
    var h03 := Next(m, h10);
    var h31 := Next(m, h03);
    assert EdgeOk(m, h01) && Linked(m, h10) && Linked(m, h12) && Linked(m, h03);
    SplitTrianglesShape(m, h01, i4);
    SplitTrianglesVertexShape(m, h01, i4, u);
    var g := if u == i4 then 0 else VertexEdge(m, u);
    assert u != i4 ==> InUse(m, g) && Origin(m, g) == u;
    SplitVertexFrom(SplitTrianglesSpec(m, h01, i4), m.edges, |m.faces|, h01, h10, h12, h20, h03, h31,
      Origin(m, h01), Origin(m, h10), Origin(m, h20), Origin(m, h31), i4, u, g);
  }

  /** A vertex's edge after the split is in use and leaves it, given where
      the split sends it and, for an older vertex, its edge g before. */
  lemma SplitVertexFrom(r: MeshState, e: seq<HalfEdge>, f: int, h01: int, h10: int, h12: int, h20: int, h03: int, h31: int,
                        v0: int, v1: int, v2: int, v3: int, i4: int, u: int, g: int)
    requires 0 <= h01 < |e| && 0 <= h10 < |e| && 0 <= h12 < |e| && 0 <= h20 < |e| && 0 <= h03 < |e| && 0 <= h31 < |e|
    requires r.edges == SplitTrianglesEdgesOf(e, f, h01, h10, h12, h20, h03, h31, v0, v1, v2, v3, i4)
    requires e[h01].origin == v0 && e[h10].origin == v1 && v0 != v1
    requires IsVertex(r, u)
    requires u == i4 ==> VertexEdge(r, u) == |e| + 1
    requires u != i4 ==>
      0 <= g < |e| && e[g].inUse && e[g].origin == u &&
      VertexEdge(r, u) == if u == v0 && g == h01 then |e| else if u == v1 && g == h10 then |e| + 2 else g
    ensures InUse(r, VertexEdge(r, u)) && r.edges[VertexEdge(r, u)].origin == u
  {
    SplitTrianglesAddedRecords(e, f, h01, h10, h12, h20, h03, h31, v0, v1, v2, v3, i4);
    if u != i4 && !(u == v0 && g == h01) && !(u == v1 && g == h10) {
      SplitTrianglesKeptRecord(e, f, h01, h10, h12, h20, h03, h31, v0, v1, v2, v3, i4, g);
    }
  }

  lemma SplitTrianglesVertices(m: MeshState, h01: int, i4: int)
    requires MeshValid(m) && InUse(m, h01) && 0 <= i4 < |m.vertices| && m.vertices[i4].None?
    ensures VertexEdgesOk(SplitTrianglesSpec(m, h01, i4))
  {
    var r := SplitTrianglesSpec(m, h01, i4);
    SplitTrianglesShape(m, h01, i4);
    SplitTrianglesVertexShape(m, h01, i4, -2);
    SplitTrianglesVertexShape(m, h01, i4, -1);
    SplitTrianglesVertex(m, h01, i4, -2);
    SplitTrianglesVertex(m, h01, i4, -1);
    forall i | 0 <= i < |r.vertices| && r.vertices[i].Some?
      ensures InUse(r, r.vertices[i].value) && r.edges[r.vertices[i].value].origin == i
    {
      assert IsVertex(r, i);
      SplitTrianglesVertexShape(m, h01, i4, i);
      SplitTrianglesVertex(m, h01, i4, i);
    }
  }

  /** An in-use edge outside the two triangles keeps its laws. */
  lemma SplitTrianglesKeepsOther(m: MeshState, h01: int, i4: int, h: int)
    requires MeshValid(m) && InUse(m, h01) && 0 <= i4 < |m.vertices|
    requires AllLinked(SplitTrianglesSpec(m, h01, i4))
    requires InUse(m, h) && h !in {h01, Next(m, h01), Next(m, Next(m, h01)),
      Twin(m, h01), Next(m, Twin(m, h01)), Next(m, Next(m, Twin(m, h01)))}
    ensures EdgeOk(SplitTrianglesSpec(m, h01, i4), h)
  {
    var h10 := Twin(m, h01);
    var h12 := Next(m, h01);
    var h20 := Next(m, h12);
    var h03 := Next(m, h10);
    var h31 := Next(m, h03);
    QuadFacts(m, h01, h);
    EdgeLaws(m, h01);
    EdgeLaws(m, h);
    var e := m.edges[h];
    QuadFacts(m, h01, e.next);
    var v0, v1, v2, v3 := Origin(m, h01), Origin(m, h10), Origin(m, h20), Origin(m, h31);
    var f := |m.faces|;
    SplitTrianglesShape(m, h01, i4);
    SplitTrianglesUntouched(m.edges, f, h01, h10, h12, h20, h03, h31, v0, v1, v2, v3, i4, h);
    SplitTrianglesUntouched(m.edges, f, h01, h10, h12, h20, h03, h31, v0, v1, v2, v3, i4, e.next);
    SplitTrianglesUntouched(m.edges, f, h01, h10, h12, h20, h03, h31, v0, v1, v2, v3, i4, e.prev);
    SplitTrianglesKeptRecord(m.edges, f, h01, h10, h12, h20, h03, h31, v0, v1, v2, v3, i4, e.twin);
    var r := SplitTrianglesSpec(m, h01, i4);
    assert r.faces[e.face] == m.faces[e.face];
  }

  /** The four surviving edges of the two triangles keep their laws. */
  lemma SplitTrianglesKeepsQuad(m: MeshState, h01: int, i4: int, h: int)
    requires MeshValid(m) && InUse(m, h01) && 0 <= i4 < |m.vertices|
    requires AllLinked(SplitTrianglesSpec(m, h01, i4))
    requires h in {Next(m, h01), Next(m, Next(m, h01)), Next(m, Twin(m, h01)), Next(m, Next(m, Twin(m, h01)))}
    ensures EdgeOk(SplitTrianglesSpec(m, h01, i4), h)
  {
    var h10 := Twin(m, h01);
    var h12 := Next(m, h01);
    var h20 := Next(m, h12);
    var h03 := Next(m, h10);
    var h31 := Next(m, h03);
    QuadFacts(m, h01, h01);
    EdgeLaws(m, h01);
    EdgeLaws(m, h10);
    EdgeLaws(m, h);
    SplitRecordsHold(m, h01, i4);
    SplitTrianglesShape(m, h01, i4);
    SplitKeptQuadOk(SplitTrianglesSpec(m, h01, i4), m.edges, |m.faces|, h01, h10, h12, h20, h03, h31,
      Origin(m, h01), Origin(m, h10), Origin(m, h20), Origin(m, h31), i4, h);
  }

  /** A kept half-edge of the two triangles obeys the edge laws after the
      split, given what the mesh before it says about its twin. */
  lemma SplitKeptQuadOk(r: MeshState, e: seq<HalfEdge>, f: int, h01: int, h10: int, h12: int, h20: int, h03: int, h31: int,
                        v0: int, v1: int, v2: int, v3: int, i4: int, h: int)
    requires 0 <= h01 < |e| && 0 <= h10 < |e| && 0 <= h12 < |e| && 0 <= h20 < |e| && 0 <= h03 < |e| && 0 <= h31 < |e|
    requires r.edges == SplitTrianglesEdgesOf(e, f, h01, h10, h12, h20, h03, h31, v0, v1, v2, v3, i4)
    requires SplitRecords(r, |e|, f, h12, h20, h03, h31, v0, v1, v2, v3, i4) && AllLinked(r)
    requires h in {h12, h20, h03, h31}
    requires var t := e[h].twin;
      0 <= t < |e| && e[t].twin == h && e[t].inUse && t != h01 && t != h10 && e[h].origin != e[t].origin &&
      e[t].origin == (if h == h12 then v2 else if h == h20 then v0 else if h == h03 then v3 else v1)
    ensures EdgeOk(r, h)
  {
    var t := e[h].twin;
    SplitTrianglesKeptRecord(e, f, h01, h10, h12, h20, h03, h31, v0, v1, v2, v3, i4, h);
    SplitTrianglesKeptRecord(e, f, h01, h10, h12, h20, h03, h31, v0, v1, v2, v3, i4, t);
    SplitKeptEdgeOk(r, |e|, f, h12, h20, h03, h31, v0, v1, v2, v3, i4, h);
  }

  /** The eight new edges obey the laws when i4 is a point with no vertex
      yet. */
  lemma SplitTrianglesNewEdges(m: MeshState, h01: int, i4: int, h: int)
    requires MeshValid(m) && InUse(m, h01) && 0 <= i4 < |m.vertices| && m.vertices[i4].None?
    requires AllLinked(SplitTrianglesSpec(m, h01, i4))
    requires |m.edges| <= h < |m.edges| + 8
    ensures EdgeOk(SplitTrianglesSpec(m, h01, i4), h)
  {
    var h10 := Twin(m, h01);
    var h12 := Next(m, h01);
    var h20 := Next(m, h12);
    var h03 := Next(m, h10);
    var h31 := Next(m, h03);
    assert Linked(m, h01) && Linked(m, h10) && Linked(m, h20) && Linked(m, h31);
    SplitRecordsHold(m, h01, i4);
    SplitNewEdgeOk(SplitTrianglesSpec(m, h01, i4), |m.edges|, |m.faces|, h12, h20, h03, h31,
      Origin(m, h01), Origin(m, h10), Origin(m, h20), Origin(m, h31), i4, h);
  }

  /** splitTriangles keeps the mesh valid when i4 is a point with no vertex
      yet. */
  lemma SplitTrianglesValid(m: MeshState, h01: int, i4: int)
    requires MeshValid(m) && InUse(m, h01) && 0 <= i4 < |m.vertices| && m.vertices[i4].None?
    ensures MeshValid(SplitTrianglesSpec(m, h01, i4))
  {
    var r := SplitTrianglesSpec(m, h01, i4);
    var n := |m.edges|;
    SplitTrianglesLinked(m, h01, i4);
    SplitTrianglesVertices(m, h01, i4);
    SplitTrianglesShape(m, h01, i4);
    var quad := {Next(m, h01), Next(m, Next(m, h01)), Next(m, Twin(m, h01)), Next(m, Next(m, Twin(m, h01)))};
    forall h | 0 <= h < |r.edges| && r.edges[h].inUse
      ensures EdgeOk(r, h)
    {
      if h >= n {
        SplitTrianglesNewEdges(m, h01, i4, h);
      } else if h in quad {
        SplitTrianglesKeepsQuad(m, h01, i4, h);
      } else {
        assert h != h01 && h != Twin(m, h01);
        SplitTrianglesKeepsOther(m, h01, i4, h);
      }
    }
  }

  /** The four new faces of splitTriangles have no history node yet; h04
      lies on the first, h41 = h04.next.twin.next on the second, its twin
      h14 on the third and h40, the twin of h04, on the fourth. */
  lemma SplitTrianglesFaces(m: MeshState, h01: int, i4: int)
    requires MeshValid(m) && InUse(m, h01) && 0 <= i4 < |m.vertices|
    ensures var r := SplitTrianglesSpec(m, h01, i4); var n, f := |m.edges|, |m.faces|;
      AllLinked(r) && |r.edges| == n + 8 && |r.faces| == f + 4 && r.faces[..f] == m.faces &&
      var h41 := Next(r, Twin(r, Next(r, n)));
      h41 == n + 3 && Twin(r, h41) == n + 2 && Twin(r, n) == n + 1 &&
      r.edges[n].face == f && r.edges[n + 3].face == f + 1 &&
      r.edges[n + 2].face == f + 2 && r.edges[n + 1].face == f + 3 &&
      r.faces[f].data.None? && r.faces[f + 1].data.None? &&
      r.faces[f + 2].data.None? && r.faces[f + 3].data.None?
  {
    SplitTrianglesLinked(m, h01, i4);
    SplitTrianglesShape(m, h01, i4);
    SplitRecordsHold(m, h01, i4);
  }

  /** The four new faces are the triangles {v0,i4,v2}, {i4,v1,v2},
      {v1,i4,v3} and {i4,v0,v3}. */
  lemma SplitTrianglesFaceTriangles(m: MeshState, h01: int, i4: int)
    requires MeshValid(m) && InUse(m, h01) && 0 <= i4 < |m.vertices|
    ensures var r := SplitTrianglesSpec(m, h01, i4); var f := |m.faces|;
      var v0, v1 := Origin(m, h01), Origin(m, Twin(m, h01));
      var v2, v3 := Origin(m, Next(m, Next(m, h01))), Origin(m, Next(m, Next(m, Twin(m, h01))));
      AllLinked(r) && |r.faces| == f + 4 &&
      CalcTriangleOf(r, f) == Success(Canonical([v0, i4, v2])) &&
      CalcTriangleOf(r, f + 1) == Success(Canonical([i4, v1, v2])) &&
      CalcTriangleOf(r, f + 2) == Success(Canonical([v1, i4, v3])) &&
      CalcTriangleOf(r, f + 3) == Success(Canonical([i4, v0, v3]))
  {
    SplitTrianglesLinked(m, h01, i4);
    SplitTrianglesShape(m, h01, i4);
    SplitRecordsHold(m, h01, i4);
  }
}
