/** Dcel.splitTriangles in the order Dcel.java writes it, next to the
    corrected version the rest of the model uses (DcelMesh.Dcel.SplitTriangles).
    As written it reads vertices[i0..i3] without the sentinel cases of
    getVertex, and it never links `next`/`prev` of its eight new
    half-edges, so its first linkEdgesAndFace follows a null `next`. The
    two defects are stated apart: ReadCornersAsWritten for the reads, and
    SplitTrianglesAsWritten for the rest, from a mesh where the located edge
    h01 and the new vertex i4 are ready (SplitReady), that is, as if the
    reads had succeeded. */
module AsWritten {
  import opened Wrappers
  import opened Triangles
  import opened Mesh
  import opened Links
  import opened Steps

  /** Dcel.linkEdgesAndFace(h0, f) as the do-while runs it from h: set
      h.face, step to h.next, stop when back at h0; a null h fails with a
      NullPointerException. `fuel` bounds the iterations. */
  function LinkEdgesAndFaceRun(m: MeshState, h0: int, h: int, f: int, fuel: nat): (r: Result<MeshState>)
    requires 0 <= f < |m.faces|
    ensures r.Success? ==> |r.value.edges| == |m.edges| && |r.value.faces| == |m.faces|
    ensures r.Success? ==> r.value.faces[f].edge == h0
    decreases fuel
  {
    if !(0 <= h < |m.edges|) then Failure(NullPointer)
    else
      var m1 := SetFace(m, h, f);
      var g := m.edges[h].next;
      if g == h0 then Success(SetFaceEdge(m1, f, h0))
      else if fuel == 0 then Failure(OutOfFuel)
      else LinkEdgesAndFaceRun(m1, h0, g, f, fuel - 1)
  }

  /** From the k-th edge of a closed cycle the run ends where
      LinkEdgesAndFaceOf says. */
  lemma {:induction false} LinkEdgesAndFaceRunFrom(m: MeshState, h0: int, f: int, p: nat, k: nat)
    requires 0 <= f < |m.faces| && Cycle(m, h0, p) && k < p
    ensures LinkEdgesAndFaceRun(SetFaces(m, h0, f, k), h0, Walk(m, h0, k), f, p - 1 - k) ==
      Success(LinkEdgesAndFaceOf(m, h0, f, p))
    decreases p - k
  {
    var s := SetFaces(m, h0, f, k);
    var h := Walk(m, h0, k);
    SetFacesKeeps(m, h0, f, k, h);
    assert s.edges[h].next == Walk(m, h0, k + 1);
    assert SetFace(s, h, f) == SetFaces(m, h0, f, k + 1);
    if k + 1 < p {
      LinkEdgesAndFaceRunFrom(m, h0, f, p, k + 1);
    }
  }

  /** On a closed cycle of period p, the run of the do-while is
      LinkEdgesAndFaceOf, the function Dcel.LinkEdgesAndFace is proved
      against. */
  lemma LinkEdgesAndFaceRunAgrees(m: MeshState, h0: int, f: int, p: nat)
    requires 0 <= f < |m.faces| && Cycle(m, h0, p)
    ensures LinkEdgesAndFaceRun(m, h0, h0, f, p - 1) == Success(LinkEdgesAndFaceOf(m, h0, f, p))
  {
    LinkEdgesAndFaceRunFrom(m, h0, f, p, 0);
  }

  /** splitTriangles' writes before its first linkEdgesAndFace, in the
      order of Dcel.java: `new Vertex(i4)`, the eight half-edges h04, h40,
      h14, h41, h24, h42, h34, h43 (from n on), the four linkTwins, the
      eight origins, the repairs of v0 and v1, v4.edge = h40 and the four
      faces. No `next` or `prev` of a new half-edge is set. */
  function SplitTrianglesUnlinked(m: MeshState, h01: int, i4: int): (r: MeshState)
    requires SplitReady(m, h01, i4)
    ensures |r.edges| == |m.edges| + 8 && |r.faces| == |m.faces| + 4
  {
    var n := |m.edges|;
    var h10 := Twin(m, h01);
    var v0, v1 := Origin(m, h01), Origin(m, h10);
    var v2, v3 := Origin(m, Next(m, Next(m, h01))), Origin(m, Next(m, Next(m, h10)));
    var x := Origins8Of(TwinPairs4(AddEdges8(AddVertex(m, i4)), n), n, v0, v1, v2, v3, i4);
    assert IsVertex(x, v0) && IsVertex(x, v1);
    var w := SetVertexEdgeOf(Repair2(x, v0, h01, n, v1, h10, n + 2), i4, n + 1);
    AddFace(AddFace(AddFace(AddFace(w))))
  }

  /** The rest of splitTriangles as written: linkEdgesAndFace on h04, h41,
      h14 and h40 with the four new faces, then h01 and h10 retired. */
  function SplitTrianglesAsWritten(m: MeshState, h01: int, i4: int): (r: Result<MeshState>)
    requires SplitReady(m, h01, i4)
  {
    var n, f := |m.edges|, |m.faces|;
    var s := SplitTrianglesUnlinked(m, h01, i4);
    var fuel := |s.edges|;
    var s1 :- LinkEdgesAndFaceRun(s, n, n, f, fuel);
    var s2 :- LinkEdgesAndFaceRun(s1, n + 3, n + 3, f + 1, fuel);
    var s3 :- LinkEdgesAndFaceRun(s2, n + 2, n + 2, f + 2, fuel);
    var s4 :- LinkEdgesAndFaceRun(s3, n + 1, n + 1, f + 3, fuel);
    Success(Retire(Retire(s4, h01), Twin(m, h01)))
  }

  /** The new half-edge h04 has a null `next`, so no period closes its
      cycle, and splitTriangles as written throws a NullPointerException in
      its first linkEdgesAndFace, whatever mesh and point it is given. */
  lemma SplitTrianglesAsWrittenFails(m: MeshState, h01: int, i4: int)
    requires SplitReady(m, h01, i4)
    ensures var s := SplitTrianglesUnlinked(m, h01, i4);
      s.edges[|m.edges|].next == Null && forall p: nat :: !Cycle(s, |m.edges|, p)
    ensures SplitTrianglesAsWritten(m, h01, i4) == Failure(NullPointer)
  {
    var n := |m.edges|;
    var s := SplitTrianglesUnlinked(m, h01, i4);
    assert s.edges[n].next == Null;
    forall p: nat
      ensures !Cycle(s, n, p)
    {
      if p >= 1 {
        NullWalk(s, n, p);
      }
    }
    assert LinkEdgesAndFaceRun(s, n, n, |m.faces|, |s.edges|) == Failure(NullPointer);
  }

  /** Once a walk has left the arena it stays out. */
  lemma {:induction false} NullWalk(m: MeshState, h: int, k: nat)
    requires 0 <= h < |m.edges| && m.edges[h].next == Null && k >= 1
    ensures Walk(m, h, k) == Null
  {
    if k > 1 {
      NullWalk(m, h, k - 1);
    }
  }

  /** The four `vertices[i]` reads at the head of splitTriangles as written:
      an ArrayIndexOutOfBoundsException for a sentinel id. */
  function ReadCornersAsWritten(m: MeshState, c: Corners): (r: Result<seq<Option<int>>>)
  {
    if 0 <= c.i0 < |m.vertices| && 0 <= c.i1 < |m.vertices| && 0 <= c.i2 < |m.vertices| && 0 <= c.i3 < |m.vertices|
    then Success([m.vertices[c.i0], m.vertices[c.i1], m.vertices[c.i2], m.vertices[c.i3]])
    else Failure(IndexOutOfBounds)
  }

  /** A quad with a sentinel corner, such as a point on an edge of a
      triangle with corner -2, makes the direct reads throw, while
      getVertex finds the sentinel's vertex. */
  lemma ReadCornersFailsAtSentinel(m: MeshState, c: Corners)
    requires c.i0 < 0 || c.i1 < 0 || c.i2 < 0 || c.i3 < 0
    ensures ReadCornersAsWritten(m, c) == Failure(IndexOutOfBounds)
    ensures c.i2 == -2 ==> GetVertex(m, c.i2) == Success(Some(-2))
    ensures c.i3 == -1 ==> GetVertex(m, c.i3) == Success(Some(-1))
  {
  }
}
