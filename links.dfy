/** The field writes Dcel.java builds its surgery from, as functions on a
    MeshState: a fresh half-edge or face, one field of one record, and the
    link helpers linkTwins, linkPrevNext, linkPrevNextTriangle and
    linkEdgesAndFace. Intermediate states of a surgery are not valid
    meshes (fresh records hold nulls), so these functions ask only that
    the handles they write are in range. */
module Links {
  import opened Wrappers
  import opened Mesh

  /** A half-edge as `new HalfEdge()` leaves it: every reference null, in use. */
  const FreshEdge := HalfEdge(Null, Null, Null, NullVertex, Null, true)

  /** `new HalfEdge()`: the record is appended, so its index is its position. */
  function AddEdge(m: MeshState): MeshState {
    m.(edges := m.edges + [FreshEdge])
  }

  /** `new Face()`: edge and data null. */
  function AddFace(m: MeshState): MeshState {
    m.(faces := m.faces + [Face(Null, None)])
  }

  /** `new Vertex(i)` for a point id: the slot now holds a vertex whose edge is null. */
  function AddVertex(m: MeshState, i: int): MeshState
    requires 0 <= i < |m.vertices|
  {
    m.(vertices := m.vertices[i := Some(Null)])
  }

  function SetTwin(m: MeshState, h: int, t: int): MeshState
    requires 0 <= h < |m.edges|
  {
    m.(edges := m.edges[h := m.edges[h].(twin := t)])
  }

  function SetNext(m: MeshState, h: int, t: int): MeshState
    requires 0 <= h < |m.edges|
  {
    m.(edges := m.edges[h := m.edges[h].(next := t)])
  }

  function SetPrev(m: MeshState, h: int, t: int): MeshState
    requires 0 <= h < |m.edges|
  {
    m.(edges := m.edges[h := m.edges[h].(prev := t)])
  }

  function SetOrigin(m: MeshState, h: int, v: int): MeshState
    requires 0 <= h < |m.edges|
  {
    m.(edges := m.edges[h := m.edges[h].(origin := v)])
  }

  function SetFace(m: MeshState, h: int, f: int): MeshState
    requires 0 <= h < |m.edges|
  {
    m.(edges := m.edges[h := m.edges[h].(face := f)])
  }

  /** `h.inUse = false`. */
  function Retire(m: MeshState, h: int): MeshState
    requires 0 <= h < |m.edges|
  {
    m.(edges := m.edges[h := m.edges[h].(inUse := false)])
  }

  function SetFaceEdge(m: MeshState, f: int, h: int): MeshState
    requires 0 <= f < |m.faces|
  {
    m.(faces := m.faces[f := m.faces[f].(edge := h)])
  }

  function SetFaceData(m: MeshState, f: int, d: Option<nat>): MeshState
    requires 0 <= f < |m.faces|
  {
    m.(faces := m.faces[f := m.faces[f].(data := d)])
  }

  /** linkTwins(h0, h1). */
  function LinkTwinsOf(m: MeshState, h0: int, h1: int): MeshState
    requires 0 <= h0 < |m.edges| && 0 <= h1 < |m.edges|
  {
    SetTwin(SetTwin(m, h0, h1), h1, h0)
  }

  /** linkPrevNext(h0, h1). */
  function LinkPrevNextOf(m: MeshState, h0: int, h1: int): MeshState
    requires 0 <= h0 < |m.edges| && 0 <= h1 < |m.edges|
  {
    SetPrev(SetNext(m, h0, h1), h1, h0)
  }

  /** linkPrevNextTriangle(h0, h1, h2). */
  function LinkPrevNextTriangleOf(m: MeshState, h0: int, h1: int, h2: int): MeshState
    requires 0 <= h0 < |m.edges| && 0 <= h1 < |m.edges| && 0 <= h2 < |m.edges|
  {
    LinkPrevNextOf(LinkPrevNextOf(LinkPrevNextOf(m, h0, h1), h1, h2), h2, h0)
  }

  /** h after k steps along `next`, or null once a step leaves the arena. */
  function Walk(m: MeshState, h: int, k: nat): int {
    if k == 0 then h
    else
      var g := Walk(m, h, k - 1);
      if 0 <= g < |m.edges| then m.edges[g].next else Null
  }

  /** The first k steps of linkEdgesAndFace's loop from h: the face of
      each edge walked over becomes f. */
  function SetFaces(m: MeshState, h: int, f: int, k: nat): (r: MeshState)
    ensures |r.edges| == |m.edges| && r.faces == m.faces && r.vertices == m.vertices
    ensures r.upperLeftEdge == m.upperLeftEdge && r.rightEdge == m.rightEdge
  {
    if k == 0 then m
    else
      var s := SetFaces(m, h, f, k - 1);
      var g := Walk(m, h, k - 1);
      if 0 <= g < |s.edges| then SetFace(s, g, f) else s
  }

  /** The next-cycle of h closes after exactly `period` steps, inside the arena. */
  predicate Cycle(m: MeshState, h: int, period: nat) {
    period >= 1 && Walk(m, h, period) == h &&
    (forall i :: 0 <= i < period ==> 0 <= Walk(m, h, i) < |m.edges|) &&
    (forall i :: 0 < i < period ==> Walk(m, h, i) != h)
  }

  /** linkEdgesAndFace(h, f) when the cycle of h has the given period. */
  function LinkEdgesAndFaceOf(m: MeshState, h: int, f: int, period: nat): MeshState
    requires 0 <= f < |m.faces|
  {
    SetFaceEdge(SetFaces(m, h, f, period), f, h)
  }

  /** linkTwins makes the two edges each other's twin and writes nothing
      else. */
  lemma LinkTwinsLaws(m: MeshState, h0: int, h1: int)
    requires 0 <= h0 < |m.edges| && 0 <= h1 < |m.edges|
    ensures var r := LinkTwinsOf(m, h0, h1);
      |r.edges| == |m.edges| && r.faces == m.faces && r.vertices == m.vertices &&
      r.edges[h0].twin == h1 && r.edges[h1].twin == h0 &&
      (forall j :: 0 <= j < |m.edges| ==> r.edges[j] == m.edges[j].(twin := r.edges[j].twin)) &&
      (forall j :: 0 <= j < |m.edges| && j != h0 && j != h1 ==> r.edges[j] == m.edges[j])
    ensures h0 != h1 ==> Twin(LinkTwinsOf(m, h0, h1), Twin(LinkTwinsOf(m, h0, h1), h0)) == h0
  {
  }

  /** linkPrevNextTriangle on three distinct edges makes `next` run
      h0, h1, h2, h0 and `prev` the other way around, and writes no other
      field. */
  lemma LinkPrevNextTriangleLaws(m: MeshState, h0: int, h1: int, h2: int)
    requires 0 <= h0 < |m.edges| && 0 <= h1 < |m.edges| && 0 <= h2 < |m.edges|
    requires h0 != h1 && h1 != h2 && h2 != h0
    ensures var r := LinkPrevNextTriangleOf(m, h0, h1, h2);
      |r.edges| == |m.edges| && r.faces == m.faces && r.vertices == m.vertices &&
      Next(r, h0) == h1 && Next(r, h1) == h2 && Next(r, h2) == h0 &&
      Prev(r, h1) == h0 && Prev(r, h2) == h1 && Prev(r, h0) == h2 &&
      Cycle(r, h0, 3) &&
      (forall j :: 0 <= j < |m.edges| ==>
        r.edges[j] == m.edges[j].(next := r.edges[j].next, prev := r.edges[j].prev)) &&
      (forall j :: 0 <= j < |m.edges| && j != h0 && j != h1 && j != h2 ==> r.edges[j] == m.edges[j])
  {
    var r := LinkPrevNextTriangleOf(m, h0, h1, h2);
    assert Walk(r, h0, 1) == h1;
    assert Walk(r, h0, 2) == h2;
    assert Walk(r, h0, 3) == h0;
  }

  /** SetFaces writes only face fields, so the walk is the same. */
  lemma {:induction false} WalkSetFaces(m: MeshState, h: int, f: int, k: nat, i: nat)
    ensures Walk(SetFaces(m, h, f, k), h, i) == Walk(m, h, i)
  {
    if i > 0 {
      WalkSetFaces(m, h, f, k, i - 1);
      var g := Walk(m, h, i - 1);
      if 0 <= g < |m.edges| {
        SetFacesKeeps(m, h, f, k, g);
      }
    }
  }

  /** SetFaces writes face fields only. */
  lemma {:induction false} SetFacesKeeps(m: MeshState, h: int, f: int, k: nat, j: int)
    requires 0 <= j < |m.edges|
    ensures SetFaces(m, h, f, k).edges[j] == m.edges[j].(face := SetFaces(m, h, f, k).edges[j].face)
  {
    if k > 0 {
      SetFacesKeeps(m, h, f, k - 1, j);
    }
  }

  /** The faces SetFaces writes are those of the first k edges of the walk. */
  lemma {:induction false} SetFacesWrites(m: MeshState, h: int, f: int, k: nat, j: int)
    requires forall i :: 0 <= i < k ==> 0 <= Walk(m, h, i) < |m.edges|
    requires 0 <= j < |m.edges|
    ensures SetFaces(m, h, f, k).edges[j].face ==
      if exists i :: 0 <= i < k && Walk(m, h, i) == j then f else m.edges[j].face
  {
    if k > 0 {
      SetFacesWrites(m, h, f, k - 1, j);
      var g := Walk(m, h, k - 1);
      assert 0 <= g < |m.edges|;
      if g == j {
        assert SetFaces(m, h, f, k).edges[j].face == f;
        assert 0 <= k - 1 < k && Walk(m, h, k - 1) == j;
        assert exists i :: 0 <= i < k && Walk(m, h, i) == j;
      } else {
        assert SetFaces(m, h, f, k).edges[j] == SetFaces(m, h, f, k - 1).edges[j];
        if exists i :: 0 <= i < k && Walk(m, h, i) == j {
          var i :| 0 <= i < k && Walk(m, h, i) == j;
          assert i < k - 1;
        }
      }
    }
  }

  /** linkEdgesAndFace gives every edge of the cycle of h the face f, and
      no other edge; f's edge becomes h. */
  lemma LinkEdgesAndFaceLaws(m: MeshState, h: int, f: int, period: nat, j: int)
    requires 0 <= f < |m.faces| && Cycle(m, h, period) && 0 <= j < |m.edges|
    ensures var r := LinkEdgesAndFaceOf(m, h, f, period);
      |r.edges| == |m.edges| && |r.faces| == |m.faces| && r.vertices == m.vertices &&
      r.faces[f] == m.faces[f].(edge := h) &&
      (forall g :: 0 <= g < |m.faces| && g != f ==> r.faces[g] == m.faces[g]) &&
      r.edges[j] == m.edges[j].(face := r.edges[j].face) &&
      (r.edges[j].face == if exists i :: 0 <= i < period && Walk(m, h, i) == j then f else m.edges[j].face)
  {
    SetFacesWrites(m, h, f, period, j);
    SetFacesKeeps(m, h, f, period, j);
  }

  /** On a 3-cycle, linkEdgesAndFace writes exactly three face fields. */
  lemma LinkEdgesAndFaceTriangle(m: MeshState, h: int, f: int)
    requires 0 <= f < |m.faces| && Cycle(m, h, 3)
    ensures 0 <= h < |m.edges| && 0 <= Walk(m, h, 1) < |m.edges| && 0 <= Walk(m, h, 2) < |m.edges|
    ensures var h1 := Walk(m, h, 1); var h2 := Walk(m, h, 2);
      LinkEdgesAndFaceOf(m, h, f, 3) ==
        SetFaceEdge(SetFace(SetFace(SetFace(m, h, f), h1, f), h2, f), f, h)
  {
    assert 0 <= Walk(m, h, 0) < |m.edges| && 0 <= Walk(m, h, 1) < |m.edges| && 0 <= Walk(m, h, 2) < |m.edges|;
    assert SetFaces(m, h, f, 1) == SetFace(m, h, f);
    assert SetFaces(m, h, f, 2) == SetFace(SetFace(m, h, f), Walk(m, h, 1), f);
  }
}
