/** What Vertex.edgeIterator yields and what Dcel.getFaces collects, as
    values over a MeshState. */
module Fans {
  import opened Wrappers
  import opened Triangles
  import opened Mesh

  /** The edges edgeIterator yields from its k-th step on: edge.prev.twin
      each time, up to and including the step that is back at h0; `fuel`
      bounds the steps (it never runs out, see AroundMeaning). */
  function AroundFrom(m: MeshState, h0: int, k: nat, fuel: nat): (r: seq<int>)
    requires MeshValid(m) && InUse(m, h0)
    ensures |r| >= 1 && forall h :: h in r ==> InUse(m, h) && Origin(m, h) == Origin(m, h0)
    decreases fuel
  {
    var h := Orbit(m, false, h0, k);
    if h == h0 || fuel == 0 then [h] else [h] + AroundFrom(m, h0, k + 1, fuel - 1)
  }

  /** The whole iteration of the vertex whose `edge` is h0. */
  function Around(m: MeshState, h0: int): (r: seq<int>)
    requires MeshValid(m) && InUse(m, h0)
    ensures |r| >= 1 && forall h :: h in r ==> InUse(m, h) && Origin(m, h) == Origin(m, h0)
  {
    AroundFrom(m, h0, 1, |m.edges| - 1)
  }

  /** From step k, short of the return at step p, the iteration lists the
      orbit from k up to its first return to h0. */
  lemma {:induction false} AroundFromMeaning(m: MeshState, h0: int, k: nat, p: nat)
    requires MeshValid(m) && InUse(m, h0)
    requires 1 <= k <= p <= |m.edges| && Orbit(m, false, h0, p) == h0
    requires forall j :: 1 <= j < k ==> Orbit(m, false, h0, j) != h0
    ensures var r := AroundFrom(m, h0, k, |m.edges| - k);
      1 <= |r| && k + |r| - 1 <= p && r[|r| - 1] == h0 &&
      (forall i :: 0 <= i < |r| ==> r[i] == Orbit(m, false, h0, k + i)) &&
      (forall i :: 0 <= i < |r| - 1 ==> r[i] != h0)
    decreases p - k
  {
    var h := Orbit(m, false, h0, k);
    if h != h0 {
      assert k < p;
      AroundFromMeaning(m, h0, k + 1, p);
      var t := AroundFrom(m, h0, k + 1, |m.edges| - (k + 1));
      assert AroundFrom(m, h0, k, |m.edges| - k) == [h] + t;
    }
  }

  /** edgeIterator yields the orbit of edge.prev.twin from the vertex's
      edge: at least one edge, at most |edges|, the last one the vertex's
      edge itself and none before it; every yielded edge is in use and
      starts at the vertex. */
  lemma AroundMeaning(m: MeshState, h0: int)
    requires MeshValid(m) && InUse(m, h0)
    ensures var r := Around(m, h0);
      1 <= |r| <= |m.edges| && r[|r| - 1] == h0 &&
      (forall i :: 0 <= i < |r| ==> r[i] == Orbit(m, false, h0, i + 1)) &&
      (forall i :: 0 <= i < |r| - 1 ==> r[i] != h0) &&
      (forall i :: 0 <= i < |r| ==> InUse(m, r[i]) && Origin(m, r[i]) == Origin(m, h0))
  {
    OrbitReturns(m, false, h0);
    var p :| 1 <= p <= |m.edges| && Orbit(m, false, h0, p) == h0;
    AroundFromMeaning(m, h0, 1, p);
    var r := Around(m, h0);
    forall i | 0 <= i < |r|
      ensures InUse(m, r[i]) && Origin(m, r[i]) == Origin(m, h0)
    {
      assert r[i] == Orbit(m, false, h0, i + 1);
    }
  }

  /** The triangles of the faces of the edges in es. */
  function FanFaces(m: MeshState, es: seq<int>): set<Tri>
    requires MeshValid(m) && forall h :: h in es ==> InUse(m, h)
  {
    set h | h in es && InUse(m, h) :: Canonical(CycleIds(m, h))
  }

  /** One more edge of es adds its face. */
  lemma FanFacesStep(m: MeshState, es: seq<int>, j: nat)
    requires MeshValid(m) && (forall h :: h in es ==> InUse(m, h)) && j < |es|
    ensures es[j] in es && FanFaces(m, es[..j + 1]) == FanFaces(m, es[..j]) + {Canonical(CycleIds(m, es[j]))}
  {
    assert es[..j + 1] == es[..j] + [es[j]];
  }

  /** The triangles of the faces Dcel.getFaces puts in its TreeSet after
      the vertices below k: the faces of the edges around each of them.
      The set is ordered by Face.compareTo, which compares calcTriangle, so
      it holds triangles. */
  function FacesBelow(m: MeshState, k: nat): set<Tri>
    requires MeshValid(m) && k <= |m.vertices|
  {
    if k == 0 then {}
    else if m.vertices[k - 1].None? then FacesBelow(m, k - 1)
    else FacesBelow(m, k - 1) + FanFaces(m, Around(m, m.vertices[k - 1].value))
  }

  /** All of getFaces. */
  function FacesOf(m: MeshState): set<Tri>
    requires MeshValid(m)
  {
    FacesBelow(m, |m.vertices|)
  }

  /** A triangle collected below k comes from an edge around a point vertex
      below k. */
  lemma {:induction false} FacesBelowSource(m: MeshState, k: nat, t: Tri)
    requires MeshValid(m) && k <= |m.vertices| && t in FacesBelow(m, k)
    ensures exists v, h ::
      0 <= v < k && m.vertices[v].Some? && h in Around(m, m.vertices[v].value) && t == Canonical(CycleIds(m, h))
  {
    var v := k - 1;
    if m.vertices[v].None? || t in FacesBelow(m, v) {
      FacesBelowSource(m, v, t);
    } else {
      var es := Around(m, m.vertices[v].value);
      assert t in FanFaces(m, es);
      var h :| h in es && t == Canonical(CycleIds(m, h));
      assert 0 <= v < k && m.vertices[v].Some? && h in Around(m, m.vertices[v].value);
    }
  }

  /** Every edge around a point vertex below k contributes its face. */
  lemma {:induction false} FacesBelowHas(m: MeshState, k: nat, v: int, h: int)
    requires MeshValid(m) && k <= |m.vertices| && 0 <= v < k && m.vertices[v].Some?
    requires h in Around(m, m.vertices[v].value)
    ensures Canonical(CycleIds(m, h)) in FacesBelow(m, k)
  {
    if v < k - 1 {
      FacesBelowHas(m, k - 1, v, h);
      FacesBelowStep(m, k, Canonical(CycleIds(m, h)));
    } else {
      FanFacesHas(m, v, h);
    }
  }

  /** One more vertex keeps what was collected. */
  lemma FacesBelowStep(m: MeshState, k: nat, t: Tri)
    requires MeshValid(m) && 1 <= k <= |m.vertices| && t in FacesBelow(m, k - 1)
    ensures t in FacesBelow(m, k)
  {
  }


  /** The vertex v's own fan is collected at v + 1. */
  lemma FanFacesHas(m: MeshState, v: int, h: int)
    requires MeshValid(m) && 0 <= v < |m.vertices| && m.vertices[v].Some?
    requires h in Around(m, m.vertices[v].value)
    ensures Canonical(CycleIds(m, h)) in FacesBelow(m, v + 1)
  {
    var es := Around(m, m.vertices[v].value);
    assert Canonical(CycleIds(m, h)) in FanFaces(m, es);
  }


  /** Every triangle getFaces collects is the calcTriangle of a face of the
      mesh, with three distinct corners, one of them a point; and the face
      of every point vertex's own edge is among them. */
  lemma FacesOfMeaning(m: MeshState)
    requires MeshValid(m)
    ensures forall t :: t in FacesOf(m) ==>
      (exists f :: 0 <= f < |m.faces| && CalcTriangleOf(m, f) == Success(t)) &&
      t[0] != t[1] && t[1] != t[2] && t[2] != t[0] &&
      (exists i :: 0 <= i < 3 && 0 <= t[i] < |m.vertices|)
    ensures forall v :: 0 <= v < |m.vertices| && m.vertices[v].Some? ==>
      CalcTriangleOf(m, m.edges[m.vertices[v].value].face).Success? &&
      CalcTriangleOf(m, m.edges[m.vertices[v].value].face).value in FacesOf(m)
  {
    forall t | t in FacesOf(m)
      ensures (exists f :: 0 <= f < |m.faces| && CalcTriangleOf(m, f) == Success(t)) &&
        t[0] != t[1] && t[1] != t[2] && t[2] != t[0] &&
        (exists i :: 0 <= i < 3 && 0 <= t[i] < |m.vertices|)
    {
      FacesOfTriangle(m, t);
    }
    forall v | 0 <= v < |m.vertices| && m.vertices[v].Some?
      ensures CalcTriangleOf(m, m.edges[m.vertices[v].value].face).Success? &&
        CalcTriangleOf(m, m.edges[m.vertices[v].value].face).value in FacesOf(m)
    {
      FacesOfVertex(m, v);
    }
  }

  /** One triangle of getFaces: the calcTriangle of the face of an edge
      around one of its corners, a point vertex. */
  lemma FacesOfTriangle(m: MeshState, t: Tri)
    requires MeshValid(m) && t in FacesOf(m)
    ensures exists f :: 0 <= f < |m.faces| && CalcTriangleOf(m, f) == Success(t)
    ensures t[0] != t[1] && t[1] != t[2] && t[2] != t[0]
    ensures exists i :: 0 <= i < 3 && 0 <= t[i] < |m.vertices|
  {
    FacesBelowSource(m, |m.vertices|, t);
    var v, h :| 0 <= v < |m.vertices| && m.vertices[v].Some? && h in Around(m, m.vertices[v].value) &&
      t == Canonical(CycleIds(m, h));
    FanTriangle(m, v, h, t);
  }

  /** The triangle of the face of an edge that starts at point v. */
  lemma FanTriangle(m: MeshState, v: int, h: int, t: Tri)
    requires MeshValid(m) && 0 <= v < |m.vertices| && InUse(m, h) && Origin(m, h) == v
    requires t == Canonical(CycleIds(m, h))
    ensures exists f :: 0 <= f < |m.faces| && CalcTriangleOf(m, f) == Success(t)
    ensures t[0] != t[1] && t[1] != t[2] && t[2] != t[0]
    ensures exists i :: 0 <= i < 3 && 0 <= t[i] < |m.vertices|
  {
    LiveFace(m, h);
    var f := m.edges[h].face;
    assert Linked(m, h) && CalcTriangleOf(m, f) == Success(t);
    var c := CycleIds(m, h);
    CanonicalCorners(c);
    assert c[0] == v && v in t;
    if t[0] == v {
      assert 0 <= t[0] < |m.vertices|;
    } else if t[1] == v {
      assert 0 <= t[1] < |m.vertices|;
    } else {
      assert 0 <= t[2] < |m.vertices|;
    }
  }

  /** The face of a point vertex's own edge is among getFaces' triangles. */
  lemma FacesOfVertex(m: MeshState, v: int)
    requires MeshValid(m) && 0 <= v < |m.vertices| && m.vertices[v].Some?
    ensures CalcTriangleOf(m, m.edges[m.vertices[v].value].face).Success?
    ensures CalcTriangleOf(m, m.edges[m.vertices[v].value].face).value in FacesOf(m)
  {
    var h0 := m.vertices[v].value;
    AroundMeaning(m, h0);
    var r := Around(m, h0);
    assert h0 in r;
    LiveFace(m, h0);
    FacesBelowHas(m, |m.vertices|, v, h0);
  }
}
