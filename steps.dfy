/** The surgeries of Dcel.java as the sequence of primitive writes they are
    made of, in the order the Java code performs them, and the proofs that
    each sequence ends in the closed-form state of module Surgery. The
    methods of class Dcel perform these writes one by one; these lemmas
    connect them to the validity proofs.

    While a surgery runs, the half-edge arena is the old records `a`
    followed by the records `b` the surgery appended; each group of writes
    is first restated on `a` and `b` separately. */
module Steps {
  import opened Wrappers
  import opened Mesh
  import opened Links
  import opened Surgery

  // ---------------------------------------------------------------------
  // One field of one record of a sequence of half-edges.

  function SetTwinAt(s: seq<HalfEdge>, i: int, t: int): (r: seq<HalfEdge>)
    requires 0 <= i < |s|
    ensures |r| == |s|
  {
    s[i := s[i].(twin := t)]
  }

  /** `next` and `prev` of record i together, as linkPrevNextTriangle
      leaves them. */
  function SetLinksAt(s: seq<HalfEdge>, i: int, nx: int, pv: int): (r: seq<HalfEdge>)
    requires 0 <= i < |s|
    ensures |r| == |s|
  {
    s[i := s[i].(next := nx, prev := pv)]
  }

  function SetOriginAt(s: seq<HalfEdge>, i: int, v: int): (r: seq<HalfEdge>)
    requires 0 <= i < |s|
    ensures |r| == |s|
  {
    s[i := s[i].(origin := v)]
  }

  function SetFaceAt(s: seq<HalfEdge>, i: int, f: int): (r: seq<HalfEdge>)
    requires 0 <= i < |s|
    ensures |r| == |s|
  {
    s[i := s[i].(face := f)]
  }

  function RetireAt(s: seq<HalfEdge>, i: int): (r: seq<HalfEdge>)
    requires 0 <= i < |s|
    ensures |r| == |s|
  {
    s[i := s[i].(inUse := false)]
  }

  /** Updating a concatenation updates the part the index falls in. */
  lemma UpdateHead<T>(a: seq<T>, b: seq<T>, i: int, v: T)
    requires 0 <= i < |a|
    ensures (a + b)[i := v] == a[i := v] + b
  {
  }

  lemma UpdateTail<T>(a: seq<T>, b: seq<T>, k: int, v: T)
    requires 0 <= k < |b|
    ensures (a + b)[|a| + k := v] == a + b[k := v]
  {
  }

  /** Three distinct edges whose `next` fields run h0, h1, h2, h0 form a
      3-cycle. */
  lemma TriangleCycle(m: MeshState, h0: int, h1: int, h2: int)
    requires 0 <= h0 < |m.edges| && 0 <= h1 < |m.edges| && 0 <= h2 < |m.edges|
    requires m.edges[h0].next == h1 && m.edges[h1].next == h2 && m.edges[h2].next == h0
    requires h0 != h1 && h1 != h2 && h2 != h0
    ensures Cycle(m, h0, 3) && Walk(m, h0, 1) == h1 && Walk(m, h0, 2) == h2
  {
    assert Walk(m, h0, 1) == h1;
    assert Walk(m, h0, 2) == h2;
    assert Walk(m, h0, 3) == h0;
  }

  // ---------------------------------------------------------------------
  // The link helpers of Dcel.java restated on the old records a and the
  // appended records b.

  /** linkTwins of two appended edges, at positions k0 and k1 of b. */
  lemma TwinsStage(m: MeshState, a: seq<HalfEdge>, b: seq<HalfEdge>, h0: int, h1: int, k0: nat, k1: nat)
    requires m.edges == a + b && k0 < |b| && k1 < |b| && k0 != k1
    requires h0 == |a| + k0 && h1 == |a| + k1
    ensures LinkTwinsOf(m, h0, h1) == m.(edges := a + SetTwinAt(SetTwinAt(b, k0, h1), k1, h0))
  {
    UpdateTail(a, b, k0, b[k0].(twin := h1));
    UpdateTail(a, SetTwinAt(b, k0, h1), k1, b[k1].(twin := h0));
  }

  /** linkPrevNextTriangle of an old edge h0 and the appended h1, h2. */
  lemma CycleStage(m: MeshState, a: seq<HalfEdge>, b: seq<HalfEdge>, h0: int, h1: int, h2: int, k1: nat, k2: nat)
    requires m.edges == a + b && 0 <= h0 < |a| && k1 < |b| && k2 < |b| && k1 != k2
    requires h1 == |a| + k1 && h2 == |a| + k2
    ensures LinkPrevNextTriangleOf(m, h0, h1, h2) ==
      m.(edges := SetLinksAt(a, h0, h1, h2) + SetLinksAt(SetLinksAt(b, k1, h2, h0), k2, h0, h1))
  {
    var a1 := SetLinksAt(a, h0, h1, h2);
    var b1 := SetLinksAt(b, k1, h2, h0);
    UpdateHead(a, b, h0, a[h0].(next := h1, prev := h2));
    UpdateTail(a1, b, k1, b[k1].(next := h2, prev := h0));
    UpdateTail(a1, b1, k2, b[k2].(next := h0, prev := h1));
  }

  /** `x.origin = v` for an appended edge. */
  lemma OriginStage(m: MeshState, a: seq<HalfEdge>, b: seq<HalfEdge>, h: int, k: nat, v: int)
    requires m.edges == a + b && k < |b| && h == |a| + k
    ensures SetOrigin(m, h, v) == m.(edges := a + SetOriginAt(b, k, v))
  {
    UpdateTail(a, b, k, b[k].(origin := v));
  }

  /** linkEdgesAndFace(h0, f) on the 3-cycle h0 (old), h1, h2 (appended). */
  lemma FaceStage(s: MeshState, a: seq<HalfEdge>, b: seq<HalfEdge>, h0: int, h1: int, h2: int,
                  k1: nat, k2: nat, f: int)
    requires s.edges == a + b && 0 <= f < |s.faces|
    requires 0 <= h0 < |a| && k1 < |b| && k2 < |b| && k1 != k2
    requires h1 == |a| + k1 && h2 == |a| + k2
    requires a[h0].next == h1 && b[k1].next == h2 && b[k2].next == h0
    ensures Cycle(s, h0, 3)
    ensures LinkEdgesAndFaceOf(s, h0, f, 3) ==
      s.(edges := SetFaceAt(a, h0, f) + SetFaceAt(SetFaceAt(b, k1, f), k2, f),
         faces := s.faces[f := s.faces[f].(edge := h0)])
  {
    TriangleCycle(s, h0, h1, h2);
    LinkEdgesAndFaceTriangle(s, h0, f);
    var a1 := SetFaceAt(a, h0, f);
    UpdateHead(a, b, h0, a[h0].(face := f));
    UpdateTail(a1, b, k1, b[k1].(face := f));
    UpdateTail(a1, SetFaceAt(b, k1, f), k2, b[k2].(face := f));
  }

  /** linkPrevNextTriangle of the old edges h0, h2 and the appended h1. */
  lemma CycleStageOld2(m: MeshState, a: seq<HalfEdge>, b: seq<HalfEdge>, h0: int, h1: int, h2: int, k1: nat)
    requires m.edges == a + b && 0 <= h0 < |a| && 0 <= h2 < |a| && h0 != h2 && k1 < |b|
    requires h1 == |a| + k1
    ensures LinkPrevNextTriangleOf(m, h0, h1, h2) ==
      m.(edges := SetLinksAt(SetLinksAt(a, h0, h1, h2), h2, h0, h1) + SetLinksAt(b, k1, h2, h0))
  {
    var a1 := SetLinksAt(a, h0, h1, h2);
    UpdateHead(a, b, h0, a[h0].(next := h1, prev := h2));
    UpdateTail(a1, b, k1, b[k1].(next := h2, prev := h0));
    UpdateHead(a1, SetLinksAt(b, k1, h2, h0), h2, a[h2].(next := h0, prev := h1));
  }

  /** `x.inUse = false` for an old edge. */
  lemma RetireStage(m: MeshState, a: seq<HalfEdge>, b: seq<HalfEdge>, h: int)
    requires m.edges == a + b && 0 <= h < |a|
    ensures Retire(m, h) == m.(edges := RetireAt(a, h) + b)
  {
    UpdateHead(a, b, h, a[h].(inUse := false));
  }

  /** linkEdgesAndFace(h0, f) on the 3-cycle h0, h2 (old), h1 (appended). */
  lemma FaceStageOld2(s: MeshState, a: seq<HalfEdge>, b: seq<HalfEdge>, h0: int, h1: int, h2: int,
                      k1: nat, f: int)
    requires s.edges == a + b && 0 <= f < |s.faces|
    requires 0 <= h0 < |a| && 0 <= h2 < |a| && h0 != h2 && k1 < |b| && h1 == |a| + k1
    requires a[h0].next == h1 && b[k1].next == h2 && a[h2].next == h0
    ensures Cycle(s, h0, 3)
    ensures LinkEdgesAndFaceOf(s, h0, f, 3) ==
      s.(edges := SetFaceAt(SetFaceAt(a, h0, f), h2, f) + SetFaceAt(b, k1, f),
         faces := s.faces[f := s.faces[f].(edge := h0)])
  {
    TriangleCycle(s, h0, h1, h2);
    LinkEdgesAndFaceTriangle(s, h0, f);
    var a1 := SetFaceAt(a, h0, f);
    UpdateHead(a, b, h0, a[h0].(face := f));
    UpdateTail(a1, b, k1, b[k1].(face := f));
    UpdateHead(a1, SetFaceAt(b, k1, f), h2, a1[h2].(face := f));
  }

  /** linkPrevNextTriangle of the appended h0, h1 and an old edge h2. */
  lemma CycleStageNew2(m: MeshState, a: seq<HalfEdge>, b: seq<HalfEdge>, h0: int, h1: int, h2: int, k0: nat, k1: nat)
    requires m.edges == a + b && 0 <= h2 < |a| && k0 < |b| && k1 < |b| && k0 != k1
    requires h0 == |a| + k0 && h1 == |a| + k1
    ensures LinkPrevNextTriangleOf(m, h0, h1, h2) ==
      m.(edges := SetLinksAt(a, h2, h0, h1) + SetLinksAt(SetLinksAt(b, k0, h1, h2), k1, h2, h0))
  {
    var b1 := SetLinksAt(b, k0, h1, h2);
    var b2 := SetLinksAt(b1, k1, h2, h0);
    UpdateTail(a, b, k0, b[k0].(next := h1, prev := h2));
    UpdateTail(a, b1, k1, b[k1].(next := h2, prev := h0));
    UpdateHead(a, b2, h2, a[h2].(next := h0, prev := h1));
  }

  /** linkPrevNextTriangle of the appended h0, an old edge h1 and the
      appended h2. */
  lemma CycleStageMid(m: MeshState, a: seq<HalfEdge>, b: seq<HalfEdge>, h0: int, h1: int, h2: int, k0: nat, k2: nat)
    requires m.edges == a + b && 0 <= h1 < |a| && k0 < |b| && k2 < |b| && k0 != k2
    requires h0 == |a| + k0 && h2 == |a| + k2
    ensures LinkPrevNextTriangleOf(m, h0, h1, h2) ==
      m.(edges := SetLinksAt(a, h1, h2, h0) + SetLinksAt(SetLinksAt(b, k0, h1, h2), k2, h0, h1))
  {
    var b1 := SetLinksAt(b, k0, h1, h2);
    var a1 := SetLinksAt(a, h1, h2, h0);
    UpdateTail(a, b, k0, b[k0].(next := h1, prev := h2));
    UpdateHead(a, b1, h1, a[h1].(next := h2, prev := h0));
    UpdateTail(a1, b1, k2, b[k2].(next := h0, prev := h1));
  }

  /** linkEdgesAndFace(h0, f) on the 3-cycle h0, h1 (appended), h2 (old). */
  lemma FaceStageNew2(s: MeshState, a: seq<HalfEdge>, b: seq<HalfEdge>, h0: int, h1: int, h2: int,
                      k0: nat, k1: nat, f: int)
    requires s.edges == a + b && 0 <= f < |s.faces|
    requires k0 < |b| && k1 < |b| && k0 != k1 && 0 <= h2 < |a|
    requires h0 == |a| + k0 && h1 == |a| + k1
    requires b[k0].next == h1 && b[k1].next == h2 && a[h2].next == h0
    ensures Cycle(s, h0, 3)
    ensures LinkEdgesAndFaceOf(s, h0, f, 3) ==
      s.(edges := SetFaceAt(a, h2, f) + SetFaceAt(SetFaceAt(b, k0, f), k1, f),
         faces := s.faces[f := s.faces[f].(edge := h0)])
  {
    TriangleCycle(s, h0, h1, h2);
    LinkEdgesAndFaceTriangle(s, h0, f);
    var b1 := SetFaceAt(b, k0, f);
    UpdateTail(a, b, k0, b[k0].(face := f));
    UpdateTail(a, b1, k1, b1[k1].(face := f));
    UpdateHead(a, SetFaceAt(b1, k1, f), h2, a[h2].(face := f));
  }

  /** linkEdgesAndFace(h0, f) on the 3-cycle h0 (appended), h1 (old), h2
      (appended). */
  lemma FaceStageMid(s: MeshState, a: seq<HalfEdge>, b: seq<HalfEdge>, h0: int, h1: int, h2: int,
                     k0: nat, k2: nat, f: int)
    requires s.edges == a + b && 0 <= f < |s.faces|
    requires k0 < |b| && k2 < |b| && k0 != k2 && 0 <= h1 < |a|
    requires h0 == |a| + k0 && h2 == |a| + k2
    requires b[k0].next == h1 && a[h1].next == h2 && b[k2].next == h0
    ensures Cycle(s, h0, 3)
    ensures LinkEdgesAndFaceOf(s, h0, f, 3) ==
      s.(edges := SetFaceAt(a, h1, f) + SetFaceAt(SetFaceAt(b, k0, f), k2, f),
         faces := s.faces[f := s.faces[f].(edge := h0)])
  {
    TriangleCycle(s, h0, h1, h2);
    LinkEdgesAndFaceTriangle(s, h0, f);
    var b1 := SetFaceAt(b, k0, f);
    UpdateTail(a, b, k0, b[k0].(face := f));
    UpdateHead(a, b1, h1, a[h1].(face := f));
    UpdateTail(SetFaceAt(a, h1, f), b1, k2, b1[k2].(face := f));
  }

  /** The cycle of h01 is a triangle of three distinct edges. */
  predicate TriangleAt(m: MeshState, h01: int) {
    0 <= h01 < |m.edges| &&
    var h12 := m.edges[h01].next;
    0 <= h12 < |m.edges| &&
    var h20 := m.edges[h12].next;
    0 <= h20 < |m.edges| && m.edges[h20].next == h01 &&
    h01 != h12 && h12 != h20 && h20 != h01
  }

  /** In a valid mesh the cycle of an in-use edge is a triangle. */
  lemma ValidTriangleAt(m: MeshState, h01: int)
    requires MeshValid(m) && InUse(m, h01)
    ensures TriangleAt(m, h01)
  {
    CycleFacts(m, h01, h01);
  }

  /** `new Face()` and linkEdgesAndFace(h, f) on a 3-cycle, as the
      surgeries do for each new triangle. */
  function FaceOf(m: MeshState, h: int): MeshState {
    LinkEdgesAndFaceOf(AddFace(m), h, |m.faces|, 3)
  }

  /** Appending three faces one at a time, each edge set once. */
  lemma Faces3(s: seq<Face>, x: int, y: int, z: int)
    ensures var f := |s|;
      var s1 := (s + [Face(Null, None)])[f := Face(Null, None).(edge := x)];
      var s2 := (s1 + [Face(Null, None)])[f + 1 := Face(Null, None).(edge := y)];
      (s2 + [Face(Null, None)])[f + 2 := Face(Null, None).(edge := z)] ==
        s + [Face(x, None), Face(y, None), Face(z, None)]
  {
  }

  // ---------------------------------------------------------------------
  // splitTriangle

  /** Six `new HalfEdge()` in a row. */
  function AddEdges6(m: MeshState): (r: MeshState)
    ensures r.edges == m.edges + [FreshEdge, FreshEdge, FreshEdge, FreshEdge, FreshEdge, FreshEdge]
    ensures r.faces == m.faces && r.vertices == m.vertices
    ensures r.upperLeftEdge == m.upperLeftEdge && r.rightEdge == m.rightEdge
  {
    AddEdge(AddEdge(AddEdge(AddEdge(AddEdge(AddEdge(m))))))
  }

  /** The three linkTwins of splitTriangle, on the six edges from n on. */
  function TwinPairs3(m: MeshState, n: int): (r: MeshState)
    requires 0 <= n && n + 6 <= |m.edges|
    ensures |r.edges| == |m.edges| && r.faces == m.faces && r.vertices == m.vertices
    ensures r.upperLeftEdge == m.upperLeftEdge && r.rightEdge == m.rightEdge
  {
    LinkTwinsOf(LinkTwinsOf(LinkTwinsOf(m, n, n + 1), n + 2, n + 3), n + 4, n + 5)
  }

  /** The twin fields TwinPairs3 writes into the appended block. */
  function TwinB3(b: seq<HalfEdge>, n: int): (r: seq<HalfEdge>)
    requires |b| == 6
    ensures |r| == 6
  {
    var b1 := SetTwinAt(SetTwinAt(b, 0, n + 1), 1, n);
    var b2 := SetTwinAt(SetTwinAt(b1, 2, n + 3), 3, n + 2);
    SetTwinAt(SetTwinAt(b2, 4, n + 5), 5, n + 4)
  }

  lemma TwinPairs3Form(m: MeshState, a: seq<HalfEdge>, b: seq<HalfEdge>, n: int)
    requires m.edges == a + b && |b| == 6 && n == |a|
    ensures TwinPairs3(m, n) == m.(edges := a + TwinB3(b, n))
  {
    var b1 := SetTwinAt(SetTwinAt(b, 0, n + 1), 1, n);
    var b2 := SetTwinAt(SetTwinAt(b1, 2, n + 3), 3, n + 2);
    TwinsStage(m, a, b, n, n + 1, 0, 1);
    var ma := LinkTwinsOf(m, n, n + 1);
    TwinsStage(ma, a, b1, n + 2, n + 3, 2, 3);
    var mb := LinkTwinsOf(ma, n + 2, n + 3);
    TwinsStage(mb, a, b2, n + 4, n + 5, 4, 5);
  }

  /** The three linkPrevNextTriangle of splitTriangle. */
  function SplitCycles(m: MeshState, h01: int, h12: int, h20: int, n: int): (r: MeshState)
    requires 0 <= h01 < |m.edges| && 0 <= h12 < |m.edges| && 0 <= h20 < |m.edges|
    requires 0 <= n && n + 6 <= |m.edges|
    ensures |r.edges| == |m.edges| && r.faces == m.faces && r.vertices == m.vertices
    ensures r.upperLeftEdge == m.upperLeftEdge && r.rightEdge == m.rightEdge
  {
    var m3 := LinkPrevNextTriangleOf(m, h01, n + 2, n + 1);
    var m4 := LinkPrevNextTriangleOf(m3, h12, n + 4, n + 3);
    LinkPrevNextTriangleOf(m4, h20, n, n + 5)
  }

  /** The old edges h01, h12, h20 once splitTriangle has linked them to the
      new edges from n on. */
  function Relinked(e: seq<HalfEdge>, h01: int, h12: int, h20: int, n: int): (r: seq<HalfEdge>)
    requires 0 <= h01 < |e| && 0 <= h12 < |e| && 0 <= h20 < |e|
    ensures |r| == |e|
  {
    SetLinksAt(SetLinksAt(SetLinksAt(e, h01, n + 2, n + 1), h12, n + 4, n + 3), h20, n, n + 5)
  }

  /** The links SplitCycles writes into the appended block. */
  function CycleB3(b: seq<HalfEdge>, h01: int, h12: int, h20: int, n: int): (r: seq<HalfEdge>)
    requires |b| == 6
    ensures |r| == 6
  {
    var b1 := SetLinksAt(SetLinksAt(b, 2, n + 1, h01), 1, h01, n + 2);
    var b2 := SetLinksAt(SetLinksAt(b1, 4, n + 3, h12), 3, h12, n + 4);
    SetLinksAt(SetLinksAt(b2, 0, n + 5, h20), 5, h20, n)
  }

  lemma SplitCyclesForm(m: MeshState, a: seq<HalfEdge>, b: seq<HalfEdge>, h01: int, h12: int, h20: int, n: int)
    requires m.edges == a + b && |b| == 6 && n == |a|
    requires 0 <= h01 < n && 0 <= h12 < n && 0 <= h20 < n
    ensures SplitCycles(m, h01, h12, h20, n) ==
      m.(edges := Relinked(a, h01, h12, h20, n) + CycleB3(b, h01, h12, h20, n))
  {
    var a1 := SetLinksAt(a, h01, n + 2, n + 1);
    var b1 := SetLinksAt(SetLinksAt(b, 2, n + 1, h01), 1, h01, n + 2);
    CycleStage(m, a, b, h01, n + 2, n + 1, 2, 1);
    var m3 := LinkPrevNextTriangleOf(m, h01, n + 2, n + 1);
    var a2 := SetLinksAt(a1, h12, n + 4, n + 3);
    var b2 := SetLinksAt(SetLinksAt(b1, 4, n + 3, h12), 3, h12, n + 4);
    CycleStage(m3, a1, b1, h12, n + 4, n + 3, 4, 3);
    var m4 := LinkPrevNextTriangleOf(m3, h12, n + 4, n + 3);
    CycleStage(m4, a2, b2, h20, n, n + 5, 0, 5);
  }

  /** The origins of the six edges from n on. */
  function Origins6Of(m: MeshState, n: int, o0: int, o1: int, o2: int, o3: int, o4: int, o5: int): (r: MeshState)
    requires 0 <= n && n + 6 <= |m.edges|
    ensures |r.edges| == |m.edges| && r.faces == m.faces && r.vertices == m.vertices
    ensures r.upperLeftEdge == m.upperLeftEdge && r.rightEdge == m.rightEdge
  {
    SetOrigin(SetOrigin(SetOrigin(SetOrigin(SetOrigin(SetOrigin(m,
      n, o0), n + 1, o1), n + 2, o2), n + 3, o3), n + 4, o4), n + 5, o5)
  }

  /** The origins Origins6Of writes into the appended block. */
  function OriginB6(b: seq<HalfEdge>, o0: int, o1: int, o2: int, o3: int, o4: int, o5: int): (r: seq<HalfEdge>)
    requires |b| == 6
    ensures |r| == 6
  {
    SetOriginAt(SetOriginAt(SetOriginAt(SetOriginAt(SetOriginAt(SetOriginAt(b,
      0, o0), 1, o1), 2, o2), 3, o3), 4, o4), 5, o5)
  }

  lemma Origins6(m: MeshState, a: seq<HalfEdge>, b: seq<HalfEdge>, n: int,
                 o0: int, o1: int, o2: int, o3: int, o4: int, o5: int)
    requires m.edges == a + b && |b| == 6 && n == |a|
    ensures Origins6Of(m, n, o0, o1, o2, o3, o4, o5) == m.(edges := a + OriginB6(b, o0, o1, o2, o3, o4, o5))
  {
    var d1 := SetOriginAt(b, 0, o0);
    var d2 := SetOriginAt(d1, 1, o1);
    var d3 := SetOriginAt(d2, 2, o2);
    var d4 := SetOriginAt(d3, 3, o3);
    var d5 := SetOriginAt(d4, 4, o4);
    OriginStage(m, a, b, n, 0, o0);
    var s1 := SetOrigin(m, n, o0);
    OriginStage(s1, a, d1, n + 1, 1, o1);
    var s2 := SetOrigin(s1, n + 1, o1);
    OriginStage(s2, a, d2, n + 2, 2, o2);
    var s3 := SetOrigin(s2, n + 2, o2);
    OriginStage(s3, a, d3, n + 3, 3, o3);
    var s4 := SetOrigin(s3, n + 3, o3);
    OriginStage(s4, a, d4, n + 4, 4, o4);
    var s5 := SetOrigin(s4, n + 4, o4);
    OriginStage(s5, a, d5, n + 5, 5, o5);
  }

  const Fresh6 := [FreshEdge, FreshEdge, FreshEdge, FreshEdge, FreshEdge, FreshEdge]

  /** The six new records of splitTriangle once wired, before their faces
      are set: h03, h30, h13, h31, h23, h32. */
  function SplitTriangleNew(h01: int, h12: int, h20: int, v0: int, v1: int, v2: int, p: int, n: int): (r: seq<HalfEdge>)
    ensures |r| == 6
  {
    [HalfEdge(n + 1, n + 5, h20, v0, Null, true),
     HalfEdge(n, h01, n + 2, p, Null, true),
     HalfEdge(n + 3, n + 1, h01, v1, Null, true),
     HalfEdge(n + 2, h12, n + 4, p, Null, true),
     HalfEdge(n + 5, n + 3, h12, v2, Null, true),
     HalfEdge(n + 4, h20, n, p, Null, true)]
  }

  /** The twins, links and origins splitTriangle writes into its six fresh
      records give SplitTriangleNew. */
  lemma SplitTriangleNewForm(h01: int, h12: int, h20: int, v0: int, v1: int, v2: int, p: int, n: int)
    ensures OriginB6(CycleB3(TwinB3(Fresh6, n), h01, h12, h20, n), v0, p, v1, p, v2, p) ==
      SplitTriangleNew(h01, h12, h20, v0, v1, v2, p, n)
  {
  }

  /** The twins, links and origins splitTriangle writes, after `new
      Vertex(p)` and six `new HalfEdge()`, leave the cycle relinked and the
      six records of SplitTriangleNew appended. */
  lemma SplitTriangleLinksForm(m: MeshState, h01: int, h12: int, h20: int, v0: int, v1: int, v2: int, p: int)
    requires 0 <= h01 < |m.edges| && 0 <= h12 < |m.edges| && 0 <= h20 < |m.edges| && 0 <= p < |m.vertices|
    ensures var n := |m.edges|;
      var y := AddEdges6(AddVertex(m, p));
      Origins6Of(SplitCycles(TwinPairs3(y, n), h01, h12, h20, n), n, v0, p, v1, p, v2, p) ==
        AddVertex(m.(edges := Relinked(m.edges, h01, h12, h20, n) +
                              SplitTriangleNew(h01, h12, h20, v0, v1, v2, p, n)), p)
  {
    var n := |m.edges|;
    var y := AddEdges6(AddVertex(m, p));
    TwinPairs3Form(y, m.edges, Fresh6, n);
    var m1 := TwinPairs3(y, n);
    var bt := TwinB3(Fresh6, n);
    SplitCyclesForm(m1, m.edges, bt, h01, h12, h20, n);
    var m2 := SplitCycles(m1, h01, h12, h20, n);
    Origins6(m2, Relinked(m.edges, h01, h12, h20, n), CycleB3(bt, h01, h12, h20, n), n, v0, p, v1, p, v2, p);
    SplitTriangleNewForm(h01, h12, h20, v0, v1, v2, p, n);
  }

  /** The faces the three linkEdgesAndFace of splitTriangle write into the
      appended block and into the old records. */
  function FaceB3(b: seq<HalfEdge>, f: int): (r: seq<HalfEdge>)
    requires |b| == 6
    ensures |r| == 6
  {
    var b1 := SetFaceAt(SetFaceAt(b, 2, f), 1, f);
    var b2 := SetFaceAt(SetFaceAt(b1, 4, f + 1), 3, f + 1);
    SetFaceAt(SetFaceAt(b2, 0, f + 2), 5, f + 2)
  }

  function FaceA3(a: seq<HalfEdge>, h01: int, h12: int, h20: int, f: int): (r: seq<HalfEdge>)
    requires 0 <= h01 < |a| && 0 <= h12 < |a| && 0 <= h20 < |a|
    ensures |r| == |a|
  {
    SetFaceAt(SetFaceAt(SetFaceAt(a, h01, f), h12, f + 1), h20, f + 2)
  }

  /** The three faces of splitTriangle on the wired state: old edges a, new
      edges b. */
  lemma SplitFaces(w: MeshState, a: seq<HalfEdge>, b: seq<HalfEdge>, h01: int, h12: int, h20: int, n: int, f: int)
    requires w.edges == a + b && |b| == 6 && n == |a| && f == |w.faces|
    requires 0 <= h01 < n && 0 <= h12 < n && 0 <= h20 < n && h01 != h12 && h12 != h20 && h20 != h01
    requires a[h01].next == n + 2 && b[2].next == n + 1 && b[1].next == h01
    requires a[h12].next == n + 4 && b[4].next == n + 3 && b[3].next == h12
    requires a[h20].next == n && b[0].next == n + 5 && b[5].next == h20
    ensures var s1 := FaceOf(w, h01); var s2 := FaceOf(s1, h12);
      Cycle(AddFace(w), h01, 3) && Cycle(AddFace(s1), h12, 3) && Cycle(AddFace(s2), h20, 3) &&
      FaceOf(s2, h20) ==
        w.(edges := FaceA3(a, h01, h12, h20, f) + FaceB3(b, f),
           faces := w.faces + [Face(h01, None), Face(h12, None), Face(h20, None)])
  {
    FaceStage(AddFace(w), a, b, h01, n + 2, n + 1, 2, 1, f);
    var s1 := FaceOf(w, h01);
    var a1 := SetFaceAt(a, h01, f);
    var b1 := SetFaceAt(SetFaceAt(b, 2, f), 1, f);
    FaceStage(AddFace(s1), a1, b1, h12, n + 4, n + 3, 4, 3, f + 1);
    var s2 := FaceOf(s1, h12);
    var a2 := SetFaceAt(a1, h12, f + 1);
    var b2 := SetFaceAt(SetFaceAt(b1, 4, f + 1), 3, f + 1);
    FaceStage(AddFace(s2), a2, b2, h20, n, n + 5, 0, 5, f + 2);
    Faces3(w.faces, h01, h12, h20);
  }

  /** The six new records of splitTriangle once their faces are set. */
  lemma SplitTriangleNewRecords(h01: int, h12: int, h20: int, v0: int, v1: int, v2: int, p: int, n: int, f: int)
    ensures FaceB3(SplitTriangleNew(h01, h12, h20, v0, v1, v2, p, n), f) == [
      HalfEdge(n + 1, n + 5, h20, v0, f + 2, true),
      HalfEdge(n, h01, n + 2, p, f, true),
      HalfEdge(n + 3, n + 1, h01, v1, f, true),
      HalfEdge(n + 2, h12, n + 4, p, f + 1, true),
      HalfEdge(n + 5, n + 3, h12, v2, f + 1, true),
      HalfEdge(n + 4, h20, n, p, f + 2, true)]
  {
  }

  /** The old records of splitTriangle once their faces are set. */
  lemma SplitTriangleOldRecords(e: seq<HalfEdge>, h01: int, h12: int, h20: int, n: int, f: int)
    requires 0 <= h01 < |e| && 0 <= h12 < |e| && 0 <= h20 < |e| && h01 != h12 && h12 != h20 && h20 != h01
    ensures var e1 := e[h01 := e[h01].(next := n + 2, prev := n + 1, face := f)];
      var e2 := e1[h12 := e1[h12].(next := n + 4, prev := n + 3, face := f + 1)];
      FaceA3(Relinked(e, h01, h12, h20, n), h01, h12, h20, f) ==
        e2[h20 := e2[h20].(next := n, prev := n + 5, face := f + 2)]
  {
  }

  /** SplitTriangleEdgesOf is what the face writes leave in the edge arena. */
  lemma SplitTriangleEdgesForm(e: seq<HalfEdge>, f: int, h01: int, h12: int, h20: int,
                               v0: int, v1: int, v2: int, p: int)
    requires 0 <= h01 < |e| && 0 <= h12 < |e| && 0 <= h20 < |e| && h01 != h12 && h12 != h20 && h20 != h01
    ensures SplitTriangleEdgesOf(e, f, h01, h12, h20, v0, v1, v2, p) ==
      FaceA3(Relinked(e, h01, h12, h20, |e|), h01, h12, h20, f) +
      FaceB3(SplitTriangleNew(h01, h12, h20, v0, v1, v2, p, |e|), f)
  {
    SplitTriangleNewRecords(h01, h12, h20, v0, v1, v2, p, |e|, f);
    SplitTriangleOldRecords(e, h01, h12, h20, |e|, f);
  }

  /** Each linkEdgesAndFace of splitTriangle meets a 3-cycle, and the three
      faces on the wired state w end in the edges of SplitTriangleEdgesOf
      and three new faces. */
  lemma SplitTriangleSteps(w: MeshState, e: seq<HalfEdge>, h01: int, h12: int, h20: int,
                           v0: int, v1: int, v2: int, p: int)
    requires 0 <= h01 < |e| && 0 <= h12 < |e| && 0 <= h20 < |e| && h01 != h12 && h12 != h20 && h20 != h01
    requires w.edges == Relinked(e, h01, h12, h20, |e|) + SplitTriangleNew(h01, h12, h20, v0, v1, v2, p, |e|)
    ensures var s1 := FaceOf(w, h01);
      var s2 := FaceOf(s1, h12);
      Cycle(AddFace(w), h01, 3) && Cycle(AddFace(s1), h12, 3) && Cycle(AddFace(s2), h20, 3) &&
      FaceOf(s2, h20) ==
        w.(edges := SplitTriangleEdgesOf(e, |w.faces|, h01, h12, h20, v0, v1, v2, p),
           faces := w.faces + [Face(h01, None), Face(h12, None), Face(h20, None)])
  {
    var n, f := |e|, |w.faces|;
    var a := Relinked(e, h01, h12, h20, n);
    var b := SplitTriangleNew(h01, h12, h20, v0, v1, v2, p, n);
    SplitFaces(w, a, b, h01, h12, h20, n, f);
    SplitTriangleEdgesForm(e, f, h01, h12, h20, v0, v1, v2, p);
  }

  // ---------------------------------------------------------------------
  // flip

  /** The two triangles around h01 (cycles h01, h12, h20 and h10, h03,
      h31) are made of six distinct edges. */
  predicate QuadAt(m: MeshState, h01: int) {
    TriangleAt(m, h01) && 0 <= m.edges[h01].twin < |m.edges| && TriangleAt(m, m.edges[h01].twin) &&
    var h12 := m.edges[h01].next;
    var h20 := m.edges[h12].next;
    var h10 := m.edges[h01].twin;
    var h03 := m.edges[h10].next;
    var h31 := m.edges[h03].next;
    h10 != h01 && h10 != h12 && h10 != h20 &&
    h03 != h01 && h03 != h12 && h03 != h20 &&
    h31 != h01 && h31 != h12 && h31 != h20
  }

  /** In a valid mesh the two triangles around an in-use edge form a quad. */
  lemma ValidQuadAt(m: MeshState, h01: int)
    requires MeshValid(m) && InUse(m, h01)
    ensures QuadAt(m, h01)
  {
    EdgeLaws(m, h01);
    var h10 := Twin(m, h01);
    EdgeLaws(m, h10);
    CycleFacts(m, h01, h01);
    CycleFacts(m, h10, h10);
    CycleFacts(m, h01, h10);
  }

  /** The two repairs of flip and splitTriangles: v0 away from h0 to h1,
      then v1 away from g0 to g1. */
  function Repair2(m: MeshState, v0: int, h0: int, h1: int, v1: int, g0: int, g1: int): (r: MeshState)
    requires IsVertex(m, v0) && IsVertex(m, v1)
    ensures r.edges == m.edges && r.faces == m.faces && |r.vertices| == |m.vertices|
  {
    RepairVertex(m, v0, h0, h1, v1);
    Repair(Repair(m, v0, h0, h1), v1, g0, g1)
  }

  /** Repairs write only vertex edges, so they commute with writes to the
      edge and face arenas. */
  lemma Repair2Frame(m: MeshState, v0: int, h0: int, h1: int, v1: int, g0: int, g1: int,
                     e: seq<HalfEdge>, fs: seq<Face>)
    requires IsVertex(m, v0) && IsVertex(m, v1)
    ensures Repair2(m, v0, h0, h1, v1, g0, g1).(edges := e, faces := fs) ==
      Repair2(m.(edges := e, faces := fs), v0, h0, h1, v1, g0, g1)
  {
  }

  /** What flip needs of h01: its two triangles form a quad and the ends
      of h01 are vertices. */
  predicate FlipReady(m: MeshState, h01: int) {
    QuadAt(m, h01) && IsVertex(m, Origin(m, h01)) && IsVertex(m, Origin(m, Twin(m, h01)))
  }

  /** flip up to its faces, in the order of Dcel.java: two half-edges,
      their twins, the two cycles, the origins and the two repairs. */
  function FlipWiring(m: MeshState, h01: int): MeshState
    requires FlipReady(m, h01)
  {
    var n := |m.edges|;
    var h12 := Next(m, h01);
    var h20 := Next(m, h12);
    var h10 := Twin(m, h01);
    var h03 := Next(m, h10);
    var h31 := Next(m, h03);
    var m3 := FlipLinksOf(AddEdge(AddEdge(m)), n, h12, h20, h03, h31, Origin(m, h20), Origin(m, h31));
    Repair2(m3, Origin(m, h01), h01, h03, Origin(m, h10), h10, h12)
  }

  /** The link and origin writes of flip on its two fresh edges n, n+1. */
  function FlipLinksOf(m: MeshState, n: int, h12: int, h20: int, h03: int, h31: int, v2: int, v3: int): (r: MeshState)
    requires 0 <= n && n + 2 <= |m.edges|
    requires 0 <= h12 < |m.edges| && 0 <= h20 < |m.edges| && 0 <= h03 < |m.edges| && 0 <= h31 < |m.edges|
    ensures |r.edges| == |m.edges| && r.faces == m.faces && r.vertices == m.vertices
    ensures r.upperLeftEdge == m.upperLeftEdge && r.rightEdge == m.rightEdge
  {
    var m1 := LinkTwinsOf(m, n, n + 1);
    var m2 := LinkPrevNextTriangleOf(LinkPrevNextTriangleOf(m1, h03, n + 1, h20), h12, n, h31);
    SetOrigin(SetOrigin(m2, n, v2), n + 1, v3)
  }

  /** The old records once flip has linked them to the new edges n, n+1. */
  function FlipRelinked(e: seq<HalfEdge>, h12: int, h20: int, h03: int, h31: int, n: int): (r: seq<HalfEdge>)
    requires 0 <= h12 < |e| && 0 <= h20 < |e| && 0 <= h03 < |e| && 0 <= h31 < |e|
    ensures |r| == |e|
  {
    SetLinksAt(SetLinksAt(SetLinksAt(SetLinksAt(e, h03, n + 1, h20), h20, h03, n + 1), h12, n, h31), h31, h12, n)
  }

  const Fresh2 := [FreshEdge, FreshEdge]

  /** The two new records of flip before their faces are set. */
  function FlipNew(b: seq<HalfEdge>, h12: int, h20: int, h03: int, h31: int, v2: int, v3: int, n: int): (r: seq<HalfEdge>)
    requires |b| == 2
    ensures |r| == 2
  {
    var bt := SetTwinAt(SetTwinAt(b, 0, n + 1), 1, n);
    var bl := SetLinksAt(SetLinksAt(bt, 1, h20, h03), 0, h31, h12);
    SetOriginAt(SetOriginAt(bl, 0, v2), 1, v3)
  }

  /** The state after the wiring of flip: the faces are not yet set. */
  function FlipWired(m: MeshState, h01: int): (r: MeshState)
    requires FlipReady(m, h01)
    ensures |r.edges| == |m.edges| + 2 && r.faces == m.faces && |r.vertices| == |m.vertices|
  {
    var n := |m.edges|;
    var h12 := Next(m, h01);
    var h20 := Next(m, h12);
    var h10 := Twin(m, h01);
    var h03 := Next(m, h10);
    var h31 := Next(m, h03);
    var x := m.(edges := FlipRelinked(m.edges, h12, h20, h03, h31, n) +
                         FlipNew(Fresh2, h12, h20, h03, h31, Origin(m, h20), Origin(m, h31), n));
    Repair2(x, Origin(m, h01), h01, h03, Origin(m, h10), h10, h12)
  }

  /** The wiring writes of flip end in FlipWired. */
  lemma FlipWiringForm(m: MeshState, h01: int)
    requires FlipReady(m, h01)
    ensures FlipWiring(m, h01) == FlipWired(m, h01)
  {
    var n := |m.edges|;
    var h12 := Next(m, h01);
    var h20 := Next(m, h12);
    var h10 := Twin(m, h01);
    var h03 := Next(m, h10);
    var h31 := Next(m, h03);
    var v2, v3 := Origin(m, h20), Origin(m, h31);
    var m0 := AddEdge(AddEdge(m));
    assert m0.edges == m.edges + Fresh2;
    TwinsStage(m0, m.edges, Fresh2, n, n + 1, 0, 1);
    var m1 := LinkTwinsOf(m0, n, n + 1);
    var bt := SetTwinAt(SetTwinAt(Fresh2, 0, n + 1), 1, n);
    CycleStageOld2(m1, m.edges, bt, h03, n + 1, h20, 1);
    var ma := LinkPrevNextTriangleOf(m1, h03, n + 1, h20);
    var a1 := SetLinksAt(SetLinksAt(m.edges, h03, n + 1, h20), h20, h03, n + 1);
    var b1 := SetLinksAt(bt, 1, h20, h03);
    CycleStageOld2(ma, a1, b1, h12, n, h31, 0);
    var m2 := LinkPrevNextTriangleOf(ma, h12, n, h31);
    var a2 := FlipRelinked(m.edges, h12, h20, h03, h31, n);
    var b2 := SetLinksAt(b1, 0, h31, h12);
    OriginStage(m2, a2, b2, n, 0, v2);
    OriginStage(SetOrigin(m2, n, v2), a2, SetOriginAt(b2, 0, v2), n + 1, 1, v3);
  }

  /** The two faces and the two retirements of flip, on the wired state. */
  function FlipFinish(w: MeshState, h01: int, h10: int, h12: int, h03: int): MeshState
    requires 0 <= h01 < |w.edges| && 0 <= h10 < |w.edges|
  {
    var f := |w.faces|;
    var s := AddFace(AddFace(w));
    var s2 := LinkEdgesAndFaceOf(LinkEdgesAndFaceOf(s, h03, f, 3), h12, f + 1, 3);
    Retire(Retire(s2, h01), h10)
  }

  /** The new records of flip, field by field. */
  lemma FlipNewRecords(h12: int, h20: int, h03: int, h31: int, v2: int, v3: int, n: int, f: int)
    ensures SetFaceAt(SetFaceAt(FlipNew(Fresh2, h12, h20, h03, h31, v2, v3, n), 1, f), 0, f + 1) ==
      [HalfEdge(n + 1, h31, h12, v2, f + 1, true), HalfEdge(n, h20, h03, v3, f, true)]
  {
  }

  /** The old records of flip, once their faces are set: the four edges
      of the quad other than h01 and h10, each written once. */
  lemma FlipOldRecords(e: seq<HalfEdge>, h12: int, h20: int, h03: int, h31: int, n: int, f: int)
    requires 0 <= h12 < |e| && 0 <= h20 < |e| && 0 <= h03 < |e| && 0 <= h31 < |e|
    requires h03 != h20 && h03 != h12 && h03 != h31 && h20 != h12 && h20 != h31 && h12 != h31
    ensures var e1 := e[h03 := e[h03].(next := n + 1, prev := h20, face := f)];
      var e2 := e1[h20 := e1[h20].(next := h03, prev := n + 1, face := f)];
      var e3 := e2[h12 := e2[h12].(next := n, prev := h31, face := f + 1)];
      var rl := FlipRelinked(e, h12, h20, h03, h31, n);
      SetFaceAt(SetFaceAt(SetFaceAt(SetFaceAt(rl, h03, f), h20, f), h12, f + 1), h31, f + 1) ==
        e3[h31 := e3[h31].(next := h12, prev := n, face := f + 1)]
  {
    var e1 := e[h03 := e[h03].(next := n + 1, prev := h20, face := f)];
    var e2 := e1[h20 := e1[h20].(next := h03, prev := n + 1, face := f)];
    var e3 := e2[h12 := e2[h12].(next := n, prev := h31, face := f + 1)];
    var e4 := e3[h31 := e3[h31].(next := h12, prev := n, face := f + 1)];
    var rl := FlipRelinked(e, h12, h20, h03, h31, n);
    var fa := SetFaceAt(SetFaceAt(SetFaceAt(SetFaceAt(rl, h03, f), h20, f), h12, f + 1), h31, f + 1);
    forall j | 0 <= j < |e|
      ensures fa[j] == e4[j]
    {
      FlipOldRecordAt(e, h12, h20, h03, h31, n, f, j);
    }
  }

  /** FlipOldRecords at one position j. */
  lemma FlipOldRecordAt(e: seq<HalfEdge>, h12: int, h20: int, h03: int, h31: int, n: int, f: int, j: int)
    requires 0 <= h12 < |e| && 0 <= h20 < |e| && 0 <= h03 < |e| && 0 <= h31 < |e| && 0 <= j < |e|
    requires h03 != h20 && h03 != h12 && h03 != h31 && h20 != h12 && h20 != h31 && h12 != h31
    ensures var e1 := e[h03 := e[h03].(next := n + 1, prev := h20, face := f)];
      var e2 := e1[h20 := e1[h20].(next := h03, prev := n + 1, face := f)];
      var e3 := e2[h12 := e2[h12].(next := n, prev := h31, face := f + 1)];
      var rl := FlipRelinked(e, h12, h20, h03, h31, n);
      SetFaceAt(SetFaceAt(SetFaceAt(SetFaceAt(rl, h03, f), h20, f), h12, f + 1), h31, f + 1)[j] ==
        e3[h31 := e3[h31].(next := h12, prev := n, face := f + 1)][j]
  {
    var rl := FlipRelinked(e, h12, h20, h03, h31, n);
    var fa := SetFaceAt(SetFaceAt(SetFaceAt(SetFaceAt(rl, h03, f), h20, f), h12, f + 1), h31, f + 1);
    if j == h03 {
      assert rl[j] == e[j].(next := n + 1, prev := h20);
      assert fa[j] == rl[j].(face := f);
    } else if j == h20 {
      assert rl[j] == e[j].(next := h03, prev := n + 1);
      assert fa[j] == rl[j].(face := f);
    } else if j == h12 {
      assert rl[j] == e[j].(next := n, prev := h31);
      assert fa[j] == rl[j].(face := f + 1);
    } else if j == h31 {
      assert rl[j] == e[j].(next := h12, prev := n);
      assert fa[j] == rl[j].(face := f + 1);
    } else {
      assert rl[j] == e[j] && fa[j] == e[j];
    }
  }


  /** The edge arena at the end of flip, from the old records a and the
      new records b of the wired state. */
  function FlipFinalEdges(a: seq<HalfEdge>, b: seq<HalfEdge>, h01: int, h10: int,
                          h12: int, h20: int, h03: int, h31: int, f: int): (r: seq<HalfEdge>)
    requires 0 <= h01 < |a| && 0 <= h10 < |a| && 0 <= h12 < |a| && 0 <= h20 < |a| && 0 <= h03 < |a| && 0 <= h31 < |a|
    requires |b| == 2
    ensures |r| == |a| + 2
  {
    RetireAt(RetireAt(SetFaceAt(SetFaceAt(SetFaceAt(SetFaceAt(a, h03, f), h20, f), h12, f + 1), h31, f + 1), h01), h10) +
    SetFaceAt(SetFaceAt(b, 1, f), 0, f + 1)
  }

  /** The face and retirement writes of flip on the wired state: two
      3-cycles and the arenas the flip leaves. */
  lemma FlipFinishForm(w: MeshState, a: seq<HalfEdge>, b: seq<HalfEdge>, h01: int, h10: int,
                       h12: int, h20: int, h03: int, h31: int, n: int)
    requires w.edges == a + b && |b| == 2 && n == |a|
    requires 0 <= h01 < n && 0 <= h10 < n && 0 <= h12 < n && 0 <= h20 < n && 0 <= h03 < n && 0 <= h31 < n
    requires h03 != h20 && h12 != h31
    requires a[h03].next == n + 1 && b[1].next == h20 && a[h20].next == h03
    requires a[h12].next == n && b[0].next == h31 && a[h31].next == h12
    ensures var f := |w.faces|;
      var s := AddFace(AddFace(w));
      Cycle(s, h03, 3) && Cycle(LinkEdgesAndFaceOf(s, h03, f, 3), h12, 3) &&
      FlipFinish(w, h01, h10, h12, h03) ==
        w.(edges := FlipFinalEdges(a, b, h01, h10, h12, h20, h03, h31, f),
           faces := w.faces + [Face(h03, None), Face(h12, None)])
  {
    var f := |w.faces|;
    var s := AddFace(AddFace(w));
    FaceStageOld2(s, a, b, h03, n + 1, h20, 1, f);
    var s1 := LinkEdgesAndFaceOf(s, h03, f, 3);
    var a1 := SetFaceAt(SetFaceAt(a, h03, f), h20, f);
    var b1 := SetFaceAt(b, 1, f);
    FaceStageOld2(s1, a1, b1, h12, n, h31, 0, f + 1);
    var s2 := LinkEdgesAndFaceOf(s1, h12, f + 1, 3);
    var a2 := SetFaceAt(SetFaceAt(a1, h12, f + 1), h31, f + 1);
    var b2 := SetFaceAt(b1, 0, f + 1);
    RetireStage(s2, a2, b2, h01);
    RetireStage(Retire(s2, h01), RetireAt(a2, h01), b2, h10);
  }

  /** The state flip ends in, from its old records and its two new ones. */
  function FlipFinal(m: MeshState, h01: int): MeshState
    requires FlipReady(m, h01)
  {
    var n, f := |m.edges|, |m.faces|;
    var h12 := Next(m, h01);
    var h20 := Next(m, h12);
    var h10 := Twin(m, h01);
    var h03 := Next(m, h10);
    var h31 := Next(m, h03);
    var a := FlipRelinked(m.edges, h12, h20, h03, h31, n);
    var b := FlipNew(Fresh2, h12, h20, h03, h31, Origin(m, h20), Origin(m, h31), n);
    var x := m.(edges := FlipFinalEdges(a, b, h01, h10, h12, h20, h03, h31, f),
                faces := m.faces + [Face(h03, None), Face(h12, None)]);
    Repair2(x, Origin(m, h01), h01, h03, Origin(m, h10), h10, h12)
  }

  /** The edges FlipFinal writes are those of FlipEdgesOf. */
  lemma FlipEdgesForm(e: seq<HalfEdge>, f: int, h01: int, h10: int, h12: int, h20: int, h03: int, h31: int,
                      v2: int, v3: int)
    requires 0 <= h01 < |e| && 0 <= h10 < |e| && 0 <= h12 < |e| && 0 <= h20 < |e| && 0 <= h03 < |e| && 0 <= h31 < |e|
    requires h03 != h20 && h03 != h12 && h03 != h31 && h20 != h12 && h20 != h31 && h12 != h31
    ensures FlipFinalEdges(FlipRelinked(e, h12, h20, h03, h31, |e|), FlipNew(Fresh2, h12, h20, h03, h31, v2, v3, |e|),
      h01, h10, h12, h20, h03, h31, f) == FlipEdgesOf(e, f, h01, h10, h12, h20, h03, h31, v2, v3)
  {
    FlipNewRecords(h12, h20, h03, h31, v2, v3, |e|, f);
    FlipOldRecords(e, h12, h20, h03, h31, |e|, f);
    FlipEdgesRetired(e, f, h01, h10, h12, h20, h03, h31, v2, v3);
  }

  /** FlipEdgesOf retires h01 and h10 after its four relinks. */
  lemma FlipEdgesRetired(e: seq<HalfEdge>, f: int, h01: int, h10: int, h12: int, h20: int, h03: int, h31: int,
                         v2: int, v3: int)
    requires 0 <= h01 < |e| && 0 <= h10 < |e| && 0 <= h12 < |e| && 0 <= h20 < |e| && 0 <= h03 < |e| && 0 <= h31 < |e|
    ensures var n := |e|;
      var e1 := e[h03 := e[h03].(next := n + 1, prev := h20, face := f)];
      var e2 := e1[h20 := e1[h20].(next := h03, prev := n + 1, face := f)];
      var e3 := e2[h12 := e2[h12].(next := n, prev := h31, face := f + 1)];
      var e4 := e3[h31 := e3[h31].(next := h12, prev := n, face := f + 1)];
      FlipEdgesOf(e, f, h01, h10, h12, h20, h03, h31, v2, v3) == RetireAt(RetireAt(e4, h01), h10) + [
        HalfEdge(n + 1, h31, h12, v2, f + 1, true),
        HalfEdge(n, h20, h03, v3, f, true)]
  {
  }

  /** FlipSpec, built by rebuilding the records, is FlipFinal. */
  lemma FlipSpecForm(m: MeshState, h01: int)
    requires AllLinked(m) && QuadAt(m, h01)
    ensures FlipSpec(m, h01) == FlipFinal(m, h01)
  {
    var h12 := Next(m, h01);
    var h20 := Next(m, h12);
    var h10 := Twin(m, h01);
    var h03 := Next(m, h10);
    var h31 := Next(m, h03);
    assert Linked(m, h01) && Linked(m, h10);
    FlipEdgesForm(m.edges, |m.faces|, h01, h10, h12, h20, h03, h31, Origin(m, h20), Origin(m, h31));
  }

  /** The face and retirement writes of flip, on FlipWired. */
  lemma FlipFinishWired(m: MeshState, h01: int)
    requires FlipReady(m, h01)
    ensures var h12 := Next(m, h01);
      var h10 := Twin(m, h01);
      var h03 := Next(m, h10);
      var w := FlipWired(m, h01);
      var s := AddFace(AddFace(w));
      Cycle(s, h03, 3) && Cycle(LinkEdgesAndFaceOf(s, h03, |w.faces|, 3), h12, 3) &&
      FlipFinish(w, h01, h10, h12, h03) == FlipFinal(m, h01)
  {
    var n, f := |m.edges|, |m.faces|;
    var h12 := Next(m, h01);
    var h20 := Next(m, h12);
    var h10 := Twin(m, h01);
    var h03 := Next(m, h10);
    var h31 := Next(m, h03);
    var v0, v1 := Origin(m, h01), Origin(m, h10);
    var a := FlipRelinked(m.edges, h12, h20, h03, h31, n);
    var b := FlipNew(Fresh2, h12, h20, h03, h31, Origin(m, h20), Origin(m, h31), n);
    var x := m.(edges := a + b);
    var w := FlipWired(m, h01);
    assert b[1].next == h20 && b[0].next == h31;
    FlipFinishForm(w, a, b, h01, h10, h12, h20, h03, h31, n);
    var e := FlipFinalEdges(a, b, h01, h10, h12, h20, h03, h31, f);
    var fs := m.faces + [Face(h03, None), Face(h12, None)];
    Repair2Frame(x, v0, h01, h03, v1, h10, h12, e, fs);
  }

  // ---------------------------------------------------------------------
  // splitTriangles, with the four linkPrevNextTriangle calls its cycles
  // need (see Surgery.SplitTrianglesSpec)

  const Fresh8 := [FreshEdge, FreshEdge, FreshEdge, FreshEdge, FreshEdge, FreshEdge, FreshEdge, FreshEdge]

  /** Eight `new HalfEdge()` in a row. */
  function AddEdges8(m: MeshState): (r: MeshState)
    ensures r.edges == m.edges + Fresh8
    ensures r.faces == m.faces && r.vertices == m.vertices
    ensures r.upperLeftEdge == m.upperLeftEdge && r.rightEdge == m.rightEdge
  {
    AddEdge(AddEdge(AddEdges6(m)))
  }

  /** The four linkTwins of splitTriangles, on the eight edges from n on. */
  function TwinPairs4(m: MeshState, n: int): (r: MeshState)
    requires 0 <= n && n + 8 <= |m.edges|
    ensures |r.edges| == |m.edges| && r.faces == m.faces && r.vertices == m.vertices
    ensures r.upperLeftEdge == m.upperLeftEdge && r.rightEdge == m.rightEdge
  {
    LinkTwinsOf(TwinPairs3(m, n), n + 6, n + 7)
  }

  /** The twin fields TwinPairs4 writes into the appended block. */
  function TwinB4(b: seq<HalfEdge>, n: int): (r: seq<HalfEdge>)
    requires |b| == 8
    ensures |r| == 8
  {
    var b1 := SetTwinAt(SetTwinAt(b, 0, n + 1), 1, n);
    var b2 := SetTwinAt(SetTwinAt(b1, 2, n + 3), 3, n + 2);
    var b3 := SetTwinAt(SetTwinAt(b2, 4, n + 5), 5, n + 4);
    SetTwinAt(SetTwinAt(b3, 6, n + 7), 7, n + 6)
  }

  lemma TwinPairs4Form(m: MeshState, a: seq<HalfEdge>, b: seq<HalfEdge>, n: int)
    requires m.edges == a + b && |b| == 8 && n == |a|
    ensures TwinPairs4(m, n) == m.(edges := a + TwinB4(b, n))
  {
    var b1 := SetTwinAt(SetTwinAt(b, 0, n + 1), 1, n);
    var b2 := SetTwinAt(SetTwinAt(b1, 2, n + 3), 3, n + 2);
    var b3 := SetTwinAt(SetTwinAt(b2, 4, n + 5), 5, n + 4);
    TwinsStage(m, a, b, n, n + 1, 0, 1);
    var ma := LinkTwinsOf(m, n, n + 1);
    TwinsStage(ma, a, b1, n + 2, n + 3, 2, 3);
    var mb := LinkTwinsOf(ma, n + 2, n + 3);
    TwinsStage(mb, a, b2, n + 4, n + 5, 4, 5);
    var mc := LinkTwinsOf(mb, n + 4, n + 5);
    TwinsStage(mc, a, b3, n + 6, n + 7, 6, 7);
  }

  /** The four linkPrevNextTriangle splitTriangles needs: the cycles
      h04, h42, h20 and h41, h12, h24 and h14, h43, h31 and h40, h03, h34. */
  function QuadCycles(m: MeshState, h12: int, h20: int, h03: int, h31: int, n: int): (r: MeshState)
    requires 0 <= h12 < |m.edges| && 0 <= h20 < |m.edges| && 0 <= h03 < |m.edges| && 0 <= h31 < |m.edges|
    requires 0 <= n && n + 8 <= |m.edges|
    ensures |r.edges| == |m.edges| && r.faces == m.faces && r.vertices == m.vertices
    ensures r.upperLeftEdge == m.upperLeftEdge && r.rightEdge == m.rightEdge
  {
    var m1 := LinkPrevNextTriangleOf(m, n, n + 5, h20);
    var m2 := LinkPrevNextTriangleOf(m1, n + 3, h12, n + 4);
    var m3 := LinkPrevNextTriangleOf(m2, n + 2, n + 7, h31);
    LinkPrevNextTriangleOf(m3, n + 1, h03, n + 6)
  }

  /** The old records h20, h12, h31, h03 once splitTriangles has linked
      them to the new edges from n on. */
  function QuadRelinked(e: seq<HalfEdge>, h12: int, h20: int, h03: int, h31: int, n: int): (r: seq<HalfEdge>)
    requires 0 <= h12 < |e| && 0 <= h20 < |e| && 0 <= h03 < |e| && 0 <= h31 < |e|
    ensures |r| == |e|
  {
    SetLinksAt(SetLinksAt(SetLinksAt(SetLinksAt(e, h20, n, n + 5), h12, n + 4, n + 3), h31, n + 2, n + 7), h03, n + 6, n + 1)
  }

  /** The links QuadCycles writes into the appended block. */
  function CycleB4(b: seq<HalfEdge>, h12: int, h20: int, h03: int, h31: int, n: int): (r: seq<HalfEdge>)
    requires |b| == 8
    ensures |r| == 8
  {
    var b1 := SetLinksAt(SetLinksAt(b, 0, n + 5, h20), 5, h20, n);
    var b2 := SetLinksAt(SetLinksAt(b1, 3, h12, n + 4), 4, n + 3, h12);
    var b3 := SetLinksAt(SetLinksAt(b2, 2, n + 7, h31), 7, h31, n + 2);
    SetLinksAt(SetLinksAt(b3, 1, h03, n + 6), 6, n + 1, h03)
  }

  /** The first two triangles QuadCycles links, on a mesh split as a + b. */
  lemma QuadCyclesFirstTwo(m: MeshState, a: seq<HalfEdge>, b: seq<HalfEdge>, h12: int, h20: int, n: int)
    requires m.edges == a + b && |b| == 8 && n == |a| && 0 <= h12 < n && 0 <= h20 < n
    ensures LinkPrevNextTriangleOf(LinkPrevNextTriangleOf(m, n, n + 5, h20), n + 3, h12, n + 4) ==
      m.(edges := SetLinksAt(SetLinksAt(a, h20, n, n + 5), h12, n + 4, n + 3) +
                  SetLinksAt(SetLinksAt(SetLinksAt(SetLinksAt(b, 0, n + 5, h20), 5, h20, n), 3, h12, n + 4), 4, n + 3, h12))
  {
    var a1 := SetLinksAt(a, h20, n, n + 5);
    var b1 := SetLinksAt(SetLinksAt(b, 0, n + 5, h20), 5, h20, n);
    CycleStageNew2(m, a, b, n, n + 5, h20, 0, 5);
    CycleStageMid(LinkPrevNextTriangleOf(m, n, n + 5, h20), a1, b1, n + 3, h12, n + 4, 3, 4);
  }

  lemma QuadCyclesForm(m: MeshState, a: seq<HalfEdge>, b: seq<HalfEdge>, h12: int, h20: int, h03: int, h31: int, n: int)
    requires m.edges == a + b && |b| == 8 && n == |a|
    requires 0 <= h12 < n && 0 <= h20 < n && 0 <= h03 < n && 0 <= h31 < n
    ensures QuadCycles(m, h12, h20, h03, h31, n) ==
      m.(edges := QuadRelinked(a, h12, h20, h03, h31, n) + CycleB4(b, h12, h20, h03, h31, n))
  {
    var a2 := SetLinksAt(SetLinksAt(a, h20, n, n + 5), h12, n + 4, n + 3);
    var b1 := SetLinksAt(SetLinksAt(b, 0, n + 5, h20), 5, h20, n);
    var b2 := SetLinksAt(SetLinksAt(b1, 3, h12, n + 4), 4, n + 3, h12);
    QuadCyclesFirstTwo(m, a, b, h12, h20, n);
    var m2 := LinkPrevNextTriangleOf(LinkPrevNextTriangleOf(m, n, n + 5, h20), n + 3, h12, n + 4);
    QuadCyclesLastTwo(m2, a2, b2, h03, h31, n);
  }

  /** The last two triangles QuadCycles links, on a mesh split as a + b. */
  lemma QuadCyclesLastTwo(m: MeshState, a: seq<HalfEdge>, b: seq<HalfEdge>, h03: int, h31: int, n: int)
    requires m.edges == a + b && |b| == 8 && n == |a| && 0 <= h03 < n && 0 <= h31 < n
    ensures LinkPrevNextTriangleOf(LinkPrevNextTriangleOf(m, n + 2, n + 7, h31), n + 1, h03, n + 6) ==
      m.(edges := SetLinksAt(SetLinksAt(a, h31, n + 2, n + 7), h03, n + 6, n + 1) +
                  SetLinksAt(SetLinksAt(SetLinksAt(SetLinksAt(b, 2, n + 7, h31), 7, h31, n + 2), 1, h03, n + 6), 6, n + 1, h03))
  {
    var a3 := SetLinksAt(a, h31, n + 2, n + 7);
    var b3 := SetLinksAt(SetLinksAt(b, 2, n + 7, h31), 7, h31, n + 2);
    CycleStageNew2(m, a, b, n + 2, n + 7, h31, 2, 7);
    CycleStageMid(LinkPrevNextTriangleOf(m, n + 2, n + 7, h31), a3, b3, n + 1, h03, n + 6, 1, 6);
  }

  /** The origins of the eight edges from n on: v0, v4, v1, v4, v2, v4,
      v3, v4. */
  function Origins8Of(m: MeshState, n: int, v0: int, v1: int, v2: int, v3: int, v4: int): (r: MeshState)
    requires 0 <= n && n + 8 <= |m.edges|
    ensures |r.edges| == |m.edges| && r.faces == m.faces && r.vertices == m.vertices
    ensures r.upperLeftEdge == m.upperLeftEdge && r.rightEdge == m.rightEdge
  {
    SetOrigin(SetOrigin(Origins6Of(m, n, v0, v4, v1, v4, v2, v4), n + 6, v3), n + 7, v4)
  }

  function OriginB8(b: seq<HalfEdge>, v0: int, v1: int, v2: int, v3: int, v4: int): (r: seq<HalfEdge>)
    requires |b| == 8
    ensures |r| == 8
  {
    var b6 := SetOriginAt(SetOriginAt(SetOriginAt(SetOriginAt(SetOriginAt(SetOriginAt(b,
      0, v0), 1, v4), 2, v1), 3, v4), 4, v2), 5, v4);
    SetOriginAt(SetOriginAt(b6, 6, v3), 7, v4)
  }

  lemma Origins8(m: MeshState, a: seq<HalfEdge>, b: seq<HalfEdge>, n: int, v0: int, v1: int, v2: int, v3: int, v4: int)
    requires m.edges == a + b && |b| == 8 && n == |a|
    ensures Origins8Of(m, n, v0, v1, v2, v3, v4) == m.(edges := a + OriginB8(b, v0, v1, v2, v3, v4))
  {
    var d1 := SetOriginAt(b, 0, v0);
    var d2 := SetOriginAt(d1, 1, v4);
    var d3 := SetOriginAt(d2, 2, v1);
    var d4 := SetOriginAt(d3, 3, v4);
    var d5 := SetOriginAt(d4, 4, v2);
    var d6 := SetOriginAt(d5, 5, v4);
    var d7 := SetOriginAt(d6, 6, v3);
    OriginStage(m, a, b, n, 0, v0);
    var s1 := SetOrigin(m, n, v0);
    OriginStage(s1, a, d1, n + 1, 1, v4);
    var s2 := SetOrigin(s1, n + 1, v4);
    OriginStage(s2, a, d2, n + 2, 2, v1);
    var s3 := SetOrigin(s2, n + 2, v1);
    OriginStage(s3, a, d3, n + 3, 3, v4);
    var s4 := SetOrigin(s3, n + 3, v4);
    OriginStage(s4, a, d4, n + 4, 4, v2);
    var s5 := SetOrigin(s4, n + 4, v2);
    OriginStage(s5, a, d5, n + 5, 5, v4);
    var s6 := SetOrigin(s5, n + 5, v4);
    OriginStage(s6, a, d6, n + 6, 6, v3);
    var s7 := SetOrigin(s6, n + 6, v3);
    OriginStage(s7, a, d7, n + 7, 7, v4);
  }

  /** Creating the vertex for i4 before the repairs of v0 and v1 and
      setting its edge after them is the same as doing both after. */
  lemma RepairAddVertex(x: MeshState, i: int, v0: int, h0: int, h1: int, v1: int, g0: int, g1: int, y: int)
    requires IsVertex(x, v0) && IsVertex(x, v1) && 0 <= i < |x.vertices| && i != v0 && i != v1
    ensures IsVertex(AddVertex(x, i), v0) && IsVertex(AddVertex(x, i), v1)
    ensures SetVertexEdgeOf(Repair2(AddVertex(x, i), v0, h0, h1, v1, g0, g1), i, y) ==
      SetVertexEdgeOf(Repair2(x, v0, h0, h1, v1, g0, g1), i, y)
  {
    var x1 := AddVertex(x, i);
    RepairVertex(x, v0, h0, h1, v1);
    RepairVertex(x1, v0, h0, h1, v1);
  }

  /** The eight new records of splitTriangles once wired, before their
      faces are set: h04, h40, h14, h41, h24, h42, h34, h43. */
  function SplitTrianglesNew(h12: int, h20: int, h03: int, h31: int, v0: int, v1: int, v2: int, v3: int,
                             i4: int, n: int): (r: seq<HalfEdge>)
    ensures |r| == 8
  {
    [HalfEdge(n + 1, n + 5, h20, v0, Null, true),
     HalfEdge(n, h03, n + 6, i4, Null, true),
     HalfEdge(n + 3, n + 7, h31, v1, Null, true),
     HalfEdge(n + 2, h12, n + 4, i4, Null, true),
     HalfEdge(n + 5, n + 3, h12, v2, Null, true),
     HalfEdge(n + 4, h20, n, i4, Null, true),
     HalfEdge(n + 7, n + 1, h03, v3, Null, true),
     HalfEdge(n + 6, h31, n + 2, i4, Null, true)]
  }

  /** The twins, links and origins splitTriangles writes into its eight
      fresh records give SplitTrianglesNew. */
  lemma SplitTrianglesNewForm(h12: int, h20: int, h03: int, h31: int, v0: int, v1: int, v2: int, v3: int,
                              i4: int, n: int)
    ensures OriginB8(CycleB4(TwinB4(Fresh8, n), h12, h20, h03, h31, n), v0, v1, v2, v3, i4) ==
      SplitTrianglesNew(h12, h20, h03, h31, v0, v1, v2, v3, i4, n)
  {
  }

  /** The twins, links and origins splitTriangles writes, after `new
      Vertex(i4)` and eight `new HalfEdge()`, leave the old records
      relinked and the eight records of SplitTrianglesNew appended. */
  lemma SplitTrianglesLinksForm(m: MeshState, h12: int, h20: int, h03: int, h31: int,
                                v0: int, v1: int, v2: int, v3: int, i4: int)
    requires 0 <= h12 < |m.edges| && 0 <= h20 < |m.edges| && 0 <= h03 < |m.edges| && 0 <= h31 < |m.edges|
    requires 0 <= i4 < |m.vertices|
    ensures var n := |m.edges|;
      var y := AddEdges8(AddVertex(m, i4));
      Origins8Of(QuadCycles(TwinPairs4(y, n), h12, h20, h03, h31, n), n, v0, v1, v2, v3, i4) ==
        AddVertex(m.(edges := QuadRelinked(m.edges, h12, h20, h03, h31, n) +
                              SplitTrianglesNew(h12, h20, h03, h31, v0, v1, v2, v3, i4, n)), i4)
  {
    var n := |m.edges|;
    var y := AddEdges8(AddVertex(m, i4));
    TwinPairs4Form(y, m.edges, Fresh8, n);
    var m1 := TwinPairs4(y, n);
    var bt := TwinB4(Fresh8, n);
    QuadCyclesForm(m1, m.edges, bt, h12, h20, h03, h31, n);
    var m2 := QuadCycles(m1, h12, h20, h03, h31, n);
    var ar := QuadRelinked(m.edges, h12, h20, h03, h31, n);
    Origins8(m2, ar, CycleB4(bt, h12, h20, h03, h31, n), n, v0, v1, v2, v3, i4);
    SplitTrianglesNewForm(h12, h20, h03, h31, v0, v1, v2, v3, i4, n);
  }

  /** The four faces and the two retirements of splitTriangles, on the
      wired state whose new edges start at n. */
  function SplitTrianglesFinish(w: MeshState, h01: int, h10: int, n: int): MeshState
    requires 0 <= h01 < |w.edges| && 0 <= h10 < |w.edges|
  {
    var f := |w.faces|;
    var s := AddFace(AddFace(AddFace(AddFace(w))));
    var s1 := LinkEdgesAndFaceOf(s, n, f, 3);
    var s2 := LinkEdgesAndFaceOf(s1, n + 3, f + 1, 3);
    var s3 := LinkEdgesAndFaceOf(s2, n + 2, f + 2, 3);
    var s4 := LinkEdgesAndFaceOf(s3, n + 1, f + 3, 3);
    Retire(Retire(s4, h01), h10)
  }

  /** The faces the four linkEdgesAndFace of splitTriangles write into the
      appended block. */
  function FaceB4(b: seq<HalfEdge>, f: int): (r: seq<HalfEdge>)
    requires |b| == 8
    ensures |r| == 8
  {
    var b1 := SetFaceAt(SetFaceAt(b, 0, f), 5, f);
    var b2 := SetFaceAt(SetFaceAt(b1, 3, f + 1), 4, f + 1);
    var b3 := SetFaceAt(SetFaceAt(b2, 2, f + 2), 7, f + 2);
    SetFaceAt(SetFaceAt(b3, 1, f + 3), 6, f + 3)
  }

  /** The faces the four linkEdgesAndFace of splitTriangles write into the
      old records. */
  function FaceA4(a: seq<HalfEdge>, h12: int, h20: int, h03: int, h31: int, f: int): (r: seq<HalfEdge>)
    requires 0 <= h12 < |a| && 0 <= h20 < |a| && 0 <= h03 < |a| && 0 <= h31 < |a|
    ensures |r| == |a|
  {
    SetFaceAt(SetFaceAt(SetFaceAt(SetFaceAt(a, h20, f), h12, f + 1), h31, f + 2), h03, f + 3)
  }

  /** Appending four faces, then setting the edge of each. */
  lemma Faces4(s: seq<Face>, x: int, y: int, z: int, u: int)
    ensures var f := |s|;
      var t := s + [Face(Null, None)] + [Face(Null, None)] + [Face(Null, None)] + [Face(Null, None)];
      t[f := t[f].(edge := x)][f + 1 := t[f + 1].(edge := y)][f + 2 := t[f + 2].(edge := z)][f + 3 := t[f + 3].(edge := u)] ==
        s + [Face(x, None), Face(y, None), Face(z, None), Face(u, None)]
  {
  }

  /** The first two linkEdgesAndFace of splitTriangles, on the cycles of
      h04 and h41. */
  lemma SplitTrianglesFaces01(s: MeshState, a: seq<HalfEdge>, b: seq<HalfEdge>, h12: int, h20: int, n: int, f: int)
    requires s.edges == a + b && |b| == 8 && n == |a| && 0 <= f && f + 1 < |s.faces|
    requires 0 <= h12 < n && 0 <= h20 < n
    requires b[0].next == n + 5 && b[5].next == h20 && a[h20].next == n
    requires b[3].next == h12 && a[h12].next == n + 4 && b[4].next == n + 3
    ensures var s1 := LinkEdgesAndFaceOf(s, n, f, 3);
      Cycle(s, n, 3) && Cycle(s1, n + 3, 3) &&
      LinkEdgesAndFaceOf(s1, n + 3, f + 1, 3) ==
        s.(edges := SetFaceAt(SetFaceAt(a, h20, f), h12, f + 1) +
                    SetFaceAt(SetFaceAt(SetFaceAt(SetFaceAt(b, 0, f), 5, f), 3, f + 1), 4, f + 1),
           faces := s.faces[f := s.faces[f].(edge := n)][f + 1 := s.faces[f + 1].(edge := n + 3)])
  {
    FaceStageNew2(s, a, b, n, n + 5, h20, 0, 5, f);
    var s1 := LinkEdgesAndFaceOf(s, n, f, 3);
    var a1 := SetFaceAt(a, h20, f);
    var b1 := SetFaceAt(SetFaceAt(b, 0, f), 5, f);
    FaceStageMid(s1, a1, b1, n + 3, h12, n + 4, 3, 4, f + 1);
  }

  /** The last two linkEdgesAndFace of splitTriangles, on the cycles of
      h14 and h40. */
  lemma SplitTrianglesFaces23(s: MeshState, a: seq<HalfEdge>, b: seq<HalfEdge>, h03: int, h31: int, n: int, f: int)
    requires s.edges == a + b && |b| == 8 && n == |a| && 0 <= f && f + 3 < |s.faces|
    requires 0 <= h03 < n && 0 <= h31 < n
    requires b[2].next == n + 7 && b[7].next == h31 && a[h31].next == n + 2
    requires b[1].next == h03 && a[h03].next == n + 6 && b[6].next == n + 1
    ensures var s3 := LinkEdgesAndFaceOf(s, n + 2, f + 2, 3);
      Cycle(s, n + 2, 3) && Cycle(s3, n + 1, 3) &&
      LinkEdgesAndFaceOf(s3, n + 1, f + 3, 3) ==
        s.(edges := SetFaceAt(SetFaceAt(a, h31, f + 2), h03, f + 3) +
                    SetFaceAt(SetFaceAt(SetFaceAt(SetFaceAt(b, 2, f + 2), 7, f + 2), 1, f + 3), 6, f + 3),
           faces := s.faces[f + 2 := s.faces[f + 2].(edge := n + 2)][f + 3 := s.faces[f + 3].(edge := n + 1)])
  {
    FaceStageNew2(s, a, b, n + 2, n + 7, h31, 2, 7, f + 2);
    var s3 := LinkEdgesAndFaceOf(s, n + 2, f + 2, 3);
    var a3 := SetFaceAt(a, h31, f + 2);
    var b3 := SetFaceAt(SetFaceAt(b, 2, f + 2), 7, f + 2);
    FaceStageMid(s3, a3, b3, n + 1, h03, n + 6, 1, 6, f + 3);
  }

  /** The four linkEdgesAndFace of splitTriangles, on faces f to f+3 of
      a state whose arena is the old records a followed by eight new ones. */
  lemma SplitTrianglesFacesForm(s: MeshState, a: seq<HalfEdge>, b: seq<HalfEdge>,
                                h12: int, h20: int, h03: int, h31: int, n: int, f: int)
    requires s.edges == a + b && |b| == 8 && n == |a| && 0 <= f && f + 3 < |s.faces|
    requires 0 <= h12 < n && 0 <= h20 < n && 0 <= h03 < n && 0 <= h31 < n
    requires b[0].next == n + 5 && b[5].next == h20 && a[h20].next == n
    requires b[3].next == h12 && a[h12].next == n + 4 && b[4].next == n + 3
    requires b[2].next == n + 7 && b[7].next == h31 && a[h31].next == n + 2
    requires b[1].next == h03 && a[h03].next == n + 6 && b[6].next == n + 1
    ensures var s1 := LinkEdgesAndFaceOf(s, n, f, 3);
      var s2 := LinkEdgesAndFaceOf(s1, n + 3, f + 1, 3);
      var s3 := LinkEdgesAndFaceOf(s2, n + 2, f + 2, 3);
      Cycle(s, n, 3) && Cycle(s1, n + 3, 3) && Cycle(s2, n + 2, 3) && Cycle(s3, n + 1, 3) &&
      LinkEdgesAndFaceOf(s3, n + 1, f + 3, 3) ==
        s.(edges := FaceA4(a, h12, h20, h03, h31, f) + FaceB4(b, f),
           faces := s.faces[f := s.faces[f].(edge := n)][f + 1 := s.faces[f + 1].(edge := n + 3)]
                           [f + 2 := s.faces[f + 2].(edge := n + 2)][f + 3 := s.faces[f + 3].(edge := n + 1)])
  {
    SplitTrianglesFaces01(s, a, b, h12, h20, n, f);
    var s1 := LinkEdgesAndFaceOf(s, n, f, 3);
    var s2 := LinkEdgesAndFaceOf(s1, n + 3, f + 1, 3);
    var a2 := SetFaceAt(SetFaceAt(a, h20, f), h12, f + 1);
    var b2 := SetFaceAt(SetFaceAt(SetFaceAt(SetFaceAt(b, 0, f), 5, f), 3, f + 1), 4, f + 1);
    SplitTrianglesFaces23(s2, a2, b2, h03, h31, n, f);
  }

  /** The face and retirement writes of splitTriangles on the wired state:
      four 3-cycles and the arenas splitTriangles leaves. */
  lemma SplitTrianglesFinishForm(w: MeshState, a: seq<HalfEdge>, b: seq<HalfEdge>, h01: int, h10: int,
                                 h12: int, h20: int, h03: int, h31: int, n: int)
    requires w.edges == a + b && |b| == 8 && n == |a|
    requires 0 <= h01 < n && 0 <= h10 < n && 0 <= h12 < n && 0 <= h20 < n && 0 <= h03 < n && 0 <= h31 < n
    requires b[0].next == n + 5 && b[5].next == h20 && a[h20].next == n
    requires b[3].next == h12 && a[h12].next == n + 4 && b[4].next == n + 3
    requires b[2].next == n + 7 && b[7].next == h31 && a[h31].next == n + 2
    requires b[1].next == h03 && a[h03].next == n + 6 && b[6].next == n + 1
    ensures var f := |w.faces|;
      var s := AddFace(AddFace(AddFace(AddFace(w))));
      var s1 := LinkEdgesAndFaceOf(s, n, f, 3);
      var s2 := LinkEdgesAndFaceOf(s1, n + 3, f + 1, 3);
      var s3 := LinkEdgesAndFaceOf(s2, n + 2, f + 2, 3);
      Cycle(s, n, 3) && Cycle(s1, n + 3, 3) && Cycle(s2, n + 2, 3) && Cycle(s3, n + 1, 3) &&
      SplitTrianglesFinish(w, h01, h10, n) ==
        w.(edges := RetireAt(RetireAt(FaceA4(a, h12, h20, h03, h31, f), h01), h10) + FaceB4(b, f),
           faces := w.faces + [Face(n, None), Face(n + 3, None), Face(n + 2, None), Face(n + 1, None)])
  {
    var f := |w.faces|;
    var s := AddFace(AddFace(AddFace(AddFace(w))));
    SplitTrianglesFacesForm(s, a, b, h12, h20, h03, h31, n, f);
    var s4 := s.(edges := FaceA4(a, h12, h20, h03, h31, f) + FaceB4(b, f),
           faces := s.faces[f := s.faces[f].(edge := n)][f + 1 := s.faces[f + 1].(edge := n + 3)]
                           [f + 2 := s.faces[f + 2].(edge := n + 2)][f + 3 := s.faces[f + 3].(edge := n + 1)]);
    var a4 := FaceA4(a, h12, h20, h03, h31, f);
    var b4 := FaceB4(b, f);
    RetireStage(s4, a4, b4, h01);
    RetireStage(Retire(s4, h01), RetireAt(a4, h01), b4, h10);
    Faces4(w.faces, n, n + 3, n + 2, n + 1);
    FinishUnfold(w, h01, h10, n);
  }

  lemma FinishUnfold(w: MeshState, h01: int, h10: int, n: int)
    requires 0 <= h01 < |w.edges| && 0 <= h10 < |w.edges|
    ensures var f := |w.faces|;
      var s := AddFace(AddFace(AddFace(AddFace(w))));
      var s1 := LinkEdgesAndFaceOf(s, n, f, 3);
      var s2 := LinkEdgesAndFaceOf(s1, n + 3, f + 1, 3);
      var s3 := LinkEdgesAndFaceOf(s2, n + 2, f + 2, 3);
      var s4 := LinkEdgesAndFaceOf(s3, n + 1, f + 3, 3);
      0 <= h01 < |s4.edges| && 0 <= h10 < |s4.edges| &&
      SplitTrianglesFinish(w, h01, h10, n) == Retire(Retire(s4, h01), h10)
  {
  }

  /** The links of the old records after QuadRelinked. */
  lemma QuadRelinkedNexts(e: seq<HalfEdge>, h12: int, h20: int, h03: int, h31: int, n: int)
    requires 0 <= h12 < |e| && 0 <= h20 < |e| && 0 <= h03 < |e| && 0 <= h31 < |e|
    requires h03 != h20 && h03 != h12 && h03 != h31 && h20 != h12 && h20 != h31 && h12 != h31
    ensures var a := QuadRelinked(e, h12, h20, h03, h31, n);
      a[h20].next == n && a[h12].next == n + 4 && a[h31].next == n + 2 && a[h03].next == n + 6
  {
  }

  /** The finishing writes of splitTriangles on a wired state whose arena
      is the old records a followed by SplitTrianglesNew, through the
      repairs and the new vertex. */
  lemma SplitTrianglesFinishRepaired(x: MeshState, a: seq<HalfEdge>, h01: int, h10: int, h12: int, h20: int,
                                     h03: int, h31: int, v0: int, v1: int, v2: int, v3: int, i4: int, n: int)
    requires x.edges == a + SplitTrianglesNew(h12, h20, h03, h31, v0, v1, v2, v3, i4, n) && n == |a|
    requires 0 <= h01 < n && 0 <= h10 < n && 0 <= h12 < n && 0 <= h20 < n && 0 <= h03 < n && 0 <= h31 < n
    requires a[h20].next == n && a[h12].next == n + 4 && a[h31].next == n + 2 && a[h03].next == n + 6
    requires IsVertex(x, v0) && IsVertex(x, v1) && 0 <= i4 < |x.vertices|
    ensures var f := |x.faces|;
      var w := SetVertexEdgeOf(Repair2(x, v0, h01, n, v1, h10, n + 2), i4, n + 1);
      var s := AddFace(AddFace(AddFace(AddFace(w))));
      var s1 := LinkEdgesAndFaceOf(s, n, f, 3);
      var s2 := LinkEdgesAndFaceOf(s1, n + 3, f + 1, 3);
      var s3 := LinkEdgesAndFaceOf(s2, n + 2, f + 2, 3);
      var b := SplitTrianglesNew(h12, h20, h03, h31, v0, v1, v2, v3, i4, n);
      var y := x.(edges := RetireAt(RetireAt(FaceA4(a, h12, h20, h03, h31, f), h01), h10) + FaceB4(b, f),
                  faces := x.faces + [Face(n, None), Face(n + 3, None), Face(n + 2, None), Face(n + 1, None)]);
      Cycle(s, n, 3) && Cycle(s1, n + 3, 3) && Cycle(s2, n + 2, 3) && Cycle(s3, n + 1, 3) &&
      SplitTrianglesFinish(w, h01, h10, n) == SetVertexEdgeOf(Repair2(y, v0, h01, n, v1, h10, n + 2), i4, n + 1)
  {
    var f := |x.faces|;
    var b := SplitTrianglesNew(h12, h20, h03, h31, v0, v1, v2, v3, i4, n);
    var w := SetVertexEdgeOf(Repair2(x, v0, h01, n, v1, h10, n + 2), i4, n + 1);
    SplitTrianglesFinishForm(w, a, b, h01, h10, h12, h20, h03, h31, n);
    var e := RetireAt(RetireAt(FaceA4(a, h12, h20, h03, h31, f), h01), h10) + FaceB4(b, f);
    var fs := x.faces + [Face(n, None), Face(n + 3, None), Face(n + 2, None), Face(n + 1, None)];
    Repair2Frame(x, v0, h01, n, v1, h10, n + 2, e, fs);
  }

  /** The eight new records of splitTriangles once their faces are set. */
  lemma SplitTrianglesNewRecords(h12: int, h20: int, h03: int, h31: int, v0: int, v1: int, v2: int, v3: int,
                                 i4: int, n: int, f: int)
    ensures FaceB4(SplitTrianglesNew(h12, h20, h03, h31, v0, v1, v2, v3, i4, n), f) == [
      HalfEdge(n + 1, n + 5, h20, v0, f, true),
      HalfEdge(n, h03, n + 6, i4, f + 3, true),
      HalfEdge(n + 3, n + 7, h31, v1, f + 2, true),
      HalfEdge(n + 2, h12, n + 4, i4, f + 1, true),
      HalfEdge(n + 5, n + 3, h12, v2, f + 1, true),
      HalfEdge(n + 4, h20, n, i4, f, true),
      HalfEdge(n + 7, n + 1, h03, v3, f + 3, true),
      HalfEdge(n + 6, h31, n + 2, i4, f + 2, true)]
  {
  }

  /** The old records of splitTriangles once their faces are set: the four
      edges of the quad other than h01 and h10, each written once. */
  lemma SplitTrianglesOldRecords(e: seq<HalfEdge>, h12: int, h20: int, h03: int, h31: int, n: int, f: int)
    requires 0 <= h12 < |e| && 0 <= h20 < |e| && 0 <= h03 < |e| && 0 <= h31 < |e|
    requires h03 != h20 && h03 != h12 && h03 != h31 && h20 != h12 && h20 != h31 && h12 != h31
    ensures var e1 := e[h20 := e[h20].(next := n, prev := n + 5, face := f)];
      var e2 := e1[h12 := e1[h12].(next := n + 4, prev := n + 3, face := f + 1)];
      var e3 := e2[h31 := e2[h31].(next := n + 2, prev := n + 7, face := f + 2)];
      FaceA4(QuadRelinked(e, h12, h20, h03, h31, n), h12, h20, h03, h31, f) ==
        e3[h03 := e3[h03].(next := n + 6, prev := n + 1, face := f + 3)]
  {
    var e1 := e[h20 := e[h20].(next := n, prev := n + 5, face := f)];
    var e2 := e1[h12 := e1[h12].(next := n + 4, prev := n + 3, face := f + 1)];
    var e3 := e2[h31 := e2[h31].(next := n + 2, prev := n + 7, face := f + 2)];
    var e4 := e3[h03 := e3[h03].(next := n + 6, prev := n + 1, face := f + 3)];
    var fa := FaceA4(QuadRelinked(e, h12, h20, h03, h31, n), h12, h20, h03, h31, f);
    forall j | 0 <= j < |e|
      ensures fa[j] == e4[j]
    {
      if j == h03 {
      } else if j == h20 {
      } else if j == h12 {
      } else if j == h31 {
      }
    }
  }

  /** SplitTrianglesEdges is what the face and retirement writes leave in
      the edge arena. */
  lemma SplitTrianglesEdgesForm(e: seq<HalfEdge>, f: int, h01: int, h10: int, h12: int, h20: int, h03: int, h31: int,
                                v0: int, v1: int, v2: int, v3: int, i4: int)
    requires 0 <= h01 < |e| && 0 <= h10 < |e| && 0 <= h12 < |e| && 0 <= h20 < |e| && 0 <= h03 < |e| && 0 <= h31 < |e|
    requires h03 != h20 && h03 != h12 && h03 != h31 && h20 != h12 && h20 != h31 && h12 != h31
    ensures SplitTrianglesEdgesOf(e, f, h01, h10, h12, h20, h03, h31, v0, v1, v2, v3, i4) ==
      RetireAt(RetireAt(FaceA4(QuadRelinked(e, h12, h20, h03, h31, |e|), h12, h20, h03, h31, f), h01), h10) +
      FaceB4(SplitTrianglesNew(h12, h20, h03, h31, v0, v1, v2, v3, i4, |e|), f)
  {
    var n := |e|;
    SplitTrianglesNewRecords(h12, h20, h03, h31, v0, v1, v2, v3, i4, n, f);
    SplitTrianglesOldRecords(e, h12, h20, h03, h31, n, f);
    SplitTrianglesEdgesRetired(e, f, h01, h10, h12, h20, h03, h31, v0, v1, v2, v3, i4);
  }

  /** SplitTrianglesEdgesOf retires h01 and h10 after its four relinks. */
  lemma SplitTrianglesEdgesRetired(e: seq<HalfEdge>, f: int, h01: int, h10: int, h12: int, h20: int, h03: int, h31: int,
                                   v0: int, v1: int, v2: int, v3: int, i4: int)
    requires 0 <= h01 < |e| && 0 <= h10 < |e| && 0 <= h12 < |e| && 0 <= h20 < |e| && 0 <= h03 < |e| && 0 <= h31 < |e|
    ensures var n := |e|;
      var e1 := e[h20 := e[h20].(next := n, prev := n + 5, face := f)];
      var e2 := e1[h12 := e1[h12].(next := n + 4, prev := n + 3, face := f + 1)];
      var e3 := e2[h31 := e2[h31].(next := n + 2, prev := n + 7, face := f + 2)];
      var e4 := e3[h03 := e3[h03].(next := n + 6, prev := n + 1, face := f + 3)];
      SplitTrianglesEdgesOf(e, f, h01, h10, h12, h20, h03, h31, v0, v1, v2, v3, i4) == RetireAt(RetireAt(e4, h01), h10) + [
        HalfEdge(n + 1, n + 5, h20, v0, f, true),
        HalfEdge(n, h03, n + 6, i4, f + 3, true),
        HalfEdge(n + 3, n + 7, h31, v1, f + 2, true),
        HalfEdge(n + 2, h12, n + 4, i4, f + 1, true),
        HalfEdge(n + 5, n + 3, h12, v2, f + 1, true),
        HalfEdge(n + 4, h20, n, i4, f, true),
        HalfEdge(n + 7, n + 1, h03, v3, f + 3, true),
        HalfEdge(n + 6, h31, n + 2, i4, f + 2, true)]
  {
  }

  /** The repairs and the new vertex's edge of splitTriangles, applied to
      the arenas its face and retirement writes leave, give
      SplitTrianglesSpec. */
  lemma SplitTrianglesTail(m: MeshState, h01: int, i4: int)
    requires AllLinked(m) && QuadAt(m, h01) && 0 <= i4 < |m.vertices|
    requires i4 != Origin(m, h01) && i4 != Origin(m, Twin(m, h01))
    ensures var n, f := |m.edges|, |m.faces|;
      var h12 := Next(m, h01);
      var h20 := Next(m, h12);
      var h10 := Twin(m, h01);
      var h03 := Next(m, h10);
      var h31 := Next(m, h03);
      var v0, v1 := Origin(m, h01), Origin(m, h10);
      var b := SplitTrianglesNew(h12, h20, h03, h31, v0, v1, Origin(m, h20), Origin(m, h31), i4, n);
      var y := AddVertex(m, i4).(
        edges := RetireAt(RetireAt(FaceA4(QuadRelinked(m.edges, h12, h20, h03, h31, n), h12, h20, h03, h31, f),
                                   h01), h10) + FaceB4(b, f),
        faces := m.faces + [Face(n, None), Face(n + 3, None), Face(n + 2, None), Face(n + 1, None)]);
      IsVertex(y, v0) && IsVertex(y, v1) &&
      SetVertexEdgeOf(Repair2(y, v0, h01, n, v1, h10, n + 2), i4, n + 1) == SplitTrianglesSpec(m, h01, i4)
  {
    var n, f := |m.edges|, |m.faces|;
    var h12 := Next(m, h01);
    var h20 := Next(m, h12);
    var h10 := Twin(m, h01);
    var h03 := Next(m, h10);
    var h31 := Next(m, h03);
    var v0, v1 := Origin(m, h01), Origin(m, h10);
    assert Linked(m, h01) && Linked(m, h10);
    SplitTrianglesEdgesForm(m.edges, f, h01, h10, h12, h20, h03, h31, v0, v1, Origin(m, h20), Origin(m, h31), i4);
    var e := RetireAt(RetireAt(FaceA4(QuadRelinked(m.edges, h12, h20, h03, h31, n), h12, h20, h03, h31, f), h01), h10) +
      FaceB4(SplitTrianglesNew(h12, h20, h03, h31, v0, v1, Origin(m, h20), Origin(m, h31), i4, n), f);
    SplitTrianglesSpecOfForm(m, e, v0, h01, v1, h10, i4);
  }

  /** SplitTrianglesSpecOf is `new Vertex(i4)`, the edge and face writes,
      the two repairs and the edge of i4, in the order of Dcel.java. */
  lemma SplitTrianglesSpecOfForm(m: MeshState, e: seq<HalfEdge>, v0: int, h01: int, v1: int, h10: int, i4: int)
    requires IsVertex(m, v0) && IsVertex(m, v1) && 0 <= i4 < |m.vertices| && i4 != v0 && i4 != v1
    ensures var n := |m.edges|;
      var y := AddVertex(m, i4).(edges := e,
        faces := m.faces + [Face(n, None), Face(n + 3, None), Face(n + 2, None), Face(n + 1, None)]);
      IsVertex(y, v0) && IsVertex(y, v1) &&
      SetVertexEdgeOf(Repair2(y, v0, h01, n, v1, h10, n + 2), i4, n + 1) == SplitTrianglesSpecOf(m, e, v0, h01, v1, h10, i4)
  {
    var n := |m.edges|;
    var x1 := MeshState(e, m.faces + [Face(n, None), Face(n + 3, None), Face(n + 2, None), Face(n + 1, None)],
      m.vertices, m.upperLeftEdge, m.rightEdge);
    assert AddVertex(m, i4).(edges := e, faces := x1.faces) == AddVertex(x1, i4);
    RepairAddVertex(x1, i4, v0, h01, n, v1, h10, n + 2, n + 1);
  }

  /** What splitTriangles needs of h01 and i4: the quad of h01, vertices
      at both ends of h01, and a slot i4 that is neither of them. */
  predicate SplitReady(m: MeshState, h01: int, i4: int) {
    FlipReady(m, h01) && 0 <= i4 < |m.vertices| && i4 != Origin(m, h01) && i4 != Origin(m, Twin(m, h01))
  }

  /** The arena splitTriangles has wired before its repairs: the old
      records relinked and the eight new records of SplitTrianglesNew. */
  function SplitTrianglesWired(m: MeshState, h01: int, i4: int): (x: MeshState)
    requires SplitReady(m, h01, i4)
    ensures IsVertex(x, Origin(m, h01)) && IsVertex(x, Origin(m, Twin(m, h01)))
    ensures |x.edges| == |m.edges| + 8 && x.faces == m.faces
  {
    var n := |m.edges|;
    var h12 := Next(m, h01);
    var h20 := Next(m, h12);
    var h03 := Next(m, Twin(m, h01));
    var h31 := Next(m, h03);
    AddVertex(m.(edges := QuadRelinked(m.edges, h12, h20, h03, h31, n) +
      SplitTrianglesNew(h12, h20, h03, h31, Origin(m, h01), Origin(m, Twin(m, h01)), Origin(m, h20), Origin(m, h31), i4, n)), i4)
  }

  /** The state splitTriangles leaves, written out: the old records
      relinked, faced and retired, the eight new records faced, four faces,
      then the repairs of v0 and v1 and the edge h40 of i4. */
  function SplitTrianglesRetired(m: MeshState, h01: int, i4: int): MeshState
    requires SplitReady(m, h01, i4)
  {
    var n := |m.edges|;
    var v0, v1 := Origin(m, h01), Origin(m, Twin(m, h01));
    var y := AddVertex(m, i4).(edges := SplitTrianglesArena(m, h01, i4),
      faces := m.faces + [Face(n, None), Face(n + 3, None), Face(n + 2, None), Face(n + 1, None)]);
    assert IsVertex(y, v0) && IsVertex(y, v1);
    SetVertexEdgeOf(Repair2(y, v0, h01, n, v1, Twin(m, h01), n + 2), i4, n + 1)
  }

  /** The half-edges splitTriangles leaves. */
  function SplitTrianglesArena(m: MeshState, h01: int, i4: int): seq<HalfEdge>
    requires SplitReady(m, h01, i4)
  {
    var n, f := |m.edges|, |m.faces|;
    var h12 := Next(m, h01);
    var h20 := Next(m, h12);
    var h10 := Twin(m, h01);
    var h03 := Next(m, h10);
    var h31 := Next(m, h03);
    var b := SplitTrianglesNew(h12, h20, h03, h31, Origin(m, h01), Origin(m, h10), Origin(m, h20), Origin(m, h31), i4, n);
    RetireAt(RetireAt(FaceA4(QuadRelinked(m.edges, h12, h20, h03, h31, n), h12, h20, h03, h31, f), h01), h10) + FaceB4(b, f)
  }

  /** SplitTrianglesFinishRepaired with the arenas it leaves named e, fs. */
  lemma SplitTrianglesFinishNamed(x: MeshState, a: seq<HalfEdge>, h01: int, h10: int, h12: int, h20: int,
                                  h03: int, h31: int, v0: int, v1: int, v2: int, v3: int, i4: int, n: int,
                                  f: int, e: seq<HalfEdge>, fs: seq<Face>, w: MeshState, y: MeshState)
    requires x.edges == a + SplitTrianglesNew(h12, h20, h03, h31, v0, v1, v2, v3, i4, n) && n == |a|
    requires 0 <= h01 < n && 0 <= h10 < n && 0 <= h12 < n && 0 <= h20 < n && 0 <= h03 < n && 0 <= h31 < n
    requires a[h20].next == n && a[h12].next == n + 4 && a[h31].next == n + 2 && a[h03].next == n + 6
    requires IsVertex(x, v0) && IsVertex(x, v1) && 0 <= i4 < |x.vertices|
    requires f == |x.faces|
    requires e == RetireAt(RetireAt(FaceA4(a, h12, h20, h03, h31, f), h01), h10) +
                  FaceB4(SplitTrianglesNew(h12, h20, h03, h31, v0, v1, v2, v3, i4, n), f)
    requires fs == x.faces + [Face(n, None), Face(n + 3, None), Face(n + 2, None), Face(n + 1, None)]
    requires w == SetVertexEdgeOf(Repair2(x, v0, h01, n, v1, h10, n + 2), i4, n + 1)
    requires y == x.(edges := e, faces := fs)
    ensures IsVertex(y, v0) && IsVertex(y, v1)
    ensures SplitTrianglesFinish(w, h01, h10, n) == SetVertexEdgeOf(Repair2(y, v0, h01, n, v1, h10, n + 2), i4, n + 1)
  {
    SplitTrianglesFinishRepaired(x, a, h01, h10, h12, h20, h03, h31, v0, v1, v2, v3, i4, n);
  }

  /** The face and retirement writes on the wired and repaired state give
      SplitTrianglesRetired. */
  lemma SplitTrianglesFinishRetired(m: MeshState, h01: int, i4: int, x: MeshState, w: MeshState)
    requires SplitReady(m, h01, i4) && x == SplitTrianglesWired(m, h01, i4)
    requires w == SetVertexEdgeOf(Repair2(x, Origin(m, h01), h01, |m.edges|, Origin(m, Twin(m, h01)), Twin(m, h01), |m.edges| + 2),
                                  i4, |m.edges| + 1)
    ensures SplitTrianglesFinish(w, h01, Twin(m, h01), |m.edges|) == SplitTrianglesRetired(m, h01, i4)
  {
    var n := |m.edges|;
    var y := AddVertex(m, i4).(edges := SplitTrianglesArena(m, h01, i4),
      faces := m.faces + [Face(n, None), Face(n + 3, None), Face(n + 2, None), Face(n + 1, None)]);
    SplitTrianglesFinishArena(m, h01, i4, x, w, y);
    SplitTrianglesRetiredOf(m, h01, i4, y);
  }

  /** The face and retirement writes lead to the state with the arena of
      SplitTrianglesArena. */
  lemma SplitTrianglesFinishArena(m: MeshState, h01: int, i4: int, x: MeshState, w: MeshState, y: MeshState)
    requires SplitReady(m, h01, i4) && x == SplitTrianglesWired(m, h01, i4)
    requires w == SetVertexEdgeOf(Repair2(x, Origin(m, h01), h01, |m.edges|, Origin(m, Twin(m, h01)), Twin(m, h01), |m.edges| + 2),
                                  i4, |m.edges| + 1)
    requires y == AddVertex(m, i4).(edges := SplitTrianglesArena(m, h01, i4),
      faces := m.faces + [Face(|m.edges|, None), Face(|m.edges| + 3, None), Face(|m.edges| + 2, None), Face(|m.edges| + 1, None)])
    ensures IsVertex(y, Origin(m, h01)) && IsVertex(y, Origin(m, Twin(m, h01)))
    ensures SplitTrianglesFinish(w, h01, Twin(m, h01), |m.edges|)
         == SetVertexEdgeOf(Repair2(y, Origin(m, h01), h01, |m.edges|, Origin(m, Twin(m, h01)), Twin(m, h01), |m.edges| + 2), i4, |m.edges| + 1)
  {
    var n, f := |m.edges|, |m.faces|;
    var h12 := Next(m, h01);
    var h20 := Next(m, h12);
    var h10 := Twin(m, h01);
    var h03 := Next(m, h10);
    var h31 := Next(m, h03);
    var v0, v1, v2, v3 := Origin(m, h01), Origin(m, h10), Origin(m, h20), Origin(m, h31);
    var a := QuadRelinked(m.edges, h12, h20, h03, h31, n);
    QuadRelinkedNexts(m.edges, h12, h20, h03, h31, n);
    var b := SplitTrianglesNew(h12, h20, h03, h31, v0, v1, v2, v3, i4, n);
    var e := RetireAt(RetireAt(FaceA4(a, h12, h20, h03, h31, f), h01), h10) + FaceB4(b, f);
    var fs := m.faces + [Face(n, None), Face(n + 3, None), Face(n + 2, None), Face(n + 1, None)];
    assert e == SplitTrianglesArena(m, h01, i4);
    assert x.(edges := e, faces := fs) == y;
    SplitTrianglesFinishNamed(x, a, h01, h10, h12, h20, h03, h31, v0, v1, v2, v3, i4, n, f, e, fs, w, y);
  }

  /** SplitTrianglesRetired on a named intermediate state. */
  lemma SplitTrianglesRetiredOf(m: MeshState, h01: int, i4: int, y: MeshState)
    requires SplitReady(m, h01, i4)
    requires y == AddVertex(m, i4).(edges := SplitTrianglesArena(m, h01, i4),
      faces := m.faces + [Face(|m.edges|, None), Face(|m.edges| + 3, None), Face(|m.edges| + 2, None), Face(|m.edges| + 1, None)])
    ensures IsVertex(y, Origin(m, h01)) && IsVertex(y, Origin(m, Twin(m, h01)))
    ensures SplitTrianglesRetired(m, h01, i4)
         == SetVertexEdgeOf(Repair2(y, Origin(m, h01), h01, |m.edges|, Origin(m, Twin(m, h01)), Twin(m, h01), |m.edges| + 2), i4, |m.edges| + 1)
  {
  }

  /** In a linked mesh SplitTrianglesRetired is SplitTrianglesSpec. */
  lemma SplitTrianglesRetiredIsSpec(m: MeshState, h01: int, i4: int)
    requires AllLinked(m) && SplitReady(m, h01, i4)
    ensures SplitTrianglesRetired(m, h01, i4) == SplitTrianglesSpec(m, h01, i4)
  {
    SplitTrianglesTail(m, h01, i4);
  }

  /** The writes of splitTriangles in the order of Dcel.java, with the four
      linkPrevNextTriangle after the linkTwins, wire SplitTrianglesWired. */
  lemma SplitTrianglesWiring(m: MeshState, h01: int, i4: int)
    requires SplitReady(m, h01, i4)
    ensures var n := |m.edges|;
      var h12 := Next(m, h01);
      var h20 := Next(m, h12);
      var h03 := Next(m, Twin(m, h01));
      var h31 := Next(m, h03);
      Origins8Of(QuadCycles(TwinPairs4(AddEdges8(AddVertex(m, i4)), n), h12, h20, h03, h31, n),
                 n, Origin(m, h01), Origin(m, Twin(m, h01)), Origin(m, h20), Origin(m, h31), i4) ==
        SplitTrianglesWired(m, h01, i4)
  {
    var h12 := Next(m, h01);
    var h20 := Next(m, h12);
    var h03 := Next(m, Twin(m, h01));
    var h31 := Next(m, h03);
    SplitTrianglesLinksForm(m, h12, h20, h03, h31, Origin(m, h01), Origin(m, Twin(m, h01)), Origin(m, h20), Origin(m, h31), i4);
  }

  /** The four 3-cycles the linkEdgesAndFace calls of splitTriangles walk,
      from the new edges n, n+3, n+2, n+1 of w. */
  predicate FaceCycles4(w: MeshState, n: int) {
    var f := |w.faces|;
    var s := AddFace(AddFace(AddFace(AddFace(w))));
    var s1 := LinkEdgesAndFaceOf(s, n, f, 3);
    var s2 := LinkEdgesAndFaceOf(s1, n + 3, f + 1, 3);
    var s3 := LinkEdgesAndFaceOf(s2, n + 2, f + 2, 3);
    Cycle(s, n, 3) && Cycle(s1, n + 3, 3) && Cycle(s2, n + 2, 3) && Cycle(s3, n + 1, 3)
  }

  lemma FaceCycles4Of(x: MeshState, a: seq<HalfEdge>, h01: int, h10: int, h12: int, h20: int,
                      h03: int, h31: int, v0: int, v1: int, v2: int, v3: int, i4: int, n: int)
    requires x.edges == a + SplitTrianglesNew(h12, h20, h03, h31, v0, v1, v2, v3, i4, n) && n == |a|
    requires 0 <= h01 < n && 0 <= h10 < n && 0 <= h12 < n && 0 <= h20 < n && 0 <= h03 < n && 0 <= h31 < n
    requires a[h20].next == n && a[h12].next == n + 4 && a[h31].next == n + 2 && a[h03].next == n + 6
    requires IsVertex(x, v0) && IsVertex(x, v1) && 0 <= i4 < |x.vertices|
    ensures FaceCycles4(SetVertexEdgeOf(Repair2(x, v0, h01, n, v1, h10, n + 2), i4, n + 1), n)
  {
    SplitTrianglesFinishRepaired(x, a, h01, h10, h12, h20, h03, h31, v0, v1, v2, v3, i4, n);
  }

  /** Each linkEdgesAndFace of splitTriangles meets a 3-cycle. */
  lemma SplitTrianglesCycles(m: MeshState, h01: int, i4: int, x: MeshState, v0: int, v1: int, h10: int, n: int)
    requires SplitReady(m, h01, i4) && x == SplitTrianglesWired(m, h01, i4)
    requires v0 == Origin(m, h01) && h10 == Twin(m, h01) && v1 == Origin(m, h10) && n == |m.edges|
    ensures IsVertex(x, v0) && IsVertex(x, v1) && 0 <= i4 < |x.vertices|
    ensures FaceCycles4(SetVertexEdgeOf(Repair2(x, v0, h01, n, v1, h10, n + 2), i4, n + 1), n)
  {
    var h12 := Next(m, h01);
    var h20 := Next(m, h12);
    var h03 := Next(m, h10);
    var h31 := Next(m, h03);
    var v2, v3 := Origin(m, h20), Origin(m, h31);
    var a := QuadRelinked(m.edges, h12, h20, h03, h31, n);
    QuadRelinkedNexts(m.edges, h12, h20, h03, h31, n);
    FaceCycles4Of(x, a, h01, h10, h12, h20, h03, h31, v0, v1, v2, v3, i4, n);
  }
}
