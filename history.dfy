/** PointLocationStructure.java: the history DAG of triangles used for point
    location. Nodes live in an arena `nodes`, addressed by index; the index
    of a node plays the part of its Java object identity, and node 0 is
    `top`. A leaf has no children (Java: `children == null`). */
module History {
  import opened Wrappers
  import opened Points
  import opened Triangles
  import Util

  /** PointLocationStructure.Node: children by index, and the canonical
      triangle of vertex ids. */
  datatype Node = Node(children: seq<nat>, triangle: Tri)

  /** -2 and -1 are the sentinels, other ids index the points. */
  predicate IsVertexId(v: int, numPoints: nat) {
    -2 <= v < numPoints
  }

  predicate TriIds(t: Tri, numPoints: nat) {
    IsVertexId(t[0], numPoints) && IsVertexId(t[1], numPoints) && IsVertexId(t[2], numPoints)
  }

  /** Children come after their parent in the arena, in increasing order,
      two or three of them (or none, for a leaf). */
  predicate ChildrenOk(nodes: seq<Node>, i: nat)
    requires i < |nodes|
  {
    var cs := nodes[i].children;
    (|cs| == 0 || |cs| == 2 || |cs| == 3) &&
    (forall k :: 0 <= k < |cs| ==> i < cs[k] < |nodes|) &&
    (forall a, b :: 0 <= a < b < |cs| ==> cs[a] < cs[b])
  }

  /** The arena invariant; it keeps the DAG acyclic, so every descent ends. */
  predicate NodesValid(nodes: seq<Node>, numPoints: nat) {
    |nodes| >= 1 && numPoints <= Util.IntMax &&
    forall i :: 0 <= i < |nodes| ==> NodeOk(nodes, i, numPoints)
  }

  /** Node i of a valid arena: its children and its vertex ids. */
  predicate NodeOk(nodes: seq<Node>, i: nat, numPoints: nat)
    requires i < |nodes|
  {
    ChildrenOk(nodes, i) && TriIds(nodes[i].triangle, numPoints)
  }

  lemma CanonicalIds(t: Tri, numPoints: nat)
    requires TriIds(t, numPoints)
    ensures TriIds(Canonical(t), numPoints)
  {
  }

  lemma TriIdsRotatable(t: Tri, numPoints: nat)
    requires TriIds(t, numPoints) && numPoints <= Util.IntMax
    ensures Rotatable(t)
  {
  }

  /** The two ids of the edge tri0 and tri1 share, in tri0's order. */
  function SharedEdge(tri0: Tri, tri1: Tri): (int, int)
    requires CommonPoints(tri0, tri1).Success?
  {
    var c := CommonPoints(tri0, tri1).value;
    (tri0[c[0]], tri0[c[1]])
  }

  /** Node.findContainingChildren(node0, node1, p): which of two triangles
      sharing an edge contain p. An edge to a sentinel is decided by the
      y-then-x order of p against the edge's finite end, any other edge by the
      orientation of the edge and p. (The Java assert on the positions
      `commons[0]`, `commons[1]` can never fire: positions are not negative.) */
  function PairChoice(points: seq<Point>, g: Geometry, node0: nat, tri0: Tri,
                      node1: nat, tri1: Tri, p: Point): (r: Result<seq<nat>>)
    ensures r.Success? ==> r.value == [node0] || r.value == [node1] || r.value == [node0, node1]
    ensures r.Success? ==> CommonPoints(tri0, tri1).Success?
  {
    var commons :- CommonPoints(tri0, tri1);
    var a := tri0[commons[0]];
    var b := tri0[commons[1]];
    if a == -2 then
      var q :- PointAt(points, b);
      var cmp := YThenX(p, q);
      if cmp == 0 then Failure(AssertionFailed)
      else if cmp < 0 then Success([node0]) else Success([node1])
    else if b == -2 then
      var q :- PointAt(points, a);
      var cmp := YThenX(p, q);
      if cmp == 0 then Failure(AssertionFailed)
      else if cmp > 0 then Success([node0]) else Success([node1])
    else if a == -1 then
      var q :- PointAt(points, b);
      var cmp := YThenX(p, q);
      if cmp == 0 then Failure(AssertionFailed)
      else if cmp > 0 then Success([node0]) else Success([node1])
    else if b == -1 then
      var q :- PointAt(points, a);
      var cmp := YThenX(p, q);
      if cmp == 0 then Failure(AssertionFailed)
      else if cmp < 0 then Success([node0]) else Success([node1])
    else
      var pa :- PointAt(points, a);
      var pb :- PointAt(points, b);
      var hpp := g.orient(pa, pb, p);
      if hpp == 1 then Success([node1])
      else if hpp == -1 then Success([node0])
      else Success([node0, node1])
  }

  /** Across an edge between two points the orientation decides: +1 picks
      node1, -1 picks node0, 0 (p on the edge's line) picks both. */
  lemma PairChoiceByOrientation(points: seq<Point>, g: Geometry, node0: nat, tri0: Tri,
                                node1: nat, tri1: Tri, p: Point)
    requires CommonPoints(tri0, tri1).Success?
    requires 0 <= SharedEdge(tri0, tri1).0 < |points| && 0 <= SharedEdge(tri0, tri1).1 < |points|
    ensures var (a, b) := SharedEdge(tri0, tri1);
      var o := g.orient(points[a], points[b], p);
      PairChoice(points, g, node0, tri0, node1, tri1, p) ==
        Success(if o == 1 then [node1] else if o == -1 then [node0] else [node0, node1])
  {
  }

  /** Across an edge to a sentinel the orientation test is never consulted:
      any two geometries give the same answer, which fails exactly when p is
      the edge's finite end, and otherwise is a single node. */
  lemma PairChoiceAtSentinel(points: seq<Point>, g1: Geometry, g2: Geometry, node0: nat, tri0: Tri,
                             node1: nat, tri1: Tri, p: Point)
    requires CommonPoints(tri0, tri1).Success?
    requires var (a, b) := SharedEdge(tri0, tri1);
      ((a == -2 || a == -1) && 0 <= b < |points|) || ((b == -2 || b == -1) && 0 <= a < |points|)
    ensures PairChoice(points, g1, node0, tri0, node1, tri1, p) ==
            PairChoice(points, g2, node0, tri0, node1, tri1, p)
    ensures var (a, b) := SharedEdge(tri0, tri1);
      var q := if a < 0 then points[b] else points[a];
      var r := PairChoice(points, g1, node0, tri0, node1, tri1, p);
      (r.Failure? <==> p == q) && (r.Success? ==> |r.value| == 1)
  {
  }

  /** Node.childIndex: the position of `child` in a three-child list, or -1. */
  function ChildIndex(children: seq<nat>, child: nat): (r: int)
    requires |children| == 3
    ensures r == Util.FirstIndexOf(children, child)
  {
    Util.FirstIndexOfUnique(children, child,
      if children[0] == child then 0 else if children[1] == child then 1
      else if children[2] == child then 2 else -1);
    if children[0] == child then 0
    else if children[1] == child then 1
    else if children[2] == child then 2
    else -1
  }

  /** The counts childCounts holds after the tally loops over `found`. */
  function Tally(found: seq<nat>, children: seq<nat>): (counts: seq<nat>)
    requires |children| == 3
    requires forall k :: 0 <= k < |found| ==> found[k] in children
    ensures |counts| == 3
  {
    if |found| == 0 then [0, 0, 0]
    else
      var t := Tally(found[..|found| - 1], children);
      var ci := ChildIndex(children, found[|found| - 1]);
      t[ci := t[ci] + 1]
  }

  /** With distinct children, each child's count is how often it was found. */
  lemma {:induction false} TallyCountsOccurrences(found: seq<nat>, children: seq<nat>)
    requires |children| == 3 && children[0] != children[1] && children[1] != children[2] && children[0] != children[2]
    requires forall k :: 0 <= k < |found| ==> found[k] in children
    ensures forall k :: 0 <= k < 3 ==> Tally(found, children)[k] == multiset(found)[children[k]]
  {
    if |found| > 0 {
      var init := found[..|found| - 1];
      var last := found[|found| - 1];
      TallyCountsOccurrences(init, children);
      assert found == init + [last];
      assert multiset(found) == multiset(init) + multiset{last};
    }
  }

  /** The indices i below n, in increasing order, with s[i] == c. */
  function MatchesBelow(s: seq<int>, c: int, n: nat): (r: seq<int>)
    requires n <= |s|
    ensures |r| <= n
    ensures forall k :: 0 <= k < |r| ==> 0 <= r[k] < n && s[r[k]] == c
  {
    if n == 0 then []
    else if s[n - 1] == c then MatchesBelow(s, c, n - 1) + [n - 1]
    else MatchesBelow(s, c, n - 1)
  }

  /** MatchesBelow is increasing and misses no index below n. */
  lemma {:induction false} MatchesBelowComplete(s: seq<int>, c: int, n: nat)
    requires n <= |s|
    ensures var r := MatchesBelow(s, c, n);
      (forall a, b :: 0 <= a < b < |r| ==> r[a] < r[b]) &&
      (forall i :: 0 <= i < n && s[i] == c ==> i in r)
  {
    if n > 0 {
      MatchesBelowComplete(s, c, n - 1);
    }
  }

  /** The indices i, in increasing order, with s[i] == c. */
  function Matches(s: seq<int>, c: int): (r: seq<int>)
    ensures |r| <= |s|
    ensures forall k :: 0 <= k < |r| ==> 0 <= r[k] < |s| && s[r[k]] == c
    ensures forall a, b :: 0 <= a < b < |r| ==> r[a] < r[b]
    ensures forall i :: 0 <= i < |s| && s[i] == c ==> i in r
  {
    MatchesBelowComplete(s, c, |s|);
    MatchesBelow(s, c, |s|)
  }

  /** Node.childIndices: writes the indices of the entries equal to `count`
      into `indices`, in increasing order, and returns how many there are. */
  method ChildIndices(childCounts: seq<int>, count: int, indices: array<int>) returns (numIndices: int)
    requires |Matches(childCounts, count)| <= indices.Length
    modifies indices
    ensures numIndices == |Matches(childCounts, count)|
    ensures indices[..numIndices] == Matches(childCounts, count)
    ensures indices[numIndices..] == old(indices[numIndices..])
  {
    numIndices := 0;
    for i := 0 to |childCounts|
      invariant numIndices == |MatchesBelow(childCounts, count, i)| <= |Matches(childCounts, count)|
      invariant MatchesBelow(childCounts, count, i) == indices[..numIndices]
      invariant forall k :: numIndices <= k < indices.Length ==> indices[k] == old(indices[k])
    {
      MatchesBelowGrow(childCounts, count, i + 1);
      if childCounts[i] == count {
        indices[numIndices] := i;
        numIndices := numIndices + 1;
      }
    }
  }

  /** A prefix has no more matches than the whole. */
  lemma {:induction false} MatchesBelowGrow(s: seq<int>, c: int, n: nat)
    requires n <= |s|
    ensures |MatchesBelow(s, c, n)| <= |Matches(s, c)|
    decreases |s| - n
  {
    if n < |s| {
      MatchesBelowGrow(s, c, n + 1);
    }
  }

  /** The choice for three children: those met exactly twice in `found`,
      which must be one or two of them. */
  function CountedTwice(found: seq<nat>, children: seq<nat>): (r: Result<Option<seq<nat>>>)
    requires |children| == 3
    requires forall k :: 0 <= k < |found| ==> found[k] in children
    ensures r.Success? ==> r.value.Some? && 1 <= |r.value.value| <= 2
    ensures r.Success? ==> forall k :: 0 <= k < |r.value.value| ==> r.value.value[k] in children
  {
    var indices := Matches(Tally(found, children), 2);
    if |indices| == 1 then Success(Some([children[indices[0]]]))
    else if |indices| == 2 then Success(Some([children[indices[0]], children[indices[1]]]))
    else Failure(IllegalState)
  }

  /** With distinct children, CountedTwice keeps exactly the children that
      occur twice in `found`, each once. */
  lemma CountedTwiceIsExact(found: seq<nat>, children: seq<nat>)
    requires |children| == 3 && children[0] != children[1] && children[1] != children[2] && children[0] != children[2]
    requires forall k :: 0 <= k < |found| ==> found[k] in children
    requires CountedTwice(found, children).Success?
    ensures var chosen := CountedTwice(found, children).value.value;
      (forall c :: c in children ==> (c in chosen <==> multiset(found)[c] == 2)) &&
      (|chosen| == 2 ==> chosen[0] != chosen[1])
  {
    TallyCountsOccurrences(found, children);
    var counts := Tally(found, children);
    var indices := Matches(counts, 2);
    var chosen := CountedTwice(found, children).value.value;
    assert |chosen| == |indices| && forall j :: 0 <= j < |indices| ==> chosen[j] == children[indices[j]];
    forall c | c in children
      ensures c in chosen <==> multiset(found)[c] == 2
    {
      var k :| 0 <= k < 3 && children[k] == c;
      if c in chosen {
        var j :| 0 <= j < |chosen| && chosen[j] == c;
        assert children[indices[j]] == c;
      }
      if counts[k] == 2 {
        var j :| 0 <= j < |indices| && indices[j] == k;
        assert chosen[j] == c;
      }
    }
  }

  /** Node.findContainingChildren(p) as a value: None for a leaf; for two
      children the pairwise test; for three children those counted twice
      over the three pairwise tests, which must be one or two of them. */
  function ContainingChildren(nodes: seq<Node>, points: seq<Point>, g: Geometry, n: nat, p: Point)
    : (r: Result<Option<seq<nat>>>)
    requires NodesValid(nodes, |points|) && n < |nodes|
    ensures r.Success? ==> (r.value.None? <==> nodes[n].children == [])
    ensures nodes[n].children == [] ==> r == Success(None)
    ensures r.Success? && r.value.Some? ==>
      var found := r.value.value;
      1 <= |found| <= 2 && (forall k :: 0 <= k < |found| ==> found[k] in nodes[n].children)
  {
    var cs := nodes[n].children;
    assert NodeOk(nodes, n, |points|);
    if |cs| == 0 then Success(None)
    else if |cs| == 2 then
      var nds :- PairChoice(points, g, cs[0], nodes[cs[0]].triangle, cs[1], nodes[cs[1]].triangle, p);
      Success(Some(nds))
    else if |cs| == 3 then
      var all :- PairwiseFound(points, g, cs, nodes[cs[0]].triangle, nodes[cs[1]].triangle, nodes[cs[2]].triangle, p);
      CountedTwice(all, cs)
    else Failure(IllegalState)
  }

  /** The three pairwise tests over three children, their answers joined. */
  function PairwiseFound(points: seq<Point>, g: Geometry, cs: seq<nat>, t0: Tri, t1: Tri, t2: Tri, p: Point)
    : (r: Result<seq<nat>>)
    requires |cs| == 3
    ensures r.Success? ==> forall k :: 0 <= k < |r.value| ==> r.value[k] in cs
  {
    var ns01 :- PairChoice(points, g, cs[0], t0, cs[1], t1, p);
    var ns12 :- PairChoice(points, g, cs[1], t1, cs[2], t2, p);
    var ns20 :- PairChoice(points, g, cs[2], t2, cs[0], t0, p);
    Success(ns01 + ns12 + ns20)
  }

  /** For three children the answer is exactly the children met twice in
      the three pairwise tests. */
  lemma ThreeChildrenCountedTwice(nodes: seq<Node>, points: seq<Point>, g: Geometry, n: nat, p: Point)
    requires NodesValid(nodes, |points|) && n < |nodes| && |nodes[n].children| == 3
    requires ContainingChildren(nodes, points, g, n, p).Success?
    ensures NodeOk(nodes, n, |points|)
    ensures var cs := nodes[n].children;
      var all := PairwiseFound(points, g, cs, nodes[cs[0]].triangle, nodes[cs[1]].triangle, nodes[cs[2]].triangle, p);
      var found := ContainingChildren(nodes, points, g, n, p).value.value;
      all.Success? && forall c :: c in cs ==> (c in found <==> multiset(all.value)[c] == 2)
  {
    assert NodeOk(nodes, n, |points|);
    var cs := nodes[n].children;
    var all := PairwiseFound(points, g, cs, nodes[cs[0]].triangle, nodes[cs[1]].triangle, nodes[cs[2]].triangle, p);
    CountedTwiceIsExact(all.value, cs);
  }

  /** 3^e, the weight of a node e levels above the end of the arena. */
  function Pow3(e: nat): (r: nat)
    ensures r >= 1
  {
    if e == 0 then 1 else 3 * Pow3(e - 1)
  }

  lemma {:induction false} Pow3Monotone(a: nat, b: nat)
    requires a <= b
    ensures Pow3(a) <= Pow3(b)
    decreases b - a
  {
    if a < b {
      Pow3Monotone(a, b - 1);
    }
  }

  /** The termination measure of the breadth-first descent. */
  function Weight(q: seq<nat>, size: nat): nat
    requires forall k :: 0 <= k < |q| ==> q[k] < size
  {
    if |q| == 0 then 0 else Pow3(size - q[0]) + Weight(q[1..], size)
  }

  lemma {:induction false} WeightAppend(a: seq<nat>, b: seq<nat>, size: nat)
    requires forall k :: 0 <= k < |a| ==> a[k] < size
    requires forall k :: 0 <= k < |b| ==> b[k] < size
    ensures Weight(a + b, size) == Weight(a, size) + Weight(b, size)
  {
    if |a| > 0 {
      assert (a + b)[1..] == a[1..] + b;
      WeightAppend(a[1..], b, size);
    } else {
      assert a + b == b;
    }
  }

  /** Replacing a node by at most two later nodes lowers the weight. */
  lemma ReplaceLowersWeight(q: seq<nat>, found: seq<nat>, size: nat)
    requires |q| > 0 && forall k :: 0 <= k < |q| ==> q[k] < size
    requires |found| <= 2 && forall k :: 0 <= k < |found| ==> q[0] < found[k] < size
    ensures Weight(q[1..] + found, size) < Weight(q, size)
  {
    WeightAppend(q[1..], found, size);
    var top := size - q[0];
    assert Pow3(top) == 3 * Pow3(top - 1);
    forall k | 0 <= k < |found|
      ensures Pow3(size - found[k]) <= Pow3(top - 1)
    {
      Pow3Monotone(size - found[k], top - 1);
    }
    if |found| == 1 {
      assert Weight(found, size) == Pow3(size - found[0]);
    } else if |found| == 2 {
      assert found[1..][0] == found[1] && found[1..][1..] == [];
      assert Weight(found[1..], size) == Pow3(size - found[1]);
    }
  }

  /** Dropping the first node lowers the weight. */
  lemma DropLowersWeight(q: seq<nat>, size: nat)
    requires |q| > 0 && forall k :: 0 <= k < |q| ==> q[k] < size
    ensures Weight(q[1..], size) < Weight(q, size)
  {
  }

  /** The children ContainingChildren finds come after their parent. */
  lemma FoundChildrenLater(nodes: seq<Node>, points: seq<Point>, g: Geometry, n: nat, p: Point)
    requires NodesValid(nodes, |points|) && n < |nodes|
    requires ContainingChildren(nodes, points, g, n, p).Success?
    requires ContainingChildren(nodes, points, g, n, p).value.Some?
    ensures var found := ContainingChildren(nodes, points, g, n, p).value.value;
      |found| <= 2 && forall k :: 0 <= k < |found| ==> n < found[k] < |nodes|
  {
    assert NodeOk(nodes, n, |points|);
  }

  /** The breadth-first descent of findContainingLeafNodes from the queue
      `deque`, with `leaves` met so far: the head of the queue is tested;
      a leaf joins `leaves` (a third one is an IllegalState), the children
      that contain p join the back of the queue; an empty queue with no
      leaf met is an IllegalState too. */
  function Descent(nodes: seq<Node>, points: seq<Point>, g: Geometry, p: Point, deque: seq<nat>, leaves: seq<nat>)
    : Result<seq<nat>>
    requires NodesValid(nodes, |points|) && forall k :: 0 <= k < |deque| ==> deque[k] < |nodes|
    decreases Weight(deque, |nodes|)
  {
    if |deque| == 0 then
      if |leaves| == 0 then Failure(IllegalState) else Success(leaves)
    else
      var node := deque[0];
      var children := ContainingChildren(nodes, points, g, node, p);
      if children.Failure? then Failure(children.error)
      else if children.value.None? then
        if |leaves| > 1 then Failure(IllegalState)
        else
          DropLowersWeight(deque, |nodes|);
          Descent(nodes, points, g, p, deque[1..], leaves + [node])
      else
        var found := children.value.value;
        FoundChildrenLater(nodes, points, g, node, p);
        ReplaceLowersWeight(deque, found, |nodes|);
        Descent(nodes, points, g, p, deque[1..] + found, leaves)
  }

  /** Whether the descent for p goes from `top` down to node n: n is `top`,
      or a child that an earlier node reached finds to contain p. */
  predicate Reachable(nodes: seq<Node>, points: seq<Point>, g: Geometry, p: Point, n: nat)
    requires NodesValid(nodes, |points|) && n < |nodes|
    decreases n
  {
    n == 0 ||
    exists a: nat :: a < n && StepsTo(nodes, points, g, p, a, n) && Reachable(nodes, points, g, p, a)
  }

  /** findContainingChildren(p) of node a succeeds and lists b. */
  predicate StepsTo(nodes: seq<Node>, points: seq<Point>, g: Geometry, p: Point, a: nat, b: nat)
    requires NodesValid(nodes, |points|) && a < |nodes|
  {
    var r := ContainingChildren(nodes, points, g, a, p);
    r.Success? && r.value.Some? && b in r.value.value
  }

  /** What the descent returns: one or two leaves, each reached from `top`
      by children that contain p; the leaves met before keep their places
      in front. */
  lemma {:induction false} DescentFinds(nodes: seq<Node>, points: seq<Point>, g: Geometry, p: Point,
                                        deque: seq<nat>, leaves: seq<nat>)
    requires NodesValid(nodes, |points|) && QueueReached(nodes, points, g, p, deque)
    requires LeavesReached(nodes, points, g, p, leaves)
    ensures var r := Descent(nodes, points, g, p, deque, leaves);
      r.Success? ==> LeavesReached(nodes, points, g, p, r.value) && 1 <= |r.value| && leaves <= r.value
    decreases Weight(deque, |nodes|)
  {
    if |deque| > 0 {
      var node := deque[0];
      var children := ContainingChildren(nodes, points, g, node, p);
      if children.Success? && children.value.None? && |leaves| <= 1 {
        DropLowersWeight(deque, |nodes|);
        LeafJoins(nodes, points, g, p, deque, leaves);
        DescentFinds(nodes, points, g, p, deque[1..], leaves + [node]);
        assert leaves <= leaves + [node];
      } else if children.Success? && children.value.Some? {
        var found := children.value.value;
        FoundChildrenLater(nodes, points, g, node, p);
        ReplaceLowersWeight(deque, found, |nodes|);
        ChildrenJoin(nodes, points, g, p, deque, found);
        DescentFinds(nodes, points, g, p, deque[1..] + found, leaves);
      }
    }
  }

  /** Every node of the queue is in the arena and reached from `top`. */
  predicate QueueReached(nodes: seq<Node>, points: seq<Point>, g: Geometry, p: Point, deque: seq<nat>)
    requires NodesValid(nodes, |points|)
  {
    forall k :: 0 <= k < |deque| ==> deque[k] < |nodes| && Reachable(nodes, points, g, p, deque[k])
  }

  /** At most two leaves, each reached from `top`. */
  predicate LeavesReached(nodes: seq<Node>, points: seq<Point>, g: Geometry, p: Point, leaves: seq<nat>)
    requires NodesValid(nodes, |points|)
  {
    |leaves| <= 2 &&
    forall k :: 0 <= k < |leaves| ==>
      leaves[k] < |nodes| && nodes[leaves[k]].children == [] && Reachable(nodes, points, g, p, leaves[k])
  }

  /** A leaf at the head of the queue joins the leaves met. */
  lemma LeafJoins(nodes: seq<Node>, points: seq<Point>, g: Geometry, p: Point, deque: seq<nat>, leaves: seq<nat>)
    requires NodesValid(nodes, |points|) && QueueReached(nodes, points, g, p, deque) && |deque| > 0
    requires LeavesReached(nodes, points, g, p, leaves) && |leaves| <= 1
    requires ContainingChildren(nodes, points, g, deque[0], p) == Success(None)
    ensures QueueReached(nodes, points, g, p, deque[1..]) && LeavesReached(nodes, points, g, p, leaves + [deque[0]])
  {
    var l := leaves + [deque[0]];
    forall k | 0 <= k < |l|
      ensures l[k] < |nodes| && nodes[l[k]].children == [] && Reachable(nodes, points, g, p, l[k])
    {
      if k < |leaves| {
        assert l[k] == leaves[k];
      }
    }
    forall k | 0 <= k < |deque| - 1
      ensures deque[1..][k] < |nodes| && Reachable(nodes, points, g, p, deque[1..][k])
    {
      assert deque[1..][k] == deque[k + 1];
    }
  }

  /** The children found for the head of the queue join its back. */
  lemma ChildrenJoin(nodes: seq<Node>, points: seq<Point>, g: Geometry, p: Point, deque: seq<nat>, found: seq<nat>)
    requires NodesValid(nodes, |points|) && QueueReached(nodes, points, g, p, deque) && |deque| > 0
    requires ContainingChildren(nodes, points, g, deque[0], p) == Success(Some(found))
    requires forall k :: 0 <= k < |found| ==> deque[0] < found[k] < |nodes|
    ensures QueueReached(nodes, points, g, p, deque[1..] + found)
  {
    var node := deque[0];
    forall k | 0 <= k < |found|
      ensures found[k] < |nodes| && Reachable(nodes, points, g, p, found[k])
    {
      ChildReached(nodes, points, g, p, node, found[k]);
    }
    forall k | 0 <= k < |deque| - 1
      ensures deque[1..][k] < |nodes| && Reachable(nodes, points, g, p, deque[1..][k])
    {
      assert deque[1..][k] == deque[k + 1];
    }
    QueueJoin(nodes, points, g, p, deque[1..], found);
  }

  /** Two reached queues joined are reached. */
  lemma QueueJoin(nodes: seq<Node>, points: seq<Point>, g: Geometry, p: Point, a: seq<nat>, b: seq<nat>)
    requires NodesValid(nodes, |points|)
    requires QueueReached(nodes, points, g, p, a) && QueueReached(nodes, points, g, p, b)
    ensures QueueReached(nodes, points, g, p, a + b)
  {
    forall k | 0 <= k < |a + b|
      ensures (a + b)[k] < |nodes| && Reachable(nodes, points, g, p, (a + b)[k])
    {
      if k < |a| {
        assert (a + b)[k] == a[k];
      } else {
        assert (a + b)[k] == b[k - |a|];
      }
    }
  }

  /** A child found for a reached node is reached. */
  lemma ChildReached(nodes: seq<Node>, points: seq<Point>, g: Geometry, p: Point, a: nat, c: nat)
    requires NodesValid(nodes, |points|) && a < c < |nodes|
    requires StepsTo(nodes, points, g, p, a, c) && Reachable(nodes, points, g, p, a)
    ensures Reachable(nodes, points, g, p, c)
  {
  }

  /** The errors of the descent: IllegalState when no leaf at all or a
      third leaf is met; and with no such leaf count, only the error of a
      findContainingChildren. */
  lemma DescentErrors(nodes: seq<Node>, points: seq<Point>, g: Geometry, p: Point, leaves: seq<nat>)
    requires NodesValid(nodes, |points|)
    ensures Descent(nodes, points, g, p, [], leaves) == if leaves == [] then Failure(IllegalState) else Success(leaves)
    ensures forall n :: 0 <= n < |nodes| && nodes[n].children == [] && |leaves| == 2 ==>
      Descent(nodes, points, g, p, [n], leaves) == Failure(IllegalState)
  {
    forall n | 0 <= n < |nodes| && nodes[n].children == [] && |leaves| == 2
      ensures Descent(nodes, points, g, p, [n], leaves) == Failure(IllegalState)
    {
      assert ContainingChildren(nodes, points, g, n, p) == Success(None);
    }
  }

  /** The three children of a split leaf, in the order i0 i1 i3, i1 i2 i3, i2 i0 i3. */
  function SplitLeafSpec(nodes: seq<Node>, n: nat, pointIndex: int, numPoints: nat): (r: seq<Node>)
    requires NodesValid(nodes, numPoints) && n < |nodes| && IsVertexId(pointIndex, numPoints)
  {
    var t := nodes[n].triangle;
    var k := |nodes|;
    nodes[n := nodes[n].(children := [k, k + 1, k + 2])] +
      [SplitChild(t, 0, pointIndex), SplitChild(t, 1, pointIndex), SplitChild(t, 2, pointIndex)]
  }

  /** The history after flipEdge: two fresh leaves holding tri0 and tri1
      become the shared children of n0 and n1. */
  function FlipLeavesSpec(nodes: seq<Node>, n0: nat, n1: nat, tri0: Tri, tri1: Tri): (r: seq<Node>)
    requires n0 < |nodes| && n1 < |nodes|
  {
    var k := |nodes|;
    nodes[n0 := nodes[n0].(children := [k, k + 1])][n1 := nodes[n1].(children := [k, k + 1])]
      + [Node([], tri0), Node([], tri1)]
  }

  /** flipEdge's history update keeps the arena valid: the two new leaves
      come after both nodes that now point to them. */
  lemma FlipLeavesValid(nodes: seq<Node>, n0: nat, n1: nat, tri0: Tri, tri1: Tri, numPoints: nat)
    requires NodesValid(nodes, numPoints) && n0 < |nodes| && n1 < |nodes|
    requires TriIds(tri0, numPoints) && TriIds(tri1, numPoints)
    ensures NodesValid(FlipLeavesSpec(nodes, n0, n1, tri0, tri1), numPoints)
  {
    var r := FlipLeavesSpec(nodes, n0, n1, tri0, tri1);
    forall i | 0 <= i < |r|
      ensures NodeOk(r, i, numPoints)
    {
      if i < |nodes| {
        assert NodeOk(nodes, i, numPoints);
      }
    }
  }

  /** Child i of a leaf split by a point: the edge from corner i to the next
      corner, and the point. */
  function SplitChild(t: Tri, i: nat, pointIndex: int): Node
    requires i < 3
  {
    Node([], Canonical([t[i], t[(i + 1) % 3], pointIndex]))
  }

  /** A split keeps the arena valid; the node gets three new leaves, and
      no other node changes. */
  lemma SplitLeafSpecValid(nodes: seq<Node>, n: nat, pointIndex: int, numPoints: nat)
    requires NodesValid(nodes, numPoints) && n < |nodes| && IsVertexId(pointIndex, numPoints)
    ensures var r := SplitLeafSpec(nodes, n, pointIndex, numPoints);
      NodesValid(r, numPoints) && |r| == |nodes| + 3 &&
      r[n].children == [|nodes|, |nodes| + 1, |nodes| + 2] &&
      (forall i :: 0 <= i < |nodes| && i != n ==> r[i] == nodes[i]) &&
      (forall i :: |nodes| <= i < |r| ==> r[i].children == [] && pointIndex in r[i].triangle)
  {
    var t := nodes[n].triangle;
    var k := |nodes|;
    assert NodeOk(nodes, n, numPoints);
    CanonicalIds([t[0], t[1], pointIndex], numPoints);
    CanonicalIds([t[1], t[2], pointIndex], numPoints);
    CanonicalIds([t[2], t[0], pointIndex], numPoints);
    var leaves := [SplitChild(t, 0, pointIndex), SplitChild(t, 1, pointIndex), SplitChild(t, 2, pointIndex)];
    AddLeavesValid(nodes, leaves, numPoints);
    var s := nodes + leaves;
    SetChildrenValid(s, n, [k, k + 1, k + 2], numPoints);
    assert SplitLeafSpec(nodes, n, pointIndex, numPoints) == s[n := s[n].(children := [k, k + 1, k + 2])];
  }

  /** The nodes after two leaves are split at their shared edge i0 i1 by
      i4: (i0 i4 i2), (i4 i1 i2) under node0 and (i1 i4 i3), (i4 i0 i3)
      under node1. */
  function SplitLeavesNodes(nodes: seq<Node>, n0: nat, n1: nat, c: Corners, i4: int): (r: seq<Node>)
    requires n0 < |nodes| && n1 < |nodes|
  {
    var k := |nodes|;
    nodes[n0 := nodes[n0].(children := [k, k + 1])][n1 := nodes[n1].(children := [k + 2, k + 3])] +
      [Node([], Canonical([c.i0, i4, c.i2])), Node([], Canonical([i4, c.i1, c.i2])),
       Node([], Canonical([c.i1, i4, c.i3])), Node([], Canonical([i4, c.i0, c.i3]))]
  }

  /** PointLocationStructure.splitContainingLeafNodes as a value. */
  function SplitLeavesSpec(nodes: seq<Node>, n0: nat, n1: nat, i4: int): (r: Result<seq<Node>>)
    requires n0 < |nodes| && n1 < |nodes|
    ensures r.Success? <==> SplitCorners(nodes[n0].triangle, nodes[n1].triangle).Success?
  {
    var c :- SplitCorners(nodes[n0].triangle, nodes[n1].triangle);
    Success(SplitLeavesNodes(nodes, n0, n1, c, i4))
  }

  lemma SplitLeavesNodesValid(nodes: seq<Node>, n0: nat, n1: nat, c: Corners, i4: int, numPoints: nat)
    requires NodesValid(nodes, numPoints) && n0 < |nodes| && n1 < |nodes| && n0 != n1
    requires IsVertexId(c.i0, numPoints) && IsVertexId(c.i1, numPoints) && IsVertexId(c.i2, numPoints)
    requires IsVertexId(c.i3, numPoints) && IsVertexId(i4, numPoints)
    ensures NodesValid(SplitLeavesNodes(nodes, n0, n1, c, i4), numPoints)
  {
    var k := |nodes|;
    var t0, t1, t2, t3 := [c.i0, i4, c.i2], [i4, c.i1, c.i2], [c.i1, i4, c.i3], [i4, c.i0, c.i3];
    CanonicalIds(t0, numPoints);
    CanonicalIds(t1, numPoints);
    CanonicalIds(t2, numPoints);
    CanonicalIds(t3, numPoints);
    var leaves := [Node([], Canonical(t0)), Node([], Canonical(t1)), Node([], Canonical(t2)), Node([], Canonical(t3))];
    AddLeavesValid(nodes, leaves, numPoints);
    var s := nodes + leaves;
    SetChildrenValid(s, n0, [k, k + 1], numPoints);
    var s0 := s[n0 := s[n0].(children := [k, k + 1])];
    SetChildrenValid(s0, n1, [k + 2, k + 3], numPoints);
    assert SplitLeavesNodes(nodes, n0, n1, c, i4) == s0[n1 := s0[n1].(children := [k + 2, k + 3])];
  }

  /** Appending leaves over known vertex ids keeps the arena valid. */
  lemma AddLeavesValid(nodes: seq<Node>, leaves: seq<Node>, numPoints: nat)
    requires NodesValid(nodes, numPoints)
    requires forall j :: 0 <= j < |leaves| ==> leaves[j].children == [] && TriIds(leaves[j].triangle, numPoints)
    ensures NodesValid(nodes + leaves, numPoints)
  {
    var r := nodes + leaves;
    forall i | 0 <= i < |r|
      ensures NodeOk(r, i, numPoints)
    {
      if i < |nodes| {
        assert NodeOk(nodes, i, numPoints) && r[i] == nodes[i];
      } else {
        assert r[i] == leaves[i - |nodes|];
      }
    }
  }

  /** Giving a node two or three increasing later children keeps the arena
      valid. */
  lemma SetChildrenValid(nodes: seq<Node>, n: nat, cs: seq<nat>, numPoints: nat)
    requires NodesValid(nodes, numPoints) && n < |nodes|
    requires |cs| == 2 || |cs| == 3
    requires forall k :: 0 <= k < |cs| ==> n < cs[k] < |nodes|
    requires forall a, b :: 0 <= a < b < |cs| ==> cs[a] < cs[b]
    ensures NodesValid(nodes[n := nodes[n].(children := cs)], numPoints)
  {
    var r := nodes[n := nodes[n].(children := cs)];
    forall i | 0 <= i < |r|
      ensures NodeOk(r, i, numPoints)
    {
      assert NodeOk(nodes, i, numPoints);
    }
  }

  /** Splitting two leaves keeps the arena valid and gives each of them two
      new leaf children; the two nodes are necessarily distinct, and no
      other node changes. */
  lemma SplitLeavesSpecValid(nodes: seq<Node>, n0: nat, n1: nat, i4: int, numPoints: nat)
    requires NodesValid(nodes, numPoints) && n0 < |nodes| && n1 < |nodes| && IsVertexId(i4, numPoints)
    requires SplitLeavesSpec(nodes, n0, n1, i4).Success?
    ensures var r := SplitLeavesSpec(nodes, n0, n1, i4).value;
      var k := |nodes|;
      NodesValid(r, numPoints) && |r| == k + 4 && n0 != n1 &&
      r[n0].children == [k, k + 1] && r[n1].children == [k + 2, k + 3] &&
      (forall i :: 0 <= i < k && i != n0 && i != n1 ==> r[i] == nodes[i]) &&
      (forall i :: k <= i < k + 4 ==> r[i].children == [] && i4 in r[i].triangle)
  {
    var tri0 := nodes[n0].triangle;
    var tri1 := nodes[n1].triangle;
    var c := SplitCorners(tri0, tri1).value;
    assert NodeOk(nodes, n0, numPoints) && NodeOk(nodes, n1, numPoints);
    SplitLeavesNodesValid(nodes, n0, n1, c, i4, numPoints);
  }

  /** Once the corners are found, splitting two leaves yields
      SplitLeavesNodes, a valid arena, and the four new triangles can be
      brought to canonical form. */
  lemma SplitLeavesFromCorners(nodes: seq<Node>, n0: nat, n1: nat, i4: int, numPoints: nat)
    requires NodesValid(nodes, numPoints) && n0 < |nodes| && n1 < |nodes| && IsVertexId(i4, numPoints)
    requires SplitCorners(nodes[n0].triangle, nodes[n1].triangle).Success?
    ensures var c := SplitCorners(nodes[n0].triangle, nodes[n1].triangle).value;
      var r := SplitLeavesNodes(nodes, n0, n1, c, i4);
      SplitLeavesSpec(nodes, n0, n1, i4) == Success(r) && NodesValid(r, numPoints) &&
      Rotatable([c.i0, i4, c.i2]) && Rotatable([i4, c.i1, c.i2]) &&
      Rotatable([c.i1, i4, c.i3]) && Rotatable([i4, c.i0, c.i3])
  {
    SplitLeavesSpecValid(nodes, n0, n1, i4, numPoints);
  }

  /** PointLocationStructure. */
  class PointLocationStructure {
    const points: seq<Point>
    const iLargest: int
    var nodes: seq<Node>

    ghost predicate Valid()
      reads this
    {
      NodesValid(nodes, |points|)
    }

    /** A single leaf `top` holding the triangle (-2, iLargest, -1). */
    constructor(points: seq<Point>, iLargest: int)
      ensures this.points == points && this.iLargest == iLargest
      ensures nodes == [Node([], [-2, iLargest, -1])]
      ensures IsVertexId(iLargest, |points|) && |points| <= Util.IntMax ==> Valid()
    {
      this.points := points;
      this.iLargest := iLargest;
      nodes := [Node([], [-2, iLargest, -1])];
      new;
      if IsVertexId(iLargest, |points|) && |points| <= Util.IntMax {
        assert NodeOk(nodes, 0, |points|);
      }
    }

    /** The counting loops of Node.findContainingChildren(p) for three
        children, then childIndices. */
    static method ChooseCountedTwice(all: seq<nat>, cs: seq<nat>) returns (r: Result<Option<seq<nat>>>)
      requires |cs| == 3
      requires forall k :: 0 <= k < |all| ==> all[k] in cs
      ensures r == CountedTwice(all, cs)
    {
      var childCounts: seq<nat> := [0, 0, 0];
      for i := 0 to |all|
        invariant childCounts == Tally(all[..i], cs)
      {
        assert all[..i + 1][..i] == all[..i];
        var ci := ChildIndex(cs, all[i]);
        childCounts := childCounts[ci := childCounts[ci] + 1];
      }
      assert all[..|all|] == all;
      var indices := new int[3];
      var numIndices := ChildIndices(childCounts, 2, indices);
      if numIndices == 1 {
        return Success(Some([cs[indices[0]]]));
      } else if numIndices == 2 {
        return Success(Some([cs[indices[0]], cs[indices[1]]]));
      } else {
        return Failure(IllegalState);
      }
    }

    /** Node.findContainingChildren(p): the pairwise tests and the counting
        loops over their results. */
    method FindContainingChildren(g: Geometry, n: nat, p: Point) returns (r: Result<Option<seq<nat>>>)
      requires Valid() && n < |nodes|
      ensures r == ContainingChildren(nodes, points, g, n, p)
    {
      var cs := nodes[n].children;
      assert NodeOk(nodes, n, |points|);
      if |cs| == 0 {
        return Success(None);
      }
      if |cs| == 2 {
        var nds := PairChoice(points, g, cs[0], nodes[cs[0]].triangle, cs[1], nodes[cs[1]].triangle, p);
        if nds.Failure? {
          return Failure(nds.error);
        }
        return Success(Some(nds.value));
      } else if |cs| == 3 {
        var ns01 := PairChoice(points, g, cs[0], nodes[cs[0]].triangle, cs[1], nodes[cs[1]].triangle, p);
        if ns01.Failure? {
          return Failure(ns01.error);
        }
        var ns12 := PairChoice(points, g, cs[1], nodes[cs[1]].triangle, cs[2], nodes[cs[2]].triangle, p);
        if ns12.Failure? {
          return Failure(ns12.error);
        }
        var ns20 := PairChoice(points, g, cs[2], nodes[cs[2]].triangle, cs[0], nodes[cs[0]].triangle, p);
        if ns20.Failure? {
          return Failure(ns20.error);
        }
        r := ChooseCountedTwice(ns01.value + ns12.value + ns20.value, cs);
        return;
      }
      return Failure(IllegalState);
    }

    /** PointLocationStructure.findContainingLeafNodes: breadth-first descent
        from `top`; one or two leaves, or IllegalState when none or a third
        is met. */
    method FindContainingLeafNodes(g: Geometry, p: Point) returns (r: Result<seq<nat>>)
      requires Valid()
      ensures r == Descent(nodes, points, g, p, [0], [])
      ensures r.Success? ==> 1 <= |r.value| <= 2 && LeavesReached(nodes, points, g, p, r.value)
    {
      DescentFinds(nodes, points, g, p, [0], []);
      var deque: seq<nat> := [0];
      var leafNodes: seq<nat> := [];
      while |deque| > 0
        invariant forall k :: 0 <= k < |deque| ==> deque[k] < |nodes|
        invariant Descent(nodes, points, g, p, deque, leafNodes) == Descent(nodes, points, g, p, [0], [])
        decreases Weight(deque, |nodes|)
      {
        var node := deque[0];
        var children := FindContainingChildren(g, node, p);
        if children.Failure? {
          return Failure(children.error);
        }
        if children.value.None? {
          if |leafNodes| > 1 {
            return Failure(IllegalState);
          }
          leafNodes := leafNodes + [node];
          DropLowersWeight(deque, |nodes|);
          deque := deque[1..];
        } else {
          var found := children.value.value;
          FoundChildrenLater(nodes, points, g, node, p);
          ReplaceLowersWeight(deque, found, |nodes|);
          deque := deque[1..] + found;
        }
      }
      if |leafNodes| == 0 {
        return Failure(IllegalState);
      }
      return Success(leafNodes);
    }

    /** PointLocationStructure.splitContainingLeafNode. */
    method SplitContainingLeafNode(n: nat, pointIndex: int)
      requires Valid() && n < |nodes| && IsVertexId(pointIndex, |points|)
      modifies this
      ensures nodes == SplitLeafSpec(old(nodes), n, pointIndex, |points|)
      ensures Valid()
    {
      var tri := nodes[n].triangle;
      var k := |nodes|;
      assert NodeOk(nodes, n, |points|);
      var created: seq<Node> := [];
      for i := 0 to 3
        invariant nodes == old(nodes)
        invariant |created| == i
        invariant forall j :: 0 <= j < i ==> created[j] == SplitChild(tri, j, pointIndex)
      {
        TriIdsRotatable([tri[i], tri[(i + 1) % 3], pointIndex], |points|);
        var ctri := NewCanonical(tri[i], tri[(i + 1) % 3], pointIndex);
        created := created + [Node([], ctri)];
      }
      SplitLeafSpecValid(nodes, n, pointIndex, |points|);
      assert created == [SplitChild(tri, 0, pointIndex), SplitChild(tri, 1, pointIndex), SplitChild(tri, 2, pointIndex)];
      nodes := nodes[n := nodes[n].(children := [k, k + 1, k + 2])] + created;
    }

    /** PointLocationStructure.splitContainingLeafNodes. */
    method SplitContainingLeafNodes(n0: nat, n1: nat, i4: int) returns (o: Outcome)
      requires Valid() && n0 < |nodes| && n1 < |nodes| && IsVertexId(i4, |points|)
      modifies this
      ensures var spec := SplitLeavesSpec(old(nodes), n0, n1, i4);
        (o.Pass? <==> spec.Success?) && (spec.Success? ==> nodes == spec.value) &&
        (spec.Failure? ==> nodes == old(nodes) && o == Fail(spec.error))
      ensures Valid()
    {
      var tri0 := nodes[n0].triangle;
      var tri1 := nodes[n1].triangle;
      var corners := FindCorners(tri0, tri1);
      if corners.Failure? {
        return Fail(corners.error);
      }
      var Corners(i0, i1, i2, i3) := corners.value;
      SplitLeavesFromCorners(nodes, n0, n1, i4, |points|);
      var k := |nodes|;
      var c0 := NewCanonical(i0, i4, i2);
      var c1 := NewCanonical(i4, i1, i2);
      var c2 := NewCanonical(i1, i4, i3);
      var c3 := NewCanonical(i4, i0, i3);
      nodes := nodes[n0 := nodes[n0].(children := [k, k + 1])][n1 := nodes[n1].(children := [k + 2, k + 3])] +
        [Node([], c0), Node([], c1), Node([], c2), Node([], c3)];
      return Pass;
    }

    /** PointLocationStructure.flipEdge: two fresh leaves holding tri0 and
        tri1 become the shared children of node0 and node1. */
    method FlipEdge(n0: nat, n1: nat, tri0: Tri, tri1: Tri) returns (children: seq<nat>)
      requires Valid() && n0 < |nodes| && n1 < |nodes|
      requires TriIds(tri0, |points|) && TriIds(tri1, |points|)
      modifies this
      ensures children == [|old(nodes)|, |old(nodes)| + 1]
      ensures nodes == FlipLeavesSpec(old(nodes), n0, n1, tri0, tri1)
      ensures Valid()
    {
      var k := |nodes|;
      children := [k, k + 1];
      FlipLeavesValid(nodes, n0, n1, tri0, tri1, |points|);
      nodes := nodes[n0 := nodes[n0].(children := children)][n1 := nodes[n1].(children := children)]
        + [Node([], tri0), Node([], tri1)];
    }
  }
}
