/** Triangle.java: index arithmetic on triangles, i.e. triples of vertex ids
    (-2 and -1 are the two sentinels, other ids are point indexes). */
module Triangles {
  import opened Wrappers
  import Util

  type Tri = t: seq<int> | |t| == 3 witness [0, 0, 0]

  /** Triangle.contains. */
  function Contains(tri: Tri, p: int): (r: bool)
    ensures r <==> p in tri
  {
    p == tri[0] || p == tri[1] || p == tri[2]
  }

  /** The three ways a pair of consecutive corners can be returned. */
  predicate IsEdgePair(c: seq<int>) {
    c == [0, 1] || c == [1, 2] || c == [2, 0]
  }

  /** Triangle.nonCommon: the corner outside a consecutive pair. */
  function NonCommon(commons: seq<int>): (r: int)
    requires IsEdgePair(commons)
    ensures 0 <= r < 3 && r != commons[0] && r != commons[1]
    ensures r == (commons[1] + 1) % 3
  {
    (commons[0] + 2) % 3
  }

  /** How many corners of t0 occur in t1. */
  function SharedCount(t0: Tri, t1: Tri): (n: nat)
    ensures n <= 3
  {
    (if t0[0] in t1 then 1 else 0) + (if t0[1] in t1 then 1 else 0) + (if t0[2] in t1 then 1 else 0)
  }

  /** Triangle.findCommonPoints as a value: the pair of corners of t0 that
      t1 shares; an AssertionError unless exactly two corners are shared. */
  function CommonPoints(t0: Tri, t1: Tri): (r: Result<seq<int>>)
    ensures r.Success? <==> SharedCount(t0, t1) == 2
    ensures r.Success? ==> IsEdgePair(r.value)
    ensures r.Success? ==>
      t0[r.value[0]] in t1 && t0[r.value[1]] in t1 && t0[NonCommon(r.value)] !in t1
  {
    if SharedCount(t0, t1) != 2 then Failure(AssertionFailed)
    else if t0[1] !in t1 then Success([2, 0])
    else if t0[0] in t1 then Success([0, 1])
    else Success([1, 2])
  }

  /** Triangle.findCommonPoints: the nested search loops filling `equals`. */
  method FindCommonPoints(triangle0: Tri, triangle1: Tri) returns (r: Result<seq<int>>)
    ensures r == CommonPoints(triangle0, triangle1)
  {
    var equals := [-1, -1, -1];
    for i := 0 to 3
      invariant |equals| == 3
      invariant forall k :: 0 <= k < i ==>
        (equals[k] == -1 <==> triangle0[k] !in triangle1)
      invariant forall k :: i <= k < 3 ==> equals[k] == -1
      invariant forall k :: 0 <= k < 3 ==> equals[k] >= -1
    {
      var e := -1;
      var j := 0;
      while j < 3
        invariant 0 <= j <= 3
        invariant e == -1 ==> triangle0[i] !in triangle1[..j]
        invariant -1 <= e < 3 && (e != -1 ==> triangle0[i] in triangle1)
      {
        if triangle0[i] == triangle1[j] {
          e := j;
          break;
        }
        j := j + 1;
      }
      equals := equals[i := e];
      assert triangle1[..3] == triangle1;
    }
    var count := 0;
    for i := 0 to 3
      invariant count == |set k | 0 <= k < i && equals[k] != -1|
      invariant forall k :: 0 <= k < 3 ==> equals[k] >= -1
    {
      if equals[i] != -1 {
        count := count + 1;
      }
      assert (set k | 0 <= k < i + 1 && equals[k] != -1) ==
        (set k | 0 <= k < i && equals[k] != -1) + (if equals[i] != -1 then {i} else {});
    }
    var inT1 := set k | 0 <= k < 3 && equals[k] != -1;
    assert count == |inT1|;
    assert SharedCount(triangle0, triangle1) == |inT1| by {
      SharedCountIsCardinality(triangle0, triangle1, inT1);
    }
    if count != 2 {
      return Failure(AssertionFailed);
    }
    if equals[1] == -1 {
      return Success([2, 0]);
    }
    if equals[0] > -1 {
      return Success([0, 1]);
    }
    return Success([1, 2]);
  }

  lemma SharedCountIsCardinality(t0: Tri, t1: Tri, s: set<int>)
    requires s == set k | 0 <= k < 3 && t0[k] in t1
    ensures SharedCount(t0, t1) == |s|
  {
    var a := if t0[0] in t1 then {0} else {};
    var b := if t0[1] in t1 then {1} else {};
    var c := if t0[2] in t1 then {2} else {};
    assert s == a + b + c;
  }

  /** Triangle.theOtherPoint as a value: the first corner holding neither of
      the two points; an AssertionError unless both points are corners. */
  function OtherPoint(tri: Tri, two: seq<int>): (r: Result<int>)
    requires |two| == 2
    ensures r.Success? <==>
      two[0] in tri && two[1] in tri && exists k :: 0 <= k < 3 && tri[k] !in two
    ensures r.Success? ==>
      (0 <= r.value < 3 && tri[r.value] !in two && forall k :: 0 <= k < r.value ==> tri[k] in two)
  {
    if !Contains(tri, two[0]) || !Contains(tri, two[1]) then Failure(AssertionFailed)
    else if tri[0] != two[0] && tri[0] != two[1] then Success(0)
    else if tri[1] != two[0] && tri[1] != two[1] then Success(1)
    else if tri[2] != two[0] && tri[2] != two[1] then Success(2)
    else Failure(IllegalState)
  }

  /** When both points are corners and different, the third corner is found:
      theOtherPoint throws only for a repeated point. */
  lemma OtherPointFound(tri: Tri, two: seq<int>)
    requires |two| == 2 && two[0] in tri && two[1] in tri && two[0] != two[1]
    requires tri[0] != tri[1] && tri[1] != tri[2] && tri[2] != tri[0]
    ensures OtherPoint(tri, two).Success?
  {
  }

  /** Triangle.theOtherPoint: the asserts, then the search loop. */
  method TheOtherPoint(triangle: Tri, twoPoints: seq<int>) returns (r: Result<int>)
    requires |twoPoints| == 2
    ensures r == OtherPoint(triangle, twoPoints)
  {
    var tri := triangle;
    var two := twoPoints;
    if !Contains(tri, two[0]) || !Contains(tri, two[1]) {
      return Failure(AssertionFailed);
    }
    for i := 0 to 3
      invariant forall k :: 0 <= k < i ==> tri[k] in two
    {
      var p := tri[i];
      var contains := p == two[0] || p == two[1];
      if !contains {
        return Success(i);
      }
    }
    return Failure(IllegalState);
  }

  /** The corners named by the three callers of findCommonPoints: the
      shared edge i0 i1 in tri0's order, tri0's third corner i2 and tri1's
      third corner i3. */
  datatype Corners = Corners(i0: int, i1: int, i2: int, i3: int)

  /** What the driver, PointLocationStructure.splitContainingLeafNodes and
      Dcel.splitTriangles each compute from findCommonPoints, nonCommon and
      theOtherPoint. */
  function SplitCorners(tri0: Tri, tri1: Tri): (r: Result<Corners>)
    ensures r.Success? ==>
      var c := r.value;
      ([c.i0, c.i1, c.i2] == tri0 || [c.i0, c.i1, c.i2] == [tri0[1], tri0[2], tri0[0]] ||
       [c.i0, c.i1, c.i2] == [tri0[2], tri0[0], tri0[1]]) &&
      c.i0 in tri1 && c.i1 in tri1 && c.i2 !in tri1 &&
      c.i3 in tri1 && c.i3 != c.i0 && c.i3 != c.i1
    ensures r.Success? <==> (SharedCount(tri0, tri1) == 2 &&
      var c := CommonPoints(tri0, tri1).value;
      OtherPoint(tri1, [tri0[c[0]], tri0[c[1]]]).Success?)
  {
    var commons :- CommonPoints(tri0, tri1);
    var i0 := tri0[commons[0]];
    var i1 := tri0[commons[1]];
    var i2 := tri0[NonCommon(commons)];
    var o :- OtherPoint(tri1, [i0, i1]);
    Success(Corners(i0, i1, i2, tri1[o]))
  }

  /** The four lines each of those sites runs: findCommonPoints, the
      shared corners, nonCommon and theOtherPoint. */
  method FindCorners(tri0: Tri, tri1: Tri) returns (r: Result<Corners>)
    ensures r == SplitCorners(tri0, tri1)
  {
    var commons := FindCommonPoints(tri0, tri1);
    if commons.Failure? {
      return Failure(commons.error);
    }
    var i0 := tri0[commons.value[0]];
    var i1 := tri0[commons.value[1]];
    var i2 := tri0[NonCommon(commons.value)];
    var other := TheOtherPoint(tri1, [i0, i1]);
    if other.Failure? {
      return Failure(other.error);
    }
    return Success(Corners(i0, i1, i2, tri1[other.value]));
  }

  /** A triangle rotated so its first minimum comes first, which needs an
      entry below Integer.MAX_VALUE (every vertex id is). */
  predicate Rotatable(t: Tri) {
    t[0] < Util.IntMax || t[1] < Util.IntMax || t[2] < Util.IntMax
  }

  /** The canonical form Triangle.toCanonical produces: the rotation that
      starts at the first occurrence of the minimum. */
  function Canonical(t: Tri): (r: Tri)
    ensures r[0] <= r[1] && r[0] <= r[2]
    ensures r == t || r == [t[1], t[2], t[0]] || r == [t[2], t[0], t[1]]
  {
    if t[0] <= t[1] && t[0] <= t[2] then t
    else if t[1] <= t[2] then [t[1], t[2], t[0]]
    else [t[2], t[0], t[1]]
  }

  /** The index arithmetic of toCanonical (indexOfMinimum, then a rotation
      by that index) yields the canonical form. */
  lemma CanonicalIsRotationByMinimum(t: Tri)
    requires Rotatable(t)
    ensures Util.IndexOfMinimumOf(t) >= 0
    ensures Canonical(t) == Util.RotatedBy(t, Util.IndexOfMinimumOf(t))
  {
    Util.IndexOfMinimumOfIsFirstMinimum(t);
    var iMin := Util.IndexOfMinimumOf(t);
    var r := Util.RotatedBy(t, iMin);
    assert r == [r[0], r[1], r[2]];
    if iMin == 0 {
      assert r[0] == t[0] && r[1] == t[1] && r[2] == t[2];
    } else if iMin == 1 {
      assert r[0] == t[1] && r[1] == t[2] && r[2] == t[(2 + 1) % 3];
    } else {
      assert r[0] == t[2] && r[1] == t[(1 + 2) % 3] && r[2] == t[(2 + 2) % 3];
    }
  }

  /** The canonical rotation has the corners of t, distinct when t's are. */
  lemma CanonicalCorners(t: Tri)
    ensures var r := Canonical(t); t[0] in r && t[1] in r && t[2] in r
    ensures t[0] != t[1] && t[1] != t[2] && t[2] != t[0] ==>
      var r := Canonical(t); r[0] != r[1] && r[1] != r[2] && r[2] != r[0]
  {
  }

  /** toCanonical is idempotent. */
  lemma CanonicalIdempotent(t: Tri)
    ensures Canonical(Canonical(t)) == Canonical(t)
  {
  }

  /** Triangles with distinct corners that are rotations of each other have
      the same canonical form. */
  lemma CanonicalOfRotation(a: int, b: int, c: int)
    requires a != b && b != c && c != a
    ensures Canonical([b, c, a]) == Canonical([a, b, c])
  {
  }

  /** Triangle.toCanonical: rotates the array in place. */
  method ToCanonical(triangle: array<int>) returns (r: array<int>)
    requires triangle.Length == 3 && Rotatable(triangle[..])
    modifies triangle
    ensures r == triangle
    ensures triangle[..] == Canonical(old(triangle[..]))
  {
    CanonicalIsRotationByMinimum(triangle[..]);
    var iMin := Util.IndexOfMinimum(triangle);
    if iMin == 0 {
      assert Util.RotatedBy(triangle[..], 0) == triangle[..];
      return triangle;
    }
    Util.RotateInPlace(triangle, iMin);
    return triangle;
  }

  /** `Triangle.toCanonical(new int[] {a, b, c})`. */
  method NewCanonical(a: int, b: int, c: int) returns (t: Tri)
    requires Rotatable([a, b, c])
    ensures t == Canonical([a, b, c])
  {
    var arr := new int[3];
    arr[0], arr[1], arr[2] := a, b, c;
    assert arr[..] == [a, b, c];
    var r := ToCanonical(arr);
    t := r[..];
  }

  /** Lexicographic order over the three entries, as triangleComparator. */
  function Lex(t0: Tri, t1: Tri): (r: int)
    ensures r in {-1, 0, 1}
  {
    if t0[0] < t1[0] then -1 else if t0[0] > t1[0] then 1
    else if t0[1] < t1[1] then -1 else if t0[1] > t1[1] then 1
    else if t0[2] < t1[2] then -1 else if t0[2] > t1[2] then 1
    else 0
  }

  /** The comparator is 0 exactly for entrywise equal triangles, and antisymmetric. */
  lemma LexIsTotalOrder(t0: Tri, t1: Tri)
    ensures Lex(t0, t1) == 0 <==> t0 == t1
    ensures Lex(t0, t1) == -Lex(t1, t0)
  {
    if Lex(t0, t1) == 0 {
      assert t0 == [t0[0], t0[1], t0[2]] && t1 == [t1[0], t1[1], t1[2]];
    }
  }

  /** Triangle.triangleComparator.compare: the index loop. */
  method TriangleCompare(tri0: Tri, tri1: Tri) returns (r: int)
    ensures r == Lex(tri0, tri1)
    ensures r == 0 <==> tri0 == tri1
  {
    LexIsTotalOrder(tri0, tri1);
    for i := 0 to 3
      invariant tri0[..i] == tri1[..i]
    {
      if tri0[i] < tri1[i] {
        return -1;
      } else if tri0[i] > tri1[i] {
        return 1;
      }
      assert tri0[..i + 1] == tri0[..i] + [tri0[i]];
      assert tri1[..i + 1] == tri1[..i] + [tri1[i]];
    }
    assert tri0 == tri0[..3] && tri1 == tri1[..3];
    return 0;
  }

  predicate IsJavaInt(n: int) {
    Util.IntMin <= n <= Util.IntMax
  }

  /** The 32 bits of a Java int. */
  function Bits(n: int): bv32
    requires IsJavaInt(n)
  {
    if n >= 0 then n as bv32 else (n + 0x1_0000_0000) as bv32
  }

  /** Triangle.hashCode(int[]): the xor of the three entries (as 32 bits). */
  function HashCode(tri: Tri): bv32
    requires IsJavaInt(tri[0]) && IsJavaInt(tri[1]) && IsJavaInt(tri[2])
  {
    Bits(tri[0]) ^ Bits(tri[1]) ^ Bits(tri[2])
  }

  /** Comparator-equal triangles hash equally, and so do rotations. */
  lemma HashCodeRespectsComparator(t0: Tri, t1: Tri)
    requires forall i :: 0 <= i < 3 ==> IsJavaInt(t0[i]) && IsJavaInt(t1[i])
    ensures Lex(t0, t1) == 0 ==> HashCode(t0) == HashCode(t1)
    ensures HashCode([t0[1], t0[2], t0[0]]) == HashCode(t0)
  {
    LexIsTotalOrder(t0, t1);
    var a, b, c := Bits(t0[0]), Bits(t0[1]), Bits(t0[2]);
    assert b ^ c ^ a == a ^ b ^ c;
  }
}
