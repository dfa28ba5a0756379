# Delaunay triangulation over a doubly-connected edge list

This project models, in Dafny, the core of a randomized incremental Delaunay
triangulation written in Java (package `gmail.pvbemmelen62.delaunay`). The
model covers these parts:

- **The mesh (`Dcel`).** Half-edges with twin/next/prev/origin/face, faces
  carrying a history node as `data`, and vertices. Point index -2 is the
  upper-left sentinel and -1 the right one. The mesh operations are the top
  triangle, `getHalfEdge`, `splitTriangle`, `HalfEdge.flip`,
  `splitTriangles`, `isLegal`, `swapIsConvex`, `calcTriangle`,
  `edgeIterator`, `getFaces` and `checkEdges`.
- **The history DAG (`PointLocationStructure`).** A point is located by
  descending from the top node through the children that contain it.
- **The driver (`DelaunayTriangulation`).** It inserts the points in shuffled
  order, splits one or two triangles and legalizes the edges opposite the new
  point by flips.
- **Helpers.** The `Triangle` helpers on corner triples, the `Util` array
  helpers and `Point.compareTo`.

The mesh is a class whose sequence fields play the role of the Java object
graph. Every handle (half-edge, face, vertex) is an index into an arena, and
-1 stands for `null`. Each mutating method's postcondition equates the new
`State()` with a pure function of the old one: `SplitTriangleSpec`,
`FlipSpec`, `SplitTrianglesSpec`, `SetFaceData`, and so on. Lemmas then prove
facts about those functions:

- `MeshValid` is preserved.
- The new faces have the triangles the Java comments promise.
- No vertex is lost.

The history is a class over a node arena, where a node's children are indices.
The floating-point orientation and in-circle tests are parameters
(`Points.Geometry`); the model assumes only that a triangle with two equal
corners has orientation 0.

Module layout:

- `wrappers.dfy`: the `Result`/`Option`/`Outcome` wrappers and the Java
  exceptions as `Error` values.
- `points.dfy`: points, the comparators and the geometry parameters.
- `util.dfy` and `triangle.dfy`: `Util.java` and `Triangle.java`.
- `mesh.dfy`: the arena, its validity and the `getHalfEdge` search.
- `links.dfy`: `linkTwins`, `linkPrevNext`, `linkPrevNextTriangle` and
  `linkEdgesAndFace`.
- `surgery.dfy` and `steps.dfy`: the three mesh surgeries, and proofs that the
  Java statement order produces them.
- `fans.dfy`: `edgeIterator` and `getFaces`.
- `legality.dfy`: `isLegal` and `swapIsConvex`.
- `dcel.dfy`: the `Dcel` class.
- `history.dfy`: `PointLocationStructure`.
- `driver.dfy`: `DelaunayTriangulation`.
- `aswritten.dfy`: the finding below.

## Model

Paths are relative to the repository root.

| member | source | states |
|---|---|---|
| Points.CompareTo | src/gmail/pvbemmelen62/delaunay/Point.java:58-75 | the result is -1, 0 or 1, and 0 exactly for equal points |
| Points.CompareToOrdersByYThenX | src/gmail/pvbemmelen62/delaunay/Point.java:58-75 | a larger y wins whatever x is; for equal y the x comparison decides, in both directions |
| Points.CompareToAntisymmetric | src/gmail/pvbemmelen62/delaunay/Point.java:58-75 | compareTo(a, b) == -compareTo(b, a) |
| Points.CompareToTransitive | src/gmail/pvbemmelen62/delaunay/Point.java:58-75 | a > b and b > c give a > c |
| Points.YThenX | src/gmail/pvbemmelen62/delaunay/DelaunayTriangulation.java:22-40 | yThenXComparator returns -1, 0 or 1, and 0 exactly when both coordinates agree |
| Points.ComparatorAgreesWithCompareTo | src/gmail/pvbemmelen62/delaunay/DelaunayTriangulation.java:22-40 | yThenXComparator and Point.compareTo are the same order on every pair |
| Points.PointAt | src/gmail/pvbemmelen62/delaunay/PointLocationStructure.java:105 | a `points[i]` read succeeds exactly for 0 <= i < length and then yields points[i]; otherwise it throws IndexOutOfBounds |
| Points.Geometry.InCircle | src/gmail/pvbemmelen62/delaunay/dcel/Circle.java:14-31 | inCircle fails its assertion unless p0, p1, p2 are clockwise, and otherwise yields the in-circle test |
| Util.Wrap32 | src/gmail/pvbemmelen62/delaunay/Util.java:32-35 | the 32-bit two's-complement wrap: in Integer range and congruent to n modulo 2^32 |
| Util.RangeOccurrences | src/gmail/pvbemmelen62/delaunay/Util.java:59-60 | `IntStream.range(lo, hi)` holds every v in lo..hi-1 exactly once and nothing else |
| Util.Swap | src/gmail/pvbemmelen62/delaunay/Util.java:68-75 | entries i and j are exchanged, every other entry is kept, i == j changes nothing, and the multiset is kept |
| Util.Shuffle | src/gmail/pvbemmelen62/delaunay/Util.java:50-53 | the swap loop from the top index down, with draw(i) in 0..i, keeps the multiset of the array |
| Util.Permutation | src/gmail/pvbemmelen62/delaunay/Util.java:48-55 | the result has length max + 1 and holds each of 0..max exactly once, for every choice of draws |
| Util.PermutationRange | src/gmail/pvbemmelen62/delaunay/Util.java:59-66 | the result has length max - min + 1 and holds each of min..max exactly once, for every choice of draws |
| Util.FirstIndexOf | src/gmail/pvbemmelen62/delaunay/Util.java:76-86 | -1 exactly when the value is absent; otherwise an index holding the value with no earlier occurrence |
| Util.FirstIndexOfUnique | src/gmail/pvbemmelen62/delaunay/Util.java:76-86 | any index that is -1 for an absent value, or a first occurrence, is FirstIndexOf |
| Util.FindFirst | src/gmail/pvbemmelen62/delaunay/Util.java:77-86 | the loop returns the first index of the value, or -1 |
| Util.IndexOf | src/gmail/pvbemmelen62/delaunay/Util.java:103-112 | the loop returns the first index of the value, or -1 |
| Util.IndexOfMinimumOfIsFirstMinimum | src/gmail/pvbemmelen62/delaunay/Util.java:113-123 | -1 exactly when no entry is below Integer.MAX_VALUE; otherwise the first index of a minimum |
| Util.IndexOfMinimum | src/gmail/pvbemmelen62/delaunay/Util.java:113-123 | the loop returns the first index of a minimum below Integer.MAX_VALUE, or -1 when none is |
| Util.RotatedBySplits | src/gmail/pvbemmelen62/delaunay/Util.java:127-134 | the rotation by index is s[index..] + s[..index], with the same multiset |
| Util.Rotate | src/gmail/pvbemmelen62/delaunay/Util.java:127-134 | a fresh array holding the input rotated by index |
| Util.RotateInPlace | src/gmail/pvbemmelen62/delaunay/Util.java:138-143 | the array afterwards holds its old contents rotated by index |
| Util.EnsureIndex | src/gmail/pvbemmelen62/delaunay/Util.java:26-31 | the old elements stay, and the list is padded with defVal up to length index + 1 when shorter |
| Util.ArrayListIncr | src/gmail/pvbemmelen62/delaunay/Util.java:32-35 | the slot at index gains `change` with 32-bit wrap-around, and every other slot is kept |
| Util.ToIntArray | src/gmail/pvbemmelen62/delaunay/Util.java:168-174 | the array holds the list's elements in order |
| Triangles.Contains | src/gmail/pvbemmelen62/delaunay/Triangle.java:62-67 | true exactly when p is a corner |
| Triangles.NonCommon | src/gmail/pvbemmelen62/delaunay/Triangle.java:41-43 | for an adjacent pair of positions, the third position |
| Triangles.CommonPoints | src/gmail/pvbemmelen62/delaunay/Triangle.java:14-39 | succeeds exactly when two corners are shared; then an adjacent pair of positions of shared corners, with the third corner not shared |
| Triangles.SharedCountIsCardinality | src/gmail/pvbemmelen62/delaunay/Triangle.java:14-39 | the shared count is the number of positions whose corner the other triangle has |
| Triangles.FindCommonPoints | src/gmail/pvbemmelen62/delaunay/Triangle.java:14-39 | the nested loops compute CommonPoints, including the failure |
| Triangles.OtherPoint | src/gmail/pvbemmelen62/delaunay/Triangle.java:47-61 | succeeds exactly when both given points are corners and some corner is neither; then the first such position |
| Triangles.OtherPointFound | src/gmail/pvbemmelen62/delaunay/Triangle.java:47-61 | for a triangle with distinct corners and two distinct corners given, the third corner is found |
| Triangles.TheOtherPoint | src/gmail/pvbemmelen62/delaunay/Triangle.java:47-61 | the loop computes OtherPoint |
| Triangles.SplitCorners | src/gmail/pvbemmelen62/delaunay/DelaunayTriangulation.java:107-113 | corners i0 i1 i2 are a rotation of tri0, i0 and i1 are shared, i2 is not, and i3 is tri1's third corner; the lookup succeeds exactly when findCommonPoints and theOtherPoint do |
| Triangles.FindCorners | src/gmail/pvbemmelen62/delaunay/PointLocationStructure.java:262-267 | the statements compute SplitCorners |
| Triangles.Canonical | src/gmail/pvbemmelen62/delaunay/Triangle.java:73-80 | a rotation of the triangle whose first corner is a smallest one |
| Triangles.CanonicalIsRotationByMinimum | src/gmail/pvbemmelen62/delaunay/Triangle.java:73-80 | the canonical form is the rotation by Util.indexOfMinimum |
| Triangles.CanonicalCorners | src/gmail/pvbemmelen62/delaunay/Triangle.java:73-80 | the canonical form has the same corners, and distinct corners stay distinct |
| Triangles.CanonicalIdempotent | src/gmail/pvbemmelen62/delaunay/Triangle.java:73-80 | toCanonical of a canonical triangle changes nothing |
| Triangles.CanonicalOfRotation | src/gmail/pvbemmelen62/delaunay/Triangle.java:73-80 | rotations of a triangle with distinct corners have one canonical form |
| Triangles.ToCanonical | src/gmail/pvbemmelen62/delaunay/Triangle.java:73-80 | the array is rotated in place into its canonical form and returned |
| Triangles.NewCanonical | src/gmail/pvbemmelen62/delaunay/PointLocationStructure.java:272-278 | `toCanonical(new int[] {a, b, c})` is the canonical form of [a, b, c] |
| Triangles.LexIsTotalOrder | src/gmail/pvbemmelen62/delaunay/Triangle.java:97-110 | the comparator is 0 exactly for equal triangles and is antisymmetric |
| Triangles.TriangleCompare | src/gmail/pvbemmelen62/delaunay/Triangle.java:99-109 | the loop is the lexicographic order, 0 exactly for equal triangles |
| Triangles.HashCodeRespectsComparator | src/gmail/pvbemmelen62/delaunay/Triangle.java:114-119 | comparator-equal triangles have equal 32-bit hash codes, and the hash is invariant under rotation |
| Mesh.RepairVertex | src/gmail/pvbemmelen62/delaunay/dcel/Dcel.java:406-410 | v.edge becomes h1 exactly when it was h0; every other vertex and every vertex's existence is kept |
| Mesh.EdgeLaws | src/gmail/pvbemmelen62/delaunay/dcel/Dcel.java:352-357 | in a valid mesh an in-use half-edge lies on a 3-cycle: next, prev and twin differ from it, next.next is prev, prev.prev is next, and prev has the same face |
| Mesh.ValidPassesChecks | src/gmail/pvbemmelen62/delaunay/dcel/Dcel.java:656-662 | checkEdges' assertion (twin, next and prev of an in-use half-edge are in use) holds on every valid mesh |
| Mesh.StepLaws | src/gmail/pvbemmelen62/delaunay/dcel/Dcel.java:411-427 | the fan step h.twin.next and the iterator step h.prev.twin keep the origin, are injective, and undo each other |
| Mesh.LiveFace | src/gmail/pvbemmelen62/delaunay/dcel/Dcel.java:446-456 | calcTriangle of an in-use half-edge's face is the canonical form of its 3-cycle's origins, which are distinct |
| Mesh.GetPoint | src/gmail/pvbemmelen62/delaunay/dcel/Dcel.java:395-402 | null exactly for a sentinel index, and otherwise points[index] |
| Mesh.GetVertex | src/gmail/pvbemmelen62/delaunay/dcel/Dcel.java:573-585 | succeeds exactly for -2 <= i < vertices.length; the vertex is present exactly when it exists, and it is vertex i |
| Mesh.OrbitReturns | src/gmail/pvbemmelen62/delaunay/dcel/Dcel.java:559-570 | the walk around a vertex from any in-use half-edge returns to it within |edges| steps, so getHalfEdge's loop ends |
| Mesh.FanSearchFinds | src/gmail/pvbemmelen62/delaunay/dcel/Dcel.java:563-568 | the loop finds the first fan position whose twin starts at i1, or reports that the whole fan misses i1 |
| Mesh.FindHalfEdgeMeaning | src/gmail/pvbemmelen62/delaunay/dcel/Dcel.java:559-570 | getHalfEdge throws exactly when i0 has no vertex; a found half-edge is in use and leads from i0 to i1, and is the first such in the fan of v0.edge; null means the whole fan misses i1 |
| Links.LinkTwinsLaws | src/gmail/pvbemmelen62/delaunay/dcel/Dcel.java:344-347 | h0 and h1 become each other's twins, and only the twin fields of h0 and h1 change |
| Links.LinkPrevNextTriangleLaws | src/gmail/pvbemmelen62/delaunay/dcel/Dcel.java:352-357 | h0, h1, h2 form a next-cycle with prev as its inverse, and only their next/prev fields change |
| Links.SetFacesWrites | src/gmail/pvbemmelen62/delaunay/dcel/Dcel.java:364-372 | the do-while sets the face of exactly the half-edges on the walk from h |
| Links.LinkEdgesAndFaceLaws | src/gmail/pvbemmelen62/delaunay/dcel/Dcel.java:358-374 | f.edge becomes h, the cycle through h gets face f, and nothing else changes |
| Links.LinkEdgesAndFaceTriangle | src/gmail/pvbemmelen62/delaunay/dcel/Dcel.java:358-374 | on a 3-cycle it is exactly three face writes and the face's edge write |
| Legality.IsLegalCases | src/gmail/pvbemmelen62/delaunay/dcel/Dcel.java:49-98 | legal when a face has no node; IllegalState when both ends are sentinels or iLargest; without sentinels it is the negated in-circle test and fails unless v0 v1 v2 is clockwise; with a sentinel it is min(k, l) < min(i, j) |
| Legality.IsLegalAtSentinelIgnoresGeometry | src/gmail/pvbemmelen62/delaunay/dcel/Dcel.java:80-97 | with a sentinel corner the verdict does not depend on the geometric predicates and is never an in-circle failure |
| Legality.SwapIsConvexNeverNull | src/gmail/pvbemmelen62/delaunay/dcel/Dcel.java:109-287 | the `negVs[-v.index]` bookkeeping never leaves a null for the case analysis to use |
| Legality.SwapIsConvexErrors | src/gmail/pvbemmelen62/delaunay/dcel/Dcel.java:109-287 | both sentinels on the tested edge, or more than two sentinels, throw IllegalState |
| Legality.SwapIsConvexCases | src/gmail/pvbemmelen62/delaunay/dcel/Dcel.java:109-287 | without sentinels the quad is convex exactly when both v2 v0 v3 and v3 v1 v2 are clockwise; with both sentinels as apexes it is not convex |
| Legality.ConvexSeparatesApexes | src/gmail/pvbemmelen62/delaunay/dcel/Dcel.java:109-323 | a quad found convex has distinct apexes v2 and v3, which flip needs |
| Fans.Around | src/gmail/pvbemmelen62/delaunay/dcel/Dcel.java:411-427 | the iterator yields at least one half-edge, all in use and with the vertex as origin |
| Fans.AroundMeaning | src/gmail/pvbemmelen62/delaunay/dcel/Dcel.java:411-427 | the iterator yields the prev.twin orbit of v.edge up to and including v.edge, with no earlier return |
| Fans.FacesOfMeaning | src/gmail/pvbemmelen62/delaunay/dcel/Dcel.java:726-740 | every triangle in getFaces is some face's calcTriangle with distinct corners and a real point; the face at every vertex's edge is in it |
| Fans.FacesOfTriangle | src/gmail/pvbemmelen62/delaunay/dcel/Dcel.java:726-740 | a member of getFaces is a face's calcTriangle with distinct corners and at least one real point |
| Fans.FanTriangle | src/gmail/pvbemmelen62/delaunay/dcel/Dcel.java:730-737 | the triangle of any half-edge leaving a vertex is a face's calcTriangle |
| Fans.FacesOfVertex | src/gmail/pvbemmelen62/delaunay/dcel/Dcel.java:726-740 | the face at a present vertex's edge has a triangle, and that triangle is in getFaces |
| Surgery.SplitTriangleValid | src/gmail/pvbemmelen62/delaunay/dcel/Dcel.java:526-557 | splitting a live triangle at a new vertex keeps the mesh valid |
| Surgery.SplitTriangleFaces | src/gmail/pvbemmelen62/delaunay/dcel/Dcel.java:520-557 | the three new faces are {i0,i1,i3}, {i1,i2,i3}, {i2,i0,i3} in order, without data |
| Surgery.SplitTriangleVertices | src/gmail/pvbemmelen62/delaunay/dcel/Dcel.java:526-557 | after the split every vertex's edge is an in-use half-edge it is the origin of |
| Surgery.FlipValid | src/gmail/pvbemmelen62/delaunay/dcel/Dcel.java:294-323 | flipping an edge whose apexes differ keeps the mesh valid |
| Surgery.FlipFaces | src/gmail/pvbemmelen62/delaunay/dcel/Dcel.java:288-323 | flip adds h23 and its twin h32 from v2 and v3, and faces f032 and f123 without data; h23's face is a 3-cycle and old faces are kept |
| Surgery.FlipFaceTriangles | src/gmail/pvbemmelen62/delaunay/dcel/Dcel.java:288-323 | the new faces are {v0,v3,v2} and {v1,v2,v3} |
| Surgery.FlipVertices | src/gmail/pvbemmelen62/delaunay/dcel/Dcel.java:316-317 | after the repairs every vertex's edge is an in-use half-edge it is the origin of |
| Surgery.SplitTrianglesValid | src/gmail/pvbemmelen62/delaunay/dcel/Dcel.java:586-653 | the corrected split of two triangles at a new vertex on their edge keeps the mesh valid |
| Surgery.SplitTrianglesFaces | src/gmail/pvbemmelen62/delaunay/dcel/Dcel.java:586-653 | eight half-edges and four faces without data are added; h04, h41, h14 and h40 lie on the four new faces in order |
| Surgery.SplitTrianglesFaceTriangles | src/gmail/pvbemmelen62/delaunay/dcel/Dcel.java:586-600 | the new faces are {i0,i4,i2}, {i4,i1,i2}, {i1,i4,i3}, {i4,i0,i3} as the comment lists them |
| Surgery.SplitTrianglesVertices | src/gmail/pvbemmelen62/delaunay/dcel/Dcel.java:639-641 | after the repairs every vertex's edge is an in-use half-edge it is the origin of |
| DcelMesh.InitState | src/gmail/pvbemmelen62/delaunay/dcel/Dcel.java:492-519 | the top triangle has six half-edges and two faces over points.length vertex slots |
| DcelMesh.InitValid | src/gmail/pvbemmelen62/delaunay/dcel/Dcel.java:492-519 | the top triangle is a valid mesh whose only point vertex is iLargest |
| DcelMesh.InitFaces | src/gmail/pvbemmelen62/delaunay/dcel/Dcel.java:492-519 | its faces are {-2,iLargest,-1} and {-2,-1,iLargest}, and getHalfEdge(-2, iLargest) is h_2L on the first |
| DcelMesh.LocatedEdge | src/gmail/pvbemmelen62/delaunay/dcel/Dcel.java:559-570 | a located half-edge is in use and leads from i0 to i1; there is one exactly when getHalfEdge returns non-null |
| DcelMesh.SplitTriangleWrites | src/gmail/pvbemmelen62/delaunay/dcel/Dcel.java:527-550 | the statements up to v3.edge = h30 yield the relinked old records plus the six new ones |
| DcelMesh.SplitTrianglesWrites | src/gmail/pvbemmelen62/delaunay/dcel/Dcel.java:619-650 | the corrected statements, with the repairs and v4.edge, yield the four face cycles and then SplitTrianglesSpec |
| DcelMesh.Dcel.constructor | src/gmail/pvbemmelen62/delaunay/dcel/Dcel.java:492-519 | the new mesh is InitState and valid |
| DcelMesh.Dcel.NewHalfEdge | src/gmail/pvbemmelen62/delaunay/dcel/Dcel.java:24-28 | a new in-use record at the end of `edges`, whose index is returned |
| DcelMesh.Dcel.NewFace | src/gmail/pvbemmelen62/delaunay/dcel/Dcel.java:439-444 | a new face with null edge and data |
| DcelMesh.Dcel.NewVertex | src/gmail/pvbemmelen62/delaunay/dcel/Dcel.java:376-381 | a point vertex registers itself in vertices[index] |
| DcelMesh.Dcel.LinkTwins | src/gmail/pvbemmelen62/delaunay/dcel/Dcel.java:344-347 | the state becomes LinkTwinsOf of the old state |
| DcelMesh.Dcel.LinkPrevNext | src/gmail/pvbemmelen62/delaunay/dcel/Dcel.java:348-351 | the state becomes LinkPrevNextOf of the old state |
| DcelMesh.Dcel.LinkPrevNextTriangle | src/gmail/pvbemmelen62/delaunay/dcel/Dcel.java:352-357 | the state becomes LinkPrevNextTriangleOf of the old state |
| DcelMesh.Dcel.RepairVertexEdge | src/gmail/pvbemmelen62/delaunay/dcel/Dcel.java:406-410 | the state becomes Repair of the old state |
| DcelMesh.Dcel.RetireEdge | src/gmail/pvbemmelen62/delaunay/dcel/Dcel.java:320-321 | `inUse = false` on one record |
| DcelMesh.Dcel.SetData | src/gmail/pvbemmelen62/delaunay/DelaunayTriangulation.java:96-98 | `face.data = node` on one face |
| DcelMesh.Dcel.LinkEdgesAndFace | src/gmail/pvbemmelen62/delaunay/dcel/Dcel.java:358-374 | the state becomes LinkEdgesAndFaceOf of the old state |
| DcelMesh.Dcel.GetHalfEdge | src/gmail/pvbemmelen62/delaunay/dcel/Dcel.java:559-570 | the loop computes FindHalfEdge, whose meaning FindHalfEdgeMeaning states |
| DcelMesh.Dcel.EdgeIterator | src/gmail/pvbemmelen62/delaunay/dcel/Dcel.java:411-427 | the iteration from v.edge yields Around, whose meaning AroundMeaning states |
| DcelMesh.Dcel.CalcTriangle | src/gmail/pvbemmelen62/delaunay/dcel/Dcel.java:446-456 | the loop computes CalcTriangleOf, the canonical triple of the face's 3-cycle |
| DcelMesh.Dcel.CompareFaces | src/gmail/pvbemmelen62/delaunay/dcel/Dcel.java:457-469 | compareTo fails as calcTriangle does; otherwise it is the triangle order, 0 exactly for equal triangles (equals) |
| DcelMesh.Dcel.FaceHashCode | src/gmail/pvbemmelen62/delaunay/dcel/Dcel.java:470-473 | the face's hash is Triangle.hashCode of its triangle |
| DcelMesh.Dcel.CheckEdges | src/gmail/pvbemmelen62/delaunay/dcel/Dcel.java:656-662 | the loop passes exactly when every in-use half-edge has in-use twin, next and prev |
| DcelMesh.Dcel.GetFaces | src/gmail/pvbemmelen62/delaunay/dcel/Dcel.java:726-740 | the loops collect FacesOf, the triangles of the faces around every present vertex |
| DcelMesh.Dcel.SplitTriangle | src/gmail/pvbemmelen62/delaunay/dcel/Dcel.java:520-557 | a missing edge tri[0] to tri[1] fails and changes nothing; otherwise the state is SplitTriangleSpec, h30 is returned and the mesh stays valid |
| DcelMesh.Dcel.Flip | src/gmail/pvbemmelen62/delaunay/dcel/Dcel.java:288-323 | the state becomes FlipSpec and h23 is returned; the mesh stays valid when the apexes differ |
| DcelMesh.Dcel.SplitTriangles | src/gmail/pvbemmelen62/delaunay/dcel/Dcel.java:586-653 | corrected: failed corner lookups or a missing edge i0 to i1 change nothing; otherwise the state is SplitTrianglesSpec, h04 is returned and the mesh stays valid |
| AsWritten.LinkEdgesAndFaceRunAgrees | src/gmail/pvbemmelen62/delaunay/dcel/Dcel.java:358-374 | on a closed cycle the do-while as written is LinkEdgesAndFaceOf |
| AsWritten.SplitTrianglesAsWrittenFails | src/gmail/pvbemmelen62/delaunay/dcel/Dcel.java:619-646 | as written, h04.next is null, no cycle closes, and the first linkEdgesAndFace throws NullPointerException |
| AsWritten.ReadCornersFailsAtSentinel | src/gmail/pvbemmelen62/delaunay/dcel/Dcel.java:608-611 | as written, a sentinel corner makes `vertices[i]` throw, where getVertex would find the sentinel |
| History.PairChoice | src/gmail/pvbemmelen62/delaunay/PointLocationStructure.java:97-173 | the two-node test returns node0, node1 or both, and only for triangles sharing an edge |
| History.PairChoiceByOrientation | src/gmail/pvbemmelen62/delaunay/PointLocationStructure.java:162-172 | without a sentinel on the shared edge, orientation +1, -1 and 0 choose node1, node0 and both |
| History.PairChoiceAtSentinel | src/gmail/pvbemmelen62/delaunay/PointLocationStructure.java:104-161 | with a sentinel on the shared edge, geometry plays no part, the assertion fails exactly when p equals the other endpoint, and one node is chosen |
| History.ChildIndex | src/gmail/pvbemmelen62/delaunay/PointLocationStructure.java:83-94 | the first position of the child among the three children, or -1 |
| History.TallyCountsOccurrences | src/gmail/pvbemmelen62/delaunay/PointLocationStructure.java:45-50 | childCounts[k] is the number of times child k was found by the three pair tests |
| History.Matches | src/gmail/pvbemmelen62/delaunay/PointLocationStructure.java:67-82 | the ascending list of exactly the indices whose count equals `count` |
| History.MatchesBelowComplete | src/gmail/pvbemmelen62/delaunay/PointLocationStructure.java:76-80 | the prefix scan is ascending and misses no matching index |
| History.ChildIndices | src/gmail/pvbemmelen62/delaunay/PointLocationStructure.java:74-82 | the loop writes the matching indices in order to the front of `indices`, returns how many, and leaves the rest alone |
| History.CountedTwiceIsExact | src/gmail/pvbemmelen62/delaunay/PointLocationStructure.java:51-62 | the children chosen are exactly those found twice, without repetition |
| History.ContainingChildren | src/gmail/pvbemmelen62/delaunay/PointLocationStructure.java:34-66 | null exactly for a leaf; otherwise one or two of the node's children |
| History.ThreeChildrenCountedTwice | src/gmail/pvbemmelen62/delaunay/PointLocationStructure.java:41-62 | for three children, the chosen ones are exactly those counted twice over the three pair tests |
| History.DescentFinds | src/gmail/pvbemmelen62/delaunay/PointLocationStructure.java:191-221 | every leaf the breadth-first descent returns is reached from the top through containing children, and the list is non-empty and extends the leaves met so far |
| History.DescentErrors | src/gmail/pvbemmelen62/delaunay/PointLocationStructure.java:200-214 | an empty deque fails with IllegalState exactly when no leaf was met; a third leaf fails with IllegalState |
| History.SplitLeafSpecValid | src/gmail/pvbemmelen62/delaunay/PointLocationStructure.java:226-246 | the node gets three new leaf children; each carries the new point, and all other nodes are kept |
| History.SplitLeavesSpec | src/gmail/pvbemmelen62/delaunay/PointLocationStructure.java:261-280 | the two-leaf split succeeds exactly when the corners are found |
| History.SplitLeavesSpecValid | src/gmail/pvbemmelen62/delaunay/PointLocationStructure.java:247-280 | node0 gets children k, k+1 and node1 gets k+2, k+3, four new leaves carrying i4; other nodes are kept |
| History.SplitLeavesFromCorners | src/gmail/pvbemmelen62/delaunay/PointLocationStructure.java:262-279 | the split is the one built from the corners i0..i3, with children {i0,i4,i2}, {i4,i1,i2}, {i1,i4,i3}, {i4,i0,i3} |
| History.FlipLeavesValid | src/gmail/pvbemmelen62/delaunay/PointLocationStructure.java:281-288 | the flip's history stays a well-formed DAG of leaves and inner nodes |
| History.PointLocationStructure.constructor | src/gmail/pvbemmelen62/delaunay/PointLocationStructure.java:180-185 | a single top leaf with triangle {-2, iLargest, -1} |
| History.PointLocationStructure.FindContainingChildren | src/gmail/pvbemmelen62/delaunay/PointLocationStructure.java:34-66 | the method computes ContainingChildren |
| History.PointLocationStructure.FindContainingLeafNodes | src/gmail/pvbemmelen62/delaunay/PointLocationStructure.java:191-221 | the deque loop computes Descent from the top node; a success is one or two leaves each reached from the top |
| History.PointLocationStructure.SplitContainingLeafNode | src/gmail/pvbemmelen62/delaunay/PointLocationStructure.java:236-246 | the history becomes SplitLeafSpec: child i is canonical {tri[i], tri[(i+1)%3], pointIndex} |
| History.PointLocationStructure.SplitContainingLeafNodes | src/gmail/pvbemmelen62/delaunay/PointLocationStructure.java:261-280 | the history becomes SplitLeavesSpec when the corners are found; otherwise it fails and nothing changes |
| History.PointLocationStructure.FlipEdge | src/gmail/pvbemmelen62/delaunay/PointLocationStructure.java:281-288 | two new leaves with tri0 and tri1 become the children of both nodes and are returned |
| Delaunay.SwapPoints | src/gmail/pvbemmelen62/delaunay/DelaunayTriangulation.java:42-46 | entries i and j are exchanged and the multiset is kept |
| Delaunay.FindLargestPoint | src/gmail/pvbemmelen62/delaunay/DelaunayTriangulation.java:47-56 | the first index of a largest point under yThenXComparator, and 0 for an empty array |
| Delaunay.YThenXBelow | src/gmail/pvbemmelen62/delaunay/DelaunayTriangulation.java:51 | a point no larger than the current largest is below a new, larger one |
| Delaunay.FaceNode | src/gmail/pvbemmelen62/delaunay/DelaunayTriangulation.java:161-162 | `h.face.data` reads the node of h's face |
| Delaunay.HistoryGrowsTrans | src/gmail/pvbemmelen62/delaunay/PointLocationStructure.java:236-288 | the history only ever grows: nodes are appended and old triangles kept, across any number of steps |
| Delaunay.FlipKeepsVertices | src/gmail/pvbemmelen62/delaunay/dcel/Dcel.java:294-323 | a flip keeps the set of vertices |
| Delaunay.SplitTriangleAdds | src/gmail/pvbemmelen62/delaunay/DelaunayTriangulation.java:90-92 | splitTriangle adds exactly the new point as a vertex and keeps the mesh valid |
| Delaunay.SplitTrianglesAdds | src/gmail/pvbemmelen62/delaunay/DelaunayTriangulation.java:115-117 | the corrected splitTriangles adds exactly the new point as a vertex and keeps the mesh valid |
| Delaunay.SplitTrianglesAddsVertex | src/gmail/pvbemmelen62/delaunay/dcel/Dcel.java:612-641 | after the two-triangle split the new point is a vertex and all others are kept |
| Delaunay.SplitTriangleCorners | src/gmail/pvbemmelen62/delaunay/dcel/Dcel.java:520-557 | the three new faces' triangles are canonical {t0,t1,p}, {t1,t2,p}, {t2,t0,p} |
| Delaunay.SplitLeafLeaves | src/gmail/pvbemmelen62/delaunay/PointLocationStructure.java:226-246 | the three new leaves carry exactly those triangles |
| Delaunay.SplitLeafMatches | src/gmail/pvbemmelen62/delaunay/DelaunayTriangulation.java:90-98 | when the leaf's triangle is the located face, each new face's data is the leaf with that face's triangle |
| Delaunay.SplitTrianglesCorners | src/gmail/pvbemmelen62/delaunay/dcel/Dcel.java:586-600 | the four new faces' triangles are canonical {i0,i4,i2}, {i4,i1,i2}, {i1,i4,i3}, {i4,i0,i3} |
| Delaunay.SplitLeavesLeaves | src/gmail/pvbemmelen62/delaunay/PointLocationStructure.java:247-280 | the four new leaves carry exactly those triangles |
| Delaunay.SplitLeavesMatches | src/gmail/pvbemmelen62/delaunay/DelaunayTriangulation.java:115-124 | when the corners are the located quad, each of the four new faces' data is the leaf with that face's triangle |
| Delaunay.DataPairMatches | src/gmail/pvbemmelen62/delaunay/DelaunayTriangulation.java:160-171 | after flipEdge, each of the two new faces' data is the new leaf with that face's calcTriangle |
| Delaunay.FlipStepValid | src/gmail/pvbemmelen62/delaunay/DelaunayTriangulation.java:152-156 | a convex flip keeps mesh and history valid and the vertices, and adds two half-edges and two leaves |
| Delaunay.LegalizeOf | src/gmail/pvbemmelen62/delaunay/DelaunayTriangulation.java:139-159 | the recursive legalization keeps mesh and history valid |
| Delaunay.LegalizeOfGrows | src/gmail/pvbemmelen62/delaunay/DelaunayTriangulation.java:139-159 | legalization only appends to the history and keeps the vertices |
| Delaunay.LegalizeOfCases | src/gmail/pvbemmelen62/delaunay/DelaunayTriangulation.java:139-159 | nothing changes exactly when no flip happens, that is, the edge is missing, legal or not convex; a flip adds at least two half-edges and two leaves; without a flip it fails exactly when getHalfEdge, isLegal or swapIsConvex throws |
| Delaunay.DelaunayTriangulation.constructor | src/gmail/pvbemmelen62/delaunay/DelaunayTriangulation.java:76-79 | the start state: the top triangle, the single top leaf, and that leaf as the data of the face of getHalfEdge(-2, 0) |
| Delaunay.DelaunayTriangulation.Create | src/gmail/pvbemmelen62/delaunay/DelaunayTriangulation.java:63-68 | AssertionFailed when some point is larger than points[0], IndexOutOfBounds for an empty array; on success points[0] is largest and every point is a vertex |
| Delaunay.DelaunayTriangulation.Triangulate | src/gmail/pvbemmelen62/delaunay/DelaunayTriangulation.java:72-135 | the state stays valid, the history only grows, and when the loop completes every point is a vertex of the mesh |
| Delaunay.DelaunayTriangulation.InsertPoint | src/gmail/pvbemmelen62/delaunay/DelaunayTriangulation.java:81-106 | one loop iteration adds the point as a vertex when it passes, and otherwise adds it or keeps the vertices |
| Delaunay.DelaunayTriangulation.InsertInLeaf | src/gmail/pvbemmelen62/delaunay/DelaunayTriangulation.java:83-105 | split then legalize i0 i1, i1 i2, i2 i0, stopping at the first failure; a pass adds the point as a vertex |
| Delaunay.DelaunayTriangulation.InsertOnEdge | src/gmail/pvbemmelen62/delaunay/DelaunayTriangulation.java:106-133 | corners, split, then legalize i2 i0, i1 i2, i3 i1, i0 i3; a pass adds the point as a vertex |
| Delaunay.DelaunayTriangulation.SplitLeaf | src/gmail/pvbemmelen62/delaunay/DelaunayTriangulation.java:84-98 | the history is SplitLeafSpec; a missing edge fails and keeps the mesh; otherwise the mesh is SplitTriangleSpec with the three children as data of the three new faces in order |
| Delaunay.DelaunayTriangulation.SplitLeaves | src/gmail/pvbemmelen62/delaunay/DelaunayTriangulation.java:107-124 | the history gets the four children; a missing edge fails and keeps the mesh; otherwise the mesh is the corrected SplitTrianglesSpec with the children as data of h04, h41, h14 and h40's faces |
| Delaunay.DelaunayTriangulation.LegalizeEdge | src/gmail/pvbemmelen62/delaunay/DelaunayTriangulation.java:139-159 | the outcome, mesh and history are exactly those of LegalizeOf |
| Delaunay.DelaunayTriangulation.FlipAndLegalize | src/gmail/pvbemmelen62/delaunay/DelaunayTriangulation.java:152-158 | the outcome, mesh and history are those of FlipAndLegalizeOf: flip, then legalize ie0 iOpposite and iOpposite ie1 |
| Delaunay.DelaunayTriangulation.LegalizeTwo | src/gmail/pvbemmelen62/delaunay/DelaunayTriangulation.java:157-158 | the two recursive calls, the second skipped after a failure, as LegalizeTwoOf |
| Delaunay.DelaunayTriangulation.OppositeCorner | src/gmail/pvbemmelen62/delaunay/DelaunayTriangulation.java:152 | h.twin.prev.origin is the apex v3 across h, distinct from v2 |
| Delaunay.DelaunayTriangulation.FlipChecked | src/gmail/pvbemmelen62/delaunay/DelaunayTriangulation.java:153-156 | after the flip both assertions hold, and mesh and history are FlipEdgeMesh and FlipHistory |
| Delaunay.DelaunayTriangulation.FlipEdge | src/gmail/pvbemmelen62/delaunay/DelaunayTriangulation.java:160-171 | the flip succeeds exactly when both faces have a node; hNew runs from v2 to v3; the history gets two leaves with the new faces' triangles as data; a missing node throws after the flip |

## Left out

- DcelMesh.Dcel.SplitTriangles: models the corrected `splitTriangles`. The
  corners are read through `getVertex`, and the eight new half-edges are
  linked into four triangles. As written, the method throws; see "Findings".
  The driver's two-leaf branch (Delaunay.DelaunayTriangulation.SplitLeaves,
  SplitTrianglesOf) runs this corrected version, so the model's Create can
  succeed on inputs where the Java constructor throws.
- DcelMesh.Dcel.SplitTriangles: also looks up h01 before `new Vertex(i4)`,
  where Dcel.java:612-613 does the reverse. The lookup reads only the vertex
  of i0, and i0 is never i4, because i4 is not yet a vertex. The result is
  therefore the same.
- Delaunay.DelaunayTriangulation.Triangulate: passes iLargest = 0 to the
  PointLocationStructure and Dcel constructors, and `points[pointIndex]` to
  findContainingLeafNodes. DelaunayTriangulation.java:76-77 and 82 call them
  with signatures the classes do not declare; the model uses the evident
  intent.
- Delaunay.DelaunayTriangulation.Triangulate: its invariant keeps mesh
  validity, history validity and face data in range. It does not keep "every
  face's data is the leaf with that face's triangle". That global match needs
  getHalfEdge to land on the face of the leaf that findContainingLeafNodes
  located. This holds only for planar geometry, and the orientation test here
  is an uninterpreted parameter. The match is proved per step:
  SplitLeafMatches, SplitLeavesMatches and DataPairMatches.
- Points.Geometry.Sound: the one assumption on the geometric parameters, that
  orient(a, b, a) == 0. Triangle.getOrientation yields exactly 0.0 for it,
  since (b-a) x (a-b) = dx*(-dy) - dy*(-dx). Every other use of
  `getOrientation` and `Circle.inCircle` is an uninterpreted parameter, so no
  floating-point arithmetic is modelled.
- Delaunay.DelaunayTriangulation.LegalizeEdge: takes a `fuel` bound on the
  recursion. After a flip it fails with OutOfFuel when the fuel is spent;
  legalizeEdge itself recurses without bound. The same holds for
  FlipAndLegalize, LegalizeRest, LegalizeTwo and the function LegalizeOf.
- Delaunay.DelaunayTriangulation.Create: `draw(i)` stands for
  `random.nextInt(i + 1)` of `new Random(0)`, as in Util.Permutation,
  Util.PermutationRange and Util.Shuffle. The contracts hold for every draw in
  0..i, not only for the seeded sequence.
- Triangles.ToCanonical: requires some corner below Integer.MAX_VALUE. For a
  triangle of three MAX_VALUE corners, indexOfMinimum returns -1 and
  `Util.rotateInPlace` throws; no triangle of the mesh has such corners.
- Util.ArrayListIncr: requires an in-range index. Java's `numbers.get`
  throws IndexOutOfBoundsException otherwise; nothing in the core calls it.
- Triangles.HashCode: the hash is defined only for corners in Integer range;
  Triangles.HashCodeRespectsComparator states its properties.
- DcelMesh.Dcel.GetFaces: returns the set of the faces' triangles, not a
  `TreeSet<Face>`. Faces in that set are equal exactly when compareTo gives 0,
  that is, when their triangles are equal.
- Object identity: half-edges, faces, vertices and history nodes are arena
  indices. Reference comparisons (`h == h0`, `children[0] == child`) become
  index comparisons, and `null` becomes -1 or None.
- The `index` debugging field, `toString`, `toStringShort`, `dumbString`,
  `printEdges`, `writeToFile`, `writePointsAndLines` and
  `writePointsAndTriangles` are left out: they only print or write files.
  `Dcel.getVector` and `Point` arithmetic serve only the floating-point tests.
- `Util.equalsApprox` and `Util.sqr` are floating-point helpers for
  plotting. `Util.array2D`, `fillArray2D`, `array3D` and `fillArray3D` are
  unused by the core. `Util.copy` builds a deep copy, returns the original
  array, and is unused. All of these are left out. So are the determinant
  helpers of `Circle`, which sit behind the inCircle parameter. `MyRect`,
  `PlotDebug` and the JUnit tests are not part of this model.
- `Util.myAssert` is the `Need` helper: a failed assertion is the
  AssertionFailed error, not a thrown AssertionError.

## Findings

| source | as written | input that shows it | evidently intended | confidence | as-written member | corrected member |
|---|---|---|---|---|---|---|
| src/gmail/pvbemmelen62/delaunay/dcel/Dcel.java:601-653 | `splitTriangles` creates the eight half-edges h04 … h43 but never links their `next`/`prev`. The first `linkEdgesAndFace(h04, f042)` then follows a null `next` (line 646). Before that, `vertices[i0..i3]` (lines 608-611) throws for a sentinel corner | any point that findContainingLeafNodes places on an edge shared by two leaves, so that the two-leaf branch runs; for example a shared edge with corner -2 fails already at the reads | read the corners with getVertex, and link the four new triangles with linkPrevNextTriangle as the comment (lines 586-600) lists them: {i0,i4,i2}, {i4,i1,i2}, {i1,i4,i3}, {i4,i0,i3} | high, not executed | AsWritten.SplitTrianglesAsWrittenFails | DcelMesh.Dcel.SplitTriangles |
