# STL viewer geometry core in Dafny

A model of the geometry layer of a Java STL viewer (package `org.ea`): the
vector, vertex and edge value types with their equality and hash rules; the
polygon, triangle, polyline and polyhedron constructors with their validation;
the `GeometryUtils` helpers; the triangle factory that turns twelve-float groups
into triangles and runs as a queue worker; the polyhedron factory that sums
areas and signed volumes; the mesh factory that builds the index arrays of a
triangle mesh; the controller's sorted copy of the surfaces; and the
nanosecond stopwatch `Timer`.

Coordinates are exact reals. `Math.sqrt` and `Math.acos` are parameters of the
functions that use them. A property that needs a real square root takes the
ghost hypothesis `IsSqrt(sqrt)`. A Java `null` is an `Option`. An exception,
or the `System.exit` that follows a caught one, is the `Failure` of a
`Result`. Hash codes are 32-bit vectors with Java's `int` wrap-around. Queues
are finite sequences of `take()` outcomes, and the clock is a parameter of
every `Timer` operation that reads it.

Equality of vertices and of undirected edges is expressed through a key:
`Vertices.Key` for vertices, and `Edges.UndirectedKey` (the multiset of the
two endpoints) for edges. Two elements are equal exactly when their keys are.
`GeometryUtils.RemoveDuplicates` and `GeometryUtils.Count` take the key
function as a parameter. They therefore stand for both `LinkedHashSet`/`distinct()`
de-duplication and `groupingBy(..., counting())`, whichever equality the
element class defines.

Modules, one per file: `Wrappers`, `Vectors`, `Vertices`, `Edges`, `Objects`,
`Polygons`, `GeometryUtils`, `Triangles`, `Polylines`, `Polyhedra`,
`TriangleFactory`, `PolyhedronFactory`, `MeshFactory`, `PolyhedronController`,
`Timer`.

## Model

| member | source | states |
|---|---|---|
| Vectors.AddLaws | src/main/java/org/ea/model/DefaultVector.java:35-58 | `add` and `subtract` undo each other in both orders; the sum is commutative, has the zero vector as identity and the negation as inverse |
| Vectors.Subtract | src/main/java/org/ea/model/DefaultVector.java:52-58 | `a.subtract(b)` is the vector that carries `a` to `b` (receiver subtracted from argument): adding it to `a` gives `b` |
| Vectors.LengthSquared | src/main/java/org/ea/model/Vector.java:51-57 | the sum of squared coordinates is never negative |
| Vectors.Length | src/main/java/org/ea/model/Vector.java:51-57 | with a true square root the length is non-negative and squares to the sum of squared coordinates |
| Vectors.Clamp | src/main/java/org/ea/model/Vector.java:72-73 | the cosine is clamped into [-1, 1]: unchanged inside, -1 below, 1 above |
| Vectors.AngleBetween | src/main/java/org/ea/model/Vector.java:67-75 | the angle is `acos` of some value in [-1, 1], and exactly `acos` of the cosine whenever the cosine already lies in [-1, 1] |
| Vectors.DotSymmetric | src/main/java/org/ea/model/Vector.java:85-87 | the dot product is symmetric |
| Vectors.DotSelfIsLengthSquared | src/main/java/org/ea/model/Vector.java:85-87 | a vector dotted with itself is its squared length |
| Vectors.Multiply | src/main/java/org/ea/model/DefaultVector.java:69-75 | the components of the component-wise product add up to the dot product, and a zero operand gives the zero vector |
| Vectors.MultiplyCommutative | src/main/java/org/ea/model/DefaultVector.java:69-75 | the component-wise product does not depend on operand order |
| Vectors.SubtractIsReversedDifference | src/main/java/org/ea/model/DefaultVector.java:52-58 | `a.subtract(b)` is `b + (-a)`, and a vector minus itself is zero |
| Vectors.CrossAntisymmetric | src/main/java/org/ea/model/DefaultVector.java:122-127 | swapping the operands of the cross product negates it; a vector crossed with itself is zero |
| Vectors.CrossPerpendicular | src/main/java/org/ea/model/DefaultVector3D.java:45-50 | the cross product is orthogonal to both operands |
| Vectors.Lagrange | src/main/java/org/ea/model/DefaultVector.java:122-127 | Lagrange's identity: the squared cross product is the product of squared lengths minus the squared dot product |
| Vectors.CosineBound | src/main/java/org/ea/model/Vector.java:67-75 | a dot product bounded in absolute value by the product of the lengths gives a cosine in [-1, 1] |
| Vectors.ClampIsExactWithTrueSqrt | src/main/java/org/ea/model/Vector3D.java:13-30 | with a true square root the cosine of two non-zero vectors already lies in [-1, 1] (Cauchy-Schwarz), so the clamp never changes the angle |
| Vertices.Equals3D | src/main/java/org/ea/model/Vertex3D.java:12-14 | two vertices compare equal exactly when they are the same point |
| Vertices.Equals | src/main/java/org/ea/model/Vertex.java:50-53 | a vertex equals the argument exactly when the argument is present and is that same point; `null` is unequal |
| Vertices.Equals3DIsValueEquality | src/main/java/org/ea/model/Vertex3D.java:12-14 | comparing the three coordinates is the same as comparing the vertices |
| Vertices.HierarchiesAgree | src/main/java/org/ea/model/Vertex.java:50-53 | a missing argument is unequal; a present one is equal exactly when `Vertex3D.equals` says so, that is, when it is the same point |
| Vertices.EqualityIsEquivalence | src/main/java/org/ea/model/Vertex3D.java:12-14 | vertex equality is reflexive, symmetric and transitive |
| Vertices.Equals3DIsKeyEquality | src/main/java/org/ea/model/Vertex3D.java:12-14 | two vertices are equal exactly when their keys are |
| Vertices.Subtract | src/main/java/org/ea/model/DefaultVertex.java:73-78 | `a.subtract(other)` points from `other` to `a`: translating `other` by it gives `a`, and it is zero exactly when the points coincide |
| Vertices.Times31 | src/main/java/org/ea/model/DefaultVertex.java:89-91 | the shift-and-subtract step of `Objects.hash` is multiplication by 31 with `int` wrap-around |
| Vertices.HashConsistentWithEquals | src/main/java/org/ea/model/DefaultVertex.java:89-91 | `Objects.hash(x, y, z)` agrees on equal vertices, whatever `Float.hashCode` is |
| Edges.Direction | src/main/java/org/ea/model/DefaultEdge.java:55-57 | the direction leads from the end back to the start: translating the end by it gives the start |
| Edges.EdgeLength | src/main/java/org/ea/model/DefaultEdge.java:67-69 | with a true square root an edge's length is never negative |
| Edges.Equals | src/main/java/org/ea/model/Edge3D.java:52-56 | an edge equals the argument exactly when the argument is present and is the same edge or its reverse |
| Edges.UndirectedCharacterization | src/main/java/org/ea/model/Edge3D.java:52-56 | two edges are equal exactly when one is the other or its reverse; a missing argument is unequal |
| Edges.UndirectedIgnoresDirection | src/main/java/org/ea/model/Edge3D.java:52-56 | an edge equals its reverse, whose direction is the negated direction |
| Edges.UndirectedIsEquivalence | src/main/java/org/ea/model/Edge3D.java:52-56 | undirected edge equality is reflexive, symmetric and transitive |
| Edges.UndirectedIsKeyEquality | src/main/java/org/ea/model/Edge3D.java:52-56 | two edges are equal exactly when they have the same multiset of endpoints |
| Edges.Hash | src/main/java/org/ea/model/DefaultEdge.java:79-82 | the hash combines the endpoint hashes in either order, and an edge from a point to itself hashes to 0 |
| Edges.HashSymmetric | src/main/java/org/ea/model/DefaultEdge.java:79-82 | the XOR of the endpoint hashes does not depend on the edge's direction |
| Edges.HashConsistentWithEquals | src/main/java/org/ea/model/DefaultEdge3D.java:36-39 | equal edges hash equally, as hash-based grouping and de-duplication require |
| Objects.VertexEqualsObject | src/main/java/org/ea/model/DefaultVertex.java:102-106 | a vertex object of the same interface with the same coordinates is equal; a non-vertex object that is not the receiver is not |
| Objects.VertexEqualsObjectIsValueEquality | src/main/java/org/ea/model/DefaultVertex.java:102-106 | a vertex object equals exactly the vertex objects of its own interface with the same coordinates; the identity shortcut never disagrees |
| Objects.HierarchiesDoNotMix | src/main/java/org/ea/model/DefaultVertex3D.java:46-51 | a `Vertex` and a `Vertex3D` with the same coordinates are not equal, in either direction |
| Objects.EdgeEqualsObject | src/main/java/org/ea/model/DefaultEdge.java:94-98 | an edge object with the same endpoints in either order is equal; a non-edge object that is not the receiver is not |
| Objects.EdgeEqualsObjectIsUndirectedEquality | src/main/java/org/ea/model/DefaultEdge.java:94-98 | an edge object equals exactly the edge objects with the same endpoints in either order |
| Polygons.CheckConnectivity | src/main/java/org/ea/model/AbstractPolygon.java:18-25 | the loop accepts exactly the edge lists in which every edge ends where the next starts, the last wrapping round to the first |
| Polygons.Validate | src/main/java/org/ea/model/Polygon.java:10-24 | validation succeeds exactly for closed chains of at least three edges; fewer than three edges is reported first, a broken chain second |
| Polygons.NewAbstractPolygon | src/main/java/org/ea/model/AbstractPolygon.java:13-27 | succeeds exactly when validation does, with its error otherwise; keeps the edges and leaves the vertex list null |
| Polygons.NewPolygon | src/main/java/org/ea/model/Polygon.java:10-24 | the same outcome and errors as validation; keeps the edges and starts with an empty vertex list |
| Polygons.BuiltPolygonsAreClosed | src/main/java/org/ea/model/AbstractPolygon.java:14-25 | a polygon from either constructor has at least three edges, each ending where the next begins |
| GeometryUtils.RemoveDuplicates | src/main/java/org/ea/utiltities/GeometryUtils.java:41-44 | the result is no longer than the input, draws every element from it and holds no two equal elements |
| GeometryUtils.RemoveDuplicatesCovers | src/main/java/org/ea/utiltities/GeometryUtils.java:41-44 | every input element has an equal element in the result |
| GeometryUtils.RemoveDuplicatesKeepsFirstOccurrences | src/main/java/org/ea/utiltities/GeometryUtils.java:41-44 | the result is exactly the first occurrence of each equality class, in input order (`LinkedHashSet` insertion order) |
| GeometryUtils.FirstOccurrencesAppendSeen | src/main/java/org/ea/utiltities/GeometryUtils.java:42 | appending an element already present leaves the first occurrences unchanged |
| GeometryUtils.FirstOccurrencesAppendNew | src/main/java/org/ea/utiltities/GeometryUtils.java:42 | appending a new element appends it to the first occurrences |
| GeometryUtils.RemoveDuplicatesFixesDuplicateFree | src/main/java/org/ea/utiltities/GeometryUtils.java:46-48 | a duplicate-free input comes back unchanged |
| GeometryUtils.RemoveDuplicatesIdempotent | src/main/java/org/ea/utiltities/GeometryUtils.java:41-44 | de-duplicating twice is de-duplicating once |
| GeometryUtils.Count | src/main/java/org/ea/model/Polyhedron.java:18-22 | the size of an element's group never exceeds the list's length |
| GeometryUtils.CountPositive | src/main/java/org/ea/model/Polyhedron.java:18-22 | every element of the list is in a group of at least one |
| GeometryUtils.CountAppend | src/main/java/org/ea/model/Polyhedron.java:15-22 | group sizes of a concatenation are the sums of the parts' group sizes |
| GeometryUtils.CountOnceWithoutDuplicates | src/main/java/org/ea/model/Polyhedron.java:18-22 | in a duplicate-free list every group has exactly one member |
| GeometryUtils.CountAbsent | src/main/java/org/ea/model/Polyhedron.java:18-22 | an element with no equal in the list has a group of zero |
| GeometryUtils.FlattenMembership | src/main/java/org/ea/utiltities/GeometryUtils.java:33-39 | an element is in the concatenation of the lists exactly when it is in one of them |
| GeometryUtils.FlattenMembershipAll | src/main/java/org/ea/utiltities/GeometryUtils.java:33-39 | the same, for all elements at once |
| GeometryUtils.FlattenSingleton | src/main/java/org/ea/utiltities/GeometryUtils.java:33-39 | concatenating a single list gives that list |
| GeometryUtils.FlattenAppend | src/main/java/org/ea/utiltities/GeometryUtils.java:33-39 | concatenation distributes over appending lists of lists |
| GeometryUtils.CreateEdgesFromVertices | src/main/java/org/ea/utiltities/GeometryUtils.java:50-66 | a null array or one of fewer than two vertices gives no edges; otherwise one edge per vertex, edge `i` running from vertex `i` to vertex `i + 1`, the last one back to vertex 0 |
| GeometryUtils.EdgeRingIsClosedPolygon | src/main/java/org/ea/utiltities/GeometryUtils.java:55-63 | the edge ring closes up, its starts give back the vertices, and from three vertices on it is accepted by the polygon constructor |
| GeometryUtils.RingEdgesWrap | src/main/java/org/ea/utiltities/GeometryUtils.java:58-63 | the consecutive edges and the closing edge together are `vs[i]` to `vs[(i + 1) mod n]` for every `i` |
| GeometryUtils.CollectVerticesFromEdges | src/main/java/org/ea/utiltities/GeometryUtils.java:16-23 | twice as many vertices as edges: the start then the end of each edge, in edge order |
| GeometryUtils.CollectEdgesFromSurfaces | src/main/java/org/ea/utiltities/GeometryUtils.java:33-39 | an edge is collected exactly when some surface has it; one surface gives its own edge list |
| GeometryUtils.CollectEdgesFromSurfacesAppend | src/main/java/org/ea/utiltities/GeometryUtils.java:33-39 | collecting from two batches of surfaces is collecting from each and concatenating |
| GeometryUtils.CollectVerticesFromSurfaces | src/main/java/org/ea/utiltities/GeometryUtils.java:25-31 | fails with the null-list error exactly when some surface has no vertex list; otherwise a vertex is collected exactly when some surface lists it, and one surface gives its own list |
| GeometryUtils.CollectVerticesFromSurfacesAppend | src/main/java/org/ea/utiltities/GeometryUtils.java:25-31 | two batches succeed together exactly when each does, and then the result is the concatenation |
| Triangles.AreaFromEdges | src/main/java/org/ea/model/Triangle.java:32-45 | with a true square root the area is non-negative and four times its square is the squared length of the cross product of the first two directions |
| Triangles.PerimeterFromEdges | src/main/java/org/ea/model/Triangle.java:47-50 | with a true square root the perimeter is never negative |
| Triangles.MeasuresIgnoreOrientation | src/main/java/org/ea/model/Triangle.java:32-50 | walking a closed triangle the other way round (the reversed edges, last first) changes neither the area nor the perimeter |
| Triangles.ReversedPairArea | src/main/java/org/ea/model/Triangle.java:32-45 | reversing both edges and swapping them gives the same area |
| Triangles.AreaIndependentOfStartingEdge | src/main/java/org/ea/model/Triangle.java:32-45 | in a closed triangle any two consecutive edges give the same area |
| Triangles.NewTriangleAsWritten | src/main/java/org/ea/model/Triangle.java:15-29 | as written the constructor never succeeds: the polygon errors come first, then a size other than three, and every valid ring of three ends on the null vertex list |
| Triangles.AsWrittenRejectsAValidTriangle | src/main/java/org/ea/model/Triangle.java:26 | the right triangle (0,0,0), (1,0,0), (0,1,0) passes polygon validation yet the constructor as written fails on it |
| Triangles.NewTriangle | src/main/java/org/ea/model/Triangle.java:15-29 | succeeds exactly for closed rings of three edges, with the same error precedence; the vertex list holds the three edge ends and the measures are stored as given |
| Triangles.CorrectedAcceptsWhatAsWrittenDrops | src/main/java/org/ea/model/Triangle.java:15-29 | the corrected constructor accepts exactly the inputs the as-written one loses to the null list, and otherwise fails with the same error |
| Triangles.Area | src/main/java/org/ea/model/Triangle.java:32-45 | with a true square root the area of a valid triangle is never negative |
| Triangles.Perimeter | src/main/java/org/ea/model/Triangle.java:47-50 | with a true square root the perimeter of a valid triangle is never negative |
| Triangles.ConstructedTrianglesAreValid | src/main/java/org/ea/model/Triangle.java:15-29 | every constructed triangle is a valid ring, and each edge starts at the vertex recorded for the previous edge |
| Polylines.AreEdgesConnected | src/main/java/org/ea/model/Polyline.java:40-49 | the loop accepts exactly the edge lists in which each edge ends where the next starts, with no wrap-around |
| Polylines.NewPolyline | src/main/java/org/ea/model/Polyline.java:21-30 | succeeds exactly for open chains and reports the broken chain otherwise; keeps the edges and holds duplicate-free vertices, each an endpoint of some edge |
| Polylines.EndpointsCollected | src/main/java/org/ea/utiltities/GeometryUtils.java:16-23 | every collected vertex is an endpoint of some edge |
| Polylines.PolylineVerticesAreFirstOccurrences | src/main/java/org/ea/model/Polyline.java:26-29 | the vertices are the first occurrences of the collected endpoints, and every endpoint of every edge is among them |
| Polylines.PathEdges | src/main/java/org/ea/model/Polyline.java:40-49 | the path through `n` points has `n - 1` edges, edge `i` joining point `i` to point `i + 1` |
| Polylines.PathRoundTrip | src/main/java/org/ea/model/Polyline.java:21-30 | round trip: the polyline of the path through distinct points is accepted and gives back exactly those points |
| Polylines.PathFirstOccurrences | src/main/java/org/ea/model/Polyline.java:26-29 | de-duplicating the endpoints of a path through distinct points gives the points in order |
| Polylines.PathExtends | src/main/java/org/ea/model/Polyline.java:26-29 | extending a path by one new point extends its first occurrences by that point |
| Polylines.LastVertexIsNew | src/main/java/org/ea/utiltities/GeometryUtils.java:16-23 | the last point of a path through distinct points does not occur earlier among the collected endpoints |
| Polylines.CollectVerticesAppend | src/main/java/org/ea/utiltities/GeometryUtils.java:18-21 | one more edge adds its start and its end to the collected vertices |
| Polylines.CollectedIsEarlierVertex | src/main/java/org/ea/utiltities/GeometryUtils.java:16-23 | every collected endpoint but the last differs from the path's last point |
| Polyhedra.NewPolyhedron | src/main/java/org/ea/model/Polyhedron.java:13-36 | succeeds exactly when every collected edge has a group of at least two; then the edges are duplicate-free, cover every surface edge, and each comes from a group of two or more; the surface and vertex lists stay empty; no surfaces give the empty polyhedron |
| Polyhedra.SurfaceEdgesCovered | src/main/java/org/ea/model/Polyhedron.java:15-31 | every edge of every surface has an equal one among the de-duplicated edges |
| Polyhedra.PolyhedronEdgesAreFirstOccurrences | src/main/java/org/ea/model/Polyhedron.java:31 | the stored edges are the first occurrence of each group, in surface order |
| Polyhedra.SingleSurfaceIsRejected | src/main/java/org/ea/model/Polyhedron.java:24-28 | one surface with pairwise distinct edges is open and rejected |
| Polyhedra.DoubledSurfacesAreAccepted | src/main/java/org/ea/model/Polyhedron.java:24-28 | the check only counts: any surface list given twice passes it |
| Polyhedra.DoubledEdgesAreShared | src/main/java/org/ea/model/Polyhedron.java:18-28 | every edge of a list followed by itself has a group of at least two |
| TriangleFactory.CalculateArea | src/main/java/org/ea/utiltities/TriangleFactory.java:125-131 | with a true square root the area is non-negative; for a closed ring it equals the area from the second and third edges |
| TriangleFactory.ClosedRingArea | src/main/java/org/ea/utiltities/TriangleFactory.java:125-131 | in a closed ring of three, the first two edges and the last two give the same area |
| TriangleFactory.CalculatePerimeter | src/main/java/org/ea/utiltities/TriangleFactory.java:142-146 | with a true square root the perimeter is non-negative, and it is the triangle perimeter of the three edges |
| TriangleFactory.RingOfThree | src/main/java/org/ea/utiltities/GeometryUtils.java:50-66 | three points give the ring A to B, B to C, C to A, which is closed |
| TriangleFactory.BuildTriangle | src/main/java/org/ea/utiltities/TriangleFactory.java:84-103 | floats 0-2 are the normal and floats 3-11 the starts of the three edges; the triangle is valid and carries an area and a perimeter |
| TriangleFactory.BuildTriangleIsConstructed | src/main/java/org/ea/utiltities/TriangleFactory.java:94-97 | the edge ring of the three points always passes the triangle constructor, so the exit path is never taken |
| TriangleFactory.BuildTriangleMeasures | src/main/java/org/ea/utiltities/TriangleFactory.java:97 | the stored area and perimeter are the triangle's own, and non-negative with a true square root |
| TriangleFactory.PointRoundTrip | src/main/java/org/ea/utiltities/TriangleFactory.java:91 | the three floats read as a point give back those floats |
| TriangleFactory.BuildTriangleRoundTrip | src/main/java/org/ea/utiltities/TriangleFactory.java:84-103 | round trip: a built triangle's normal and edge starts give back exactly the twelve floats |
| TriangleFactory.BuildTriangles | src/main/java/org/ea/utiltities/TriangleFactory.java:59-73 | one triangle per group of twelve, triangle `k` built from floats `12k` to `12k + 11`; all are valid with normal and area, and reading them back gives the data |
| TriangleFactory.GroupAppend | src/main/java/org/ea/utiltities/TriangleFactory.java:64-68 | building the next group keeps every earlier triangle tied to its own group |
| TriangleFactory.BuildStep | src/main/java/org/ea/utiltities/TriangleFactory.java:64-68 | the triangle built from the next group extends the encoding by exactly that group |
| TriangleFactory.EncodedAppend | src/main/java/org/ea/utiltities/TriangleFactory.java:67 | appending a triangle appends its twelve floats to the encoding |
| TriangleFactory.SentinelTriangle | src/main/java/org/ea/utiltities/TriangleFactory.java:178-184 | the sentinel is a valid ring with normal (2, 2, 2) and neither area nor perimeter |
| TriangleFactory.GroupsBeforeStop | src/main/java/org/ea/utiltities/TriangleFactory.java:161-176 | the groups are the float lists delivered, in order, before the first poison pill or interruption |
| TriangleFactory.Run | src/main/java/org/ea/utiltities/TriangleFactory.java:156-189 | no queue, nothing done; otherwise triangle `k` is built from group `k` for every group delivered; the worker finishes exactly when a poison pill or an interruption arrives, and only then pushes the sentinel after its triangles; a queue that runs dry leaves it waiting with no sentinel |
| TriangleFactory.NoStopInDelivered | src/main/java/org/ea/utiltities/TriangleFactory.java:161-176 | when every outcome was a delivered group, none of them was a poison pill or an interruption |
| TriangleFactory.GroupsStopAt | src/main/java/org/ea/utiltities/TriangleFactory.java:164-166 | a poison pill or an interruption ends the groups at its position |
| TriangleFactory.GroupsContinueAt | src/main/java/org/ea/utiltities/TriangleFactory.java:163-170 | a delivered float list is the next group, of twelve values |
| TriangleFactory.OnlyTheSentinelLacksAnArea | src/main/java/org/ea/utiltities/TriangleFactory.java:167-184 | of everything pushed, only the last triangle lacks an area |
| PolyhedronFactory.BuiltTrianglesAreMeasured | src/main/java/org/ea/utiltities/TriangleFactory.java:84-103 | every triangle built from twelve floats has three vertices and an area |
| PolyhedronFactory.BuiltBatchIsMeasured | src/main/java/org/ea/utiltities/TriangleFactory.java:59-73 | every triangle the batch builder makes has three vertices and an area, so the polyhedron factory can measure the batch |
| PolyhedronFactory.CalculateArea | src/main/java/org/ea/utiltities/PolyhedronFactory.java:105-111 | no triangles, area 0; non-negative areas give a non-negative total |
| PolyhedronFactory.TotalAreaNonNegative | src/main/java/org/ea/utiltities/PolyhedronFactory.java:105-111 | non-negative triangle areas sum to a non-negative total |
| PolyhedronFactory.CalculateAreaAppend | src/main/java/org/ea/utiltities/PolyhedronFactory.java:105-111 | the total of two batches is the sum of their totals |
| PolyhedronFactory.CalculateVolume | src/main/java/org/ea/utiltities/PolyhedronFactory.java:85-94 | the volume is the absolute value of the summed signed volumes |
| PolyhedronFactory.SignedVolume | src/main/java/org/ea/utiltities/PolyhedronFactory.java:88-91 | a face with two coincident corners, or a corner at the origin, contributes no volume |
| PolyhedronFactory.SwapNegatesSignedVolume | src/main/java/org/ea/utiltities/PolyhedronFactory.java:88-91 | swapping two vertices of a face negates its signed volume |
| PolyhedronFactory.RotationKeepsSignedVolume | src/main/java/org/ea/utiltities/PolyhedronFactory.java:88-91 | rotating a face's vertices keeps its signed volume |
| PolyhedronFactory.Rewound | src/main/java/org/ea/utiltities/PolyhedronFactory.java:88-90 | a rewound triangle still has three vertices and an area |
| PolyhedronFactory.RewindingKeepsVolume | src/main/java/org/ea/utiltities/PolyhedronFactory.java:85-94 | reversing the winding of every face negates the signed sum and leaves the volume unchanged |
| PolyhedronFactory.BuildPolyhedron | src/main/java/org/ea/utiltities/PolyhedronFactory.java:46-61 | succeeds exactly when the polyhedron constructor does, failing with its error otherwise; the solid carries that polyhedron with the total area and the non-negative volume |
| PolyhedronFactory.TakenBeforeSentinel | src/main/java/org/ea/utiltities/PolyhedronFactory.java:129-135 | when a sentinel arrives before any interruption, the triangles before it, all with an area; otherwise no triangle without an area is met before an interruption |
| PolyhedronFactory.Run | src/main/java/org/ea/utiltities/PolyhedronFactory.java:124-139 | no queue or an interruption before the sentinel leaves the area unset; otherwise it is the total area of the triangles before the sentinel |
| PolyhedronFactory.SentinelPosition | src/main/java/org/ea/utiltities/PolyhedronFactory.java:131 | the first triangle without an area met before any interruption is where the sum stops |
| PolyhedronFactory.PipelineReportsTotalArea | src/main/java/org/ea/utiltities/TriangleFactory.java:167-184 | fed what the triangle worker pushed, the consumer sums exactly the triangles that worker built |
| MeshFactory.AllVertices | src/main/java/org/ea/utiltities/MeshFactory.java:66-72 | three vertices per triangle, in visiting order |
| MeshFactory.AllVerticesAt | src/main/java/org/ea/utiltities/MeshFactory.java:66-72 | vertex `j` of triangle `k` is visited at position `3k + j` |
| MeshFactory.BuildVertexIndex | src/main/java/org/ea/utiltities/MeshFactory.java:62-74 | the index is dense in insertion order, its keys are the distinct vertices in first-seen order, and exactly the visited vertices are mapped |
| MeshFactory.IndexVertices | src/main/java/org/ea/utiltities/MeshFactory.java:63-73 | the same for any vertex sequence |
| MeshFactory.IndexStep | src/main/java/org/ea/utiltities/MeshFactory.java:68-70 | a mapped vertex changes nothing; a new one is appended with the next index and the index stays dense |
| MeshFactory.BuildPointArray | src/main/java/org/ea/utiltities/MeshFactory.java:84-93 | three floats per key, point `i` holding the coordinates of key `i` |
| MeshFactory.BuildFaceArray | src/main/java/org/ea/utiltities/MeshFactory.java:105-118 | six entries per triangle: for each vertex its index followed by texture index 0 |
| MeshFactory.FaceBlockAppend | src/main/java/org/ea/utiltities/MeshFactory.java:111-116 | appending a block of six keeps earlier faces and makes the block face `k` |
| MeshFactory.IndexCoversTriangles | src/main/java/org/ea/utiltities/MeshFactory.java:111-116 | every triangle vertex is mapped to a key position that holds that very vertex |
| MeshFactory.IndexCoversVertex | src/main/java/org/ea/utiltities/MeshFactory.java:113 | the same for one vertex of one triangle |
| MeshFactory.BuildTriangleMesh | src/main/java/org/ea/utiltities/MeshFactory.java:39-52 | fails exactly on a null array and succeeds on every present one; then texture coordinates (0, 0), six face entries per triangle, point `i` the `i`-th distinct vertex in first-seen order, and each face entry points at a point holding the vertex it stands for |
| PolyhedronController.Insert | src/main/java/org/ea/controller/PolyhedronController.java:39 | inserting into a sorted sequence keeps it sorted and adds exactly the element |
| PolyhedronController.SortBy | src/main/java/org/ea/controller/PolyhedronController.java:39 | the result is a permutation of the input, ascending by the key |
| PolyhedronController.SortKeepsSorted | src/main/java/org/ea/controller/PolyhedronController.java:39 | a sequence already in order comes back unchanged |
| PolyhedronController.SortIsIdempotent | src/main/java/org/ea/controller/PolyhedronController.java:39 | sorting twice is sorting once |
| PolyhedronController.GetSortedSurfaces | src/main/java/org/ea/controller/PolyhedronController.java:34-45 | the result is a permutation of the surfaces, every one with an area, in ascending order of area |
| PolyhedronController.ControllerReportsBuiltMeasures | src/main/java/org/ea/controller/PolyhedronController.java:47-53 | over a solid the factory built, the controller reports the total area and a non-negative volume |
| Timer.TruncDiv | src/main/java/org/ea/utiltities/Timer.java:63-65 | Java `long` division: the quotient truncates toward zero, so the remainder has the dividend's sign and is smaller than the divisor |
| Timer.Start | src/main/java/org/ea/utiltities/Timer.java:20-25 | afterwards the timer runs and the total is kept; an open interval is not restarted, a new one begins now |
| Timer.Stop | src/main/java/org/ea/utiltities/Timer.java:33-39 | afterwards the timer is stopped; a running timer adds exactly the open interval to the total, a stopped one is left alone |
| Timer.Reset | src/main/java/org/ea/utiltities/Timer.java:47-51 | afterwards the timer is in its initial state: stopped with nothing measured |
| Timer.ElapsedMillis | src/main/java/org/ea/utiltities/Timer.java:60-66 | the reading is the measured nanoseconds in whole milliseconds, rounded toward zero: never above a non-negative measure and less than a millisecond below it |
| Timer.ReadingIsStoppingThenReading | src/main/java/org/ea/utiltities/Timer.java:60-77 | reading a running timer, in milliseconds or in seconds, gives what stopping it then and reading gives |
| Timer.StartStopIdempotent | src/main/java/org/ea/utiltities/Timer.java:20-39 | starting twice is starting once, stopping twice is stopping once, and a stopped timer reads the same at any time |
| Timer.TruncDivMonotone | src/main/java/org/ea/utiltities/Timer.java:63-65 | truncating division by a positive divisor is monotone |
| Timer.ElapsedNeverDecreases | src/main/java/org/ea/utiltities/Timer.java:20-77 | with a clock that never runs backwards, no sequence of starts, stops and reads decreases the total, the milliseconds or the seconds |
| Timer.ReplayAppend | src/main/java/org/ea/utiltities/Timer.java:20-51 | replaying one more event is applying it to the timer the earlier events left |
| Timer.RunningFollowsLastSwitch | src/main/java/org/ea/utiltities/Timer.java:86-88 | after any history the timer runs after a start, is stopped after a stop, and a reading does not change it; a fresh timer is stopped |
| Timer.ReadAtStepDoesNotDecrease | src/main/java/org/ea/utiltities/Timer.java:20-66 | one start, stop or read followed by a later reading never shows less than before it |
| Timer.ResetForgetsEverything | src/main/java/org/ea/utiltities/Timer.java:47-51 | after a reset the timer is stopped and reads zero, whatever came before |

## Left out

- The STL readers, the network client and server, the JavaFX views, scenes and mesh controller, and logging are not part of this model.
- Floating point: coordinates, areas and volumes are exact reals. Float rounding, NaN, infinities and negative zero are not modelled. The volume is accumulated in `float` in the source and exactly here.
- `Math.sqrt`, `Math.acos` and `Float.hashCode` are function parameters. Properties that need a real square root assume `IsSqrt(sqrt)`.
- Threads and blocking queues become finite sequences of `take()` outcomes. A worker that would block forever on an empty queue is reported as unfinished: the polyhedron consumer has not set its area, and `TriangleFactory.Run` returns `finished = false` without pushing the sentinel.
- `System.nanoTime()` is a parameter of every `Timer` operation that reads the clock. The timers the factories and the controller create only feed log messages, so they are not modelled there.
- Timer.Start: `long` overflow of the nanosecond arithmetic is not modelled; the fields are unbounded integers.
- `System.exit` after a caught geometry exception becomes the `Failure` of a `Result`.
- `Polyhedron.getVolume()`, `getArea()` and `getPerimeter()` return 0. The factory calls a three-argument `Polyhedron` constructor that the class does not declare. The model keeps the factory's area and volume beside the polyhedron (`PolyhedronFactory.Solid`), and the controller reads them from there.
- `Polyhedron` never assigns its `surfaces` field, because the constructor parameter shadows it, and it never fills its vertex list. Both stay empty in the model. The Euler characteristic check is only a comment in the source and is not modelled.
- The controller's `getSurfaces()` is not declared on the `Polyhedron` class shown, so `PolyhedronController.Controller` holds the surface sequence itself.
- PolyhedronController.GetSortedSurfaces: `Triangle` declares no `compareTo` and does not implement `Comparable`, so `Arrays.sort(triangles)` (PolyhedronController.java:39) throws `ClassCastException` for two or more surfaces and returns zero or one surface unchanged. The model does not follow that: ordering by area, smallest first, in `PolyhedronController.SortBy` and `GetSortedSurfaces` is an assumption about the intended natural order, not what the code does. The `ClassCastException` is not modelled.
- PolyhedronController.GetSortedSurfaces: stability of `Arrays.sort` (equal areas keep their input order) is not stated; the contract gives permutation and order only.
- The four-argument `Triangle` constructor the factory calls is not declared in `Triangle.java`. `Triangles.NewTriangle` takes the normal, area and perimeter as extra arguments and stores them.
- The `List` overload of `PolyhedronFactory.buildPolyhedron` (PolyhedronFactory.java:72-74) only calls the array overload on `toArray()`. A sequence stands for both, so the model has one `BuildPolyhedron`.
- `getArea()` of a factory-built triangle is the area stored by the four-argument constructor, an `Option` that is `None` for the sentinel. `Triangle.java:31-45` declares `getArea()` as computing a primitive `double`, yet `PolyhedronFactory.java:131` compares the area with `null`; the model follows the factory's use, in which the area can be missing.
- `GeometryUtils` calls `Arrays.stream` on the `List` returned by `getVertices()`/`getEdges()`. The model reads the lists directly.
- `BasicArithmetic.subtract` documents "this minus other", while `DefaultVector.subtract` computes "other minus this". The model follows the code (`Vectors.Subtract`).
- TriangleFactory.Run: requires every float list taken before the first poison pill or interruption to hold twelve values, the class's documented input format (TriangleFactory.java:18, 81). The error paths of other inputs are not modelled: an empty list throws `IndexOutOfBoundsException` at `triangleData.get(0)` (TriangleFactory.java:164), and other sizes reach `System.exit` through `buildTriangle` or an index exception. Lists after the stop are never taken and are unconstrained.
- The sentinel triangle is pushed even when the worker was interrupted. The model follows the code (`TriangleFactory.Run`).
- TriangleFactory.CalculatePerimeter: `TriangleFactory` imports both `org.ea.constant.*` and `org.ea.model.*` (TriangleFactory.java:3, 8), and both packages declare a `GeometricConstants`. The constant one has `THIRD_EDGE = 2`; the model one has `THIRD_EDGE = 3` (model/GeometricConstants.java:7). The simple name at TriangleFactory.java:126-127 and 143-145 is therefore ambiguous, and the source does not settle which constant is meant. With 3, `calculatePerimeter` would read `edges[3]` of a three-edge array and throw. The model chooses 0, 1, 2.
- `Vector.angleBetween` of a zero vector divides by zero. `Vectors.AngleBetween` requires non-zero lengths rather than modelling the resulting NaN.
- Vectors and vertices of the two parallel interface hierarchies share one datatype each. The hierarchies differ only in the null guard, which `Vertices.Equals` models with an `Option`, and in the `instanceof` test, which `Objects` models with a family tag.

## Findings

| source | as written | input that shows it | evidently intended | confidence | as-written member | corrected member |
|---|---|---|---|---|---|---|
| src/main/java/org/ea/model/Triangle.java:26-28 | the vertices are added to `getVertices()`, which `AbstractPolygon` never initialises, so every valid triangle construction throws a `NullPointerException` | edges (0,0,0)-(1,0,0), (1,0,0)-(0,1,0), (0,1,0)-(0,0,0) | the triangle stores its three vertices | not executed | Triangles.NewTriangleAsWritten | Triangles.NewTriangle |
