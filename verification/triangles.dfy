/** `Triangle`: a polygon of exactly three edges, with its two measures. */
module Triangles {
  import opened Wrappers
  import opened Vectors
  import opened Vertices
  import opened Edges
  import opened Polygons

  /** `GeometricConstants.HALF_OF_PARALLELOGRAM`. */
  const HalfOfParallelogram: real := 2.0

  /** Indices of the three edges (`FIRST_EDGE`, `SECOND_EDGE`, `THIRD_EDGE`). */
  const FirstEdge := 0
  const SecondEdge := 1
  const ThirdEdge := 2

  /** A triangle: its polygon (edges and vertex list), and the normal, area
      and perimeter the factory hands it, each possibly absent. */
  datatype Triangle = Triangle(shape: Polygon, normal: Option<Vec>, area: Option<real>, perimeter: Option<real>)

  /** Half the length of the cross product of the first two edge directions:
      the computation of `getArea()` and of `TriangleFactory.calculateArea`. */
  function AreaFromEdges(sqrt: real -> real, a: Edge, b: Edge): (r: real)
    ensures IsSqrt(sqrt) ==> r >= 0.0
    ensures IsSqrt(sqrt) ==> 4.0 * (r * r) == LengthSquared(Cross(Direction(a), Direction(b)))
  {
    var parallelogram := Length(sqrt, Cross(Direction(a), Direction(b)));
    HalfSquared(parallelogram);
    parallelogram / HalfOfParallelogram
  }

  lemma HalfSquared(p: real)
    ensures 4.0 * ((p / 2.0) * (p / 2.0)) == p * p
  {
  }

  /** The sum of the three edge lengths: `getPerimeter()` and
      `TriangleFactory.calculatePerimeter`. */
  function PerimeterFromEdges(sqrt: real -> real, a: Edge, b: Edge, c: Edge): (r: real)
    ensures IsSqrt(sqrt) ==> r >= EdgeLength(sqrt, a) && r >= EdgeLength(sqrt, b) && r >= EdgeLength(sqrt, c)
  {
    EdgeLength(sqrt, a) + EdgeLength(sqrt, b) + EdgeLength(sqrt, c)
  }

  /** Running round the triangle the other way round changes neither measure.
      The ring a, b, c walked backwards is Reverse(c), Reverse(b), Reverse(a);
      for a closed ring its first two edges give the same area as a and b. */
  lemma MeasuresIgnoreOrientation(sqrt: real -> real, a: Edge, b: Edge, c: Edge)
    ensures a.end == b.start && b.end == c.start && c.end == a.start ==>
              AreaFromEdges(sqrt, Reverse(c), Reverse(b)) == AreaFromEdges(sqrt, a, b)
    ensures AreaFromEdges(sqrt, Reverse(b), Reverse(a)) == AreaFromEdges(sqrt, a, b)
    ensures PerimeterFromEdges(sqrt, Reverse(c), Reverse(b), Reverse(a)) == PerimeterFromEdges(sqrt, a, b, c)
  {
    ReversedPairArea(sqrt, a, b);
    if a.end == b.start && b.end == c.start && c.end == a.start {
      AreaIndependentOfStartingEdge(sqrt, Reverse(c), Reverse(b), Reverse(a));
    }
    var da, db := Direction(a), Direction(b);
    assert LengthSquared(Direction(Reverse(a))) == LengthSquared(da);
    assert LengthSquared(Direction(Reverse(b))) == LengthSquared(db);
    assert LengthSquared(Direction(Reverse(c))) == LengthSquared(Direction(c));
  }

  /** The reversed pair spans the same parallelogram as the pair. */
  lemma ReversedPairArea(sqrt: real -> real, a: Edge, b: Edge)
    ensures AreaFromEdges(sqrt, Reverse(b), Reverse(a)) == AreaFromEdges(sqrt, a, b)
  {
    var da, db := Direction(a), Direction(b);
    assert Direction(Reverse(b)) == Negate(db);
    assert Direction(Reverse(a)) == Negate(da);
    assert Cross(Negate(db), Negate(da)) == Negate(Cross(da, db));
    assert LengthSquared(Negate(Cross(da, db))) == LengthSquared(Cross(da, db));
  }

  /** In a closed triangle the three directions add up to zero, so any two
      consecutive edges span the same parallelogram: the area does not depend
      on which edge is taken first. */
  lemma AreaIndependentOfStartingEdge(sqrt: real -> real, a: Edge, b: Edge, c: Edge)
    requires a.end == b.start && b.end == c.start && c.end == a.start
    ensures AreaFromEdges(sqrt, b, c) == AreaFromEdges(sqrt, a, b)
  {
    var da, db, dc := Direction(a), Direction(b), Direction(c);
    assert dc == Negate(Add(da, db));
    CrossOfClosedLoop(da, db);
  }

  lemma CrossOfClosedLoop(u: Vec, v: Vec)
    ensures Cross(v, Negate(Add(u, v))) == Cross(u, v)
  {
  }

  /** The triangle's vertices as the constructor reads them off: the end of
      the first, the second and the last edge. A proof helper; its contract
      only spells out its elements. */
  function EdgeEnds(edges: seq<Edge>): (r: seq<Vertex>)
    requires |edges| == 3
    ensures |r| == 3 && forall i :: 0 <= i < 3 ==> r[i] == edges[i].end
  {
    [edges[FirstEdge].end, edges[SecondEdge].end, edges[|edges| - 1].end]
  }

  /** `new Triangle(edges)` as written: the polygon checks run first, then a
      size other than three is rejected. The vertices are then appended to
      the list returned by `getVertices()`, which `AbstractPolygon` never
      initialises, so every edge list that passes the checks ends in a
      `NullPointerException`. */
  function NewTriangleAsWritten(edges: seq<Edge>): (r: Result<Triangle, GeometryError>)
    ensures r.Failure?
    ensures |edges| < MinimumAmountOfEdges ==> r.error == NotEnoughEdges
    ensures |edges| >= MinimumAmountOfEdges && !ClosedChain(edges) ==> r.error == EdgesNotConnected
    ensures Validate(edges).Success? && |edges| != 3 ==> r.error == NotATriangle
    ensures Validate(edges).Success? && |edges| == 3 ==> r.error == NullVertexList
  {
    var shape :- NewAbstractPolygon(edges);
    if |edges| != 3 then Failure(NotATriangle)
    else if shape.vertices.None? then Failure(NullVertexList)
    else Success(Triangle(shape, None, None, None))
  }

  /** The discrepancy: a right triangle in the plane z = 0 is a valid closed
      ring of three edges, yet the constructor as written rejects it. */
  lemma AsWrittenRejectsAValidTriangle()
    ensures var a, b, c := Vertex(0.0, 0.0, 0.0), Vertex(1.0, 0.0, 0.0), Vertex(0.0, 1.0, 0.0);
            var edges := [Edge(a, b), Edge(b, c), Edge(c, a)];
            Validate(edges).Success? && NewTriangleAsWritten(edges) == Failure(NullVertexList)
  {
    var a, b, c := Vertex(0.0, 0.0, 0.0), Vertex(1.0, 0.0, 0.0), Vertex(0.0, 1.0, 0.0);
    var edges := [Edge(a, b), Edge(b, c), Edge(c, a)];
    assert ClosedChain(edges) by {
      assert (0 + 1) % 3 == 1 && (1 + 1) % 3 == 2 && (2 + 1) % 3 == 0;
    }
  }

  /** The constructor as intended: the same checks in the same order, and the
      three edge ends become the vertex list. The normal, area and perimeter
      are stored as given, as the factory's four-argument form does. */
  function NewTriangle(edges: seq<Edge>, normal: Option<Vec>, area: Option<real>, perimeter: Option<real>)
    : (r: Result<Triangle, GeometryError>)
    ensures r.Success? <==> |edges| == 3 && ClosedChain(edges)
    ensures |edges| < MinimumAmountOfEdges ==> r == Failure(NotEnoughEdges)
    ensures |edges| >= MinimumAmountOfEdges && !ClosedChain(edges) ==> r == Failure(EdgesNotConnected)
    ensures |edges| > 3 && ClosedChain(edges) ==> r == Failure(NotATriangle)
    ensures r.Success? ==>
              && r.value.shape.edges == edges
              && r.value.shape.vertices.Some?
              && |r.value.shape.vertices.value| == 3
              && (forall i :: 0 <= i < 3 ==> r.value.shape.vertices.value[i] == edges[i].end)
              && r.value.normal == normal && r.value.area == area && r.value.perimeter == perimeter
  {
    var shape :- NewAbstractPolygon(edges);
    if |edges| != 3 then Failure(NotATriangle)
    else Success(Triangle(Polygon(shape.edges, Some(EdgeEnds(edges))), normal, area, perimeter))
  }

  /** The corrected constructor accepts exactly the edge lists the as-written
      one sends to the null list. */
  lemma CorrectedAcceptsWhatAsWrittenDrops(edges: seq<Edge>, normal: Option<Vec>, area: Option<real>, perimeter: Option<real>)
    ensures NewTriangle(edges, normal, area, perimeter).Success?
            <==> NewTriangleAsWritten(edges) == Failure(NullVertexList)
    ensures NewTriangle(edges, normal, area, perimeter).Failure?
            ==> NewTriangle(edges, normal, area, perimeter).error == NewTriangleAsWritten(edges).error
  {
  }

  /** A triangle made by the constructor has three edges closing up into a ring. */
  predicate Valid(t: Triangle)
  {
    |t.shape.edges| == 3 && ClosedChain(t.shape.edges)
  }

  /** `getArea()` of a triangle built from edges alone. */
  function Area(sqrt: real -> real, t: Triangle): (r: real)
    requires Valid(t)
    ensures IsSqrt(sqrt) ==> r >= 0.0
  {
    AreaFromEdges(sqrt, t.shape.edges[FirstEdge], t.shape.edges[SecondEdge])
  }

  /** `getPerimeter()`: edges A, B and C are the first, second and last. */
  function Perimeter(sqrt: real -> real, t: Triangle): (r: real)
    requires Valid(t)
    ensures IsSqrt(sqrt) ==> r >= 0.0
  {
    PerimeterFromEdges(sqrt, t.shape.edges[FirstEdge], t.shape.edges[SecondEdge], t.shape.edges[|t.shape.edges| - 1])
  }

  /** Every triangle the constructor returns is valid, and its vertices are
      the ring's vertices, each edge's start being the previous edge's end. */
  lemma ConstructedTrianglesAreValid(edges: seq<Edge>, normal: Option<Vec>, area: Option<real>, perimeter: Option<real>)
    requires NewTriangle(edges, normal, area, perimeter).Success?
    ensures Valid(NewTriangle(edges, normal, area, perimeter).value)
    ensures var vs := NewTriangle(edges, normal, area, perimeter).value.shape.vertices.value;
            edges[0].start == vs[2] && edges[1].start == vs[0] && edges[2].start == vs[1]
  {
    assert (0 + 1) % 3 == 1 && (1 + 1) % 3 == 2 && (2 + 1) % 3 == 0;
    assert Equals3D(edges[2].end, edges[0].start);
  }
}
