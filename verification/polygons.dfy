/** `AbstractPolygon` and `Polygon`: a surface bounded by a closed ring of at
    least three edges. The two classes run the same validation; they differ
    only in the vertex list, which `Polygon` starts empty and
    `AbstractPolygon` never initialises. */
module Polygons {
  import opened Wrappers
  import opened Vertices
  import opened Edges

  const MinimumAmountOfEdges := 3

  /** A validated polygon. `vertices` is `None` while the Java list is null. */
  datatype Polygon = Polygon(edges: seq<Edge>, vertices: Option<seq<Vertex>>)

  /** Every edge ends where the next one starts, the last wrapping round to
      the first. */
  predicate ClosedChain(edges: seq<Edge>)
  {
    forall i :: 0 <= i < |edges| ==> Equals3D(edges[i].end, edges[(i + 1) % |edges|].start)
  }

  /** The connectivity loop of both constructors, edge by edge. */
  method CheckConnectivity(edges: seq<Edge>) returns (connected: bool)
    ensures connected <==> ClosedChain(edges)
  {
    var i := 0;
    while i < |edges|
      invariant 0 <= i <= |edges|
      invariant forall k :: 0 <= k < i ==> Equals3D(edges[k].end, edges[(k + 1) % |edges|].start)
    {
      var current, next := edges[i], edges[(i + 1) % |edges|];
      if !Equals3D(current.end, next.start) {
        return false;
      }
      i := i + 1;
    }
    return true;
  }

  /** The validation shared by both constructors: too few edges first, then
      connectivity. */
  function Validate(edges: seq<Edge>): (r: Result<seq<Edge>, GeometryError>)
    ensures r.Success? <==> |edges| >= MinimumAmountOfEdges && ClosedChain(edges)
    ensures r.Success? ==> r.value == edges
    ensures |edges| < MinimumAmountOfEdges ==> r == Failure(NotEnoughEdges)
    ensures |edges| >= MinimumAmountOfEdges && !ClosedChain(edges) ==> r == Failure(EdgesNotConnected)
  {
    if |edges| < MinimumAmountOfEdges then Failure(NotEnoughEdges)
    else if !ClosedChain(edges) then Failure(EdgesNotConnected)
    else Success(edges)
  }

  /** `new AbstractPolygon(edges)`: the edges are kept as given, the vertex
      list stays null. */
  function NewAbstractPolygon(edges: seq<Edge>): (r: Result<Polygon, GeometryError>)
    ensures r.Success? <==> Validate(edges).Success?
    ensures r.Failure? ==> r.error == Validate(edges).error
    ensures r.Success? ==> r.value.edges == edges && r.value.vertices == None
  {
    var checked :- Validate(edges);
    Success(Polygon(checked, None))
  }

  /** `new Polygon(edges)`: the same validation; the vertex list starts empty. */
  function NewPolygon(edges: seq<Edge>): (r: Result<Polygon, GeometryError>)
    ensures r.Success? <==> Validate(edges).Success?
    ensures r.Failure? ==> r.error == Validate(edges).error
    ensures r.Success? ==> r.value.edges == edges && r.value.vertices == Some([])
  {
    var checked :- Validate(edges);
    Success(Polygon(checked, Some([])))
  }

  /** Whatever a polygon was built by, its edges close up into a loop of at
      least three edges. */
  lemma BuiltPolygonsAreClosed(edges: seq<Edge>)
    requires NewAbstractPolygon(edges).Success? || NewPolygon(edges).Success?
    ensures |edges| >= 3
    ensures forall i :: 0 <= i < |edges| ==> edges[i].end == edges[(i + 1) % |edges|].start
  {
  }
}
