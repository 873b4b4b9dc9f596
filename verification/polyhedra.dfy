/** `Polyhedron`: a solid bounded by surfaces, accepted only when every edge
    is shared by at least two surfaces. */
module Polyhedra {
  import opened Wrappers
  import opened Vertices
  import opened Edges
  import opened Polygons
  import opened GeometryUtils

  /** The fields of `Polyhedron`. The `surfaces` list is never assigned by the
      constructor (the parameter shadows it), so it stays empty; the vertex
      list is never filled either. */
  datatype Polyhedron = Polyhedron(surfaces: seq<Polygon>, edges: seq<Edge>, vertices: seq<Vertex>)

  /** Each edge is equal (as an undirected edge) to at least one other one:
      every group of the occurrence count has at least two members. */
  predicate EveryEdgeShared(all: seq<Edge>)
  {
    forall i :: 0 <= i < |all| ==> Count(all, all[i], UndirectedKey) >= 2
  }

  /** `new Polyhedron(surfaces)`: collects all surface edges, groups equal
      edges and fails if some group has fewer than two members; otherwise
      keeps one edge of each group, in first-seen order. There is no Euler
      characteristic check. */
  function NewPolyhedron(surfaces: seq<Polygon>): (r: Result<Polyhedron, GeometryError>)
    ensures r.Success? <==> EveryEdgeShared(CollectEdgesFromSurfaces(surfaces))
    ensures r.Failure? ==> r.error == NotAClosedPolyhedron
    ensures r.Success? ==> r.value.surfaces == [] && r.value.vertices == []
    ensures r.Success? ==> NoDuplicates(r.value.edges, UndirectedKey)
    ensures r.Success? ==> forall i, e :: 0 <= i < |surfaces| && e in surfaces[i].edges ==>
              Contains(r.value.edges, e, UndirectedKey)
    ensures r.Success? ==> forall e :: e in r.value.edges ==>
              Count(CollectEdgesFromSurfaces(surfaces), e, UndirectedKey) >= 2
    ensures surfaces == [] ==> r == Success(Polyhedron([], [], []))
  {
    var all := CollectEdgesFromSurfaces(surfaces);
    if !EveryEdgeShared(all) then Failure(NotAClosedPolyhedron)
    else
      var edges := RemoveDuplicates(all, UndirectedKey);
      SurfaceEdgesCovered(surfaces);
      assert forall e :: e in edges ==> e in all;
      Success(Polyhedron([], edges, []))
  }

  lemma SurfaceEdgesCovered(surfaces: seq<Polygon>)
    ensures forall i, e :: 0 <= i < |surfaces| && e in surfaces[i].edges ==>
              Contains(RemoveDuplicates(CollectEdgesFromSurfaces(surfaces), UndirectedKey), e, UndirectedKey)
  {
    var all := CollectEdgesFromSurfaces(surfaces);
    RemoveDuplicatesCovers(all, UndirectedKey);
    forall i, e | 0 <= i < |surfaces| && e in surfaces[i].edges
      ensures Contains(RemoveDuplicates(all, UndirectedKey), e, UndirectedKey)
    {
      assert e in all;
      var k :| 0 <= k < |all| && all[k] == e;
    }
  }

  /** The stored edges are the first occurrence of each group, in the order
      the surfaces list them. */
  lemma PolyhedronEdgesAreFirstOccurrences(surfaces: seq<Polygon>)
    requires NewPolyhedron(surfaces).Success?
    ensures NewPolyhedron(surfaces).value.edges
            == FirstOccurrences(CollectEdgesFromSurfaces(surfaces), UndirectedKey)
  {
    RemoveDuplicatesKeepsFirstOccurrences(CollectEdgesFromSurfaces(surfaces), UndirectedKey);
  }

  /** A single surface whose edges are pairwise distinct is open: each of its
      edges occurs once, so the construction fails. */
  lemma SingleSurfaceIsRejected(s: Polygon)
    requires |s.edges| > 0 && NoDuplicates(s.edges, UndirectedKey)
    ensures NewPolyhedron([s]) == Failure(NotAClosedPolyhedron)
  {
    CountOnceWithoutDuplicates(s.edges, 0, UndirectedKey);
  }

  /** The check only counts: listing every surface twice always passes it,
      whatever the surfaces are. */
  lemma DoubledSurfacesAreAccepted(surfaces: seq<Polygon>)
    ensures NewPolyhedron(surfaces + surfaces).Success?
  {
    CollectEdgesFromSurfacesAppend(surfaces, surfaces);
    DoubledEdgesAreShared(CollectEdgesFromSurfaces(surfaces));
  }

  /** Every edge of a list followed by itself occurs at least twice. */
  lemma DoubledEdgesAreShared(a: seq<Edge>)
    ensures EveryEdgeShared(a + a)
  {
    var all := a + a;
    forall i | 0 <= i < |all|
      ensures Count(all, all[i], UndirectedKey) >= 2
    {
      var k := if i < |a| then i else i - |a|;
      assert a[k] == all[i];
      CountAppend(a, a, a[k], UndirectedKey);
      CountPositive(a, k, UndirectedKey);
    }
  }
}
