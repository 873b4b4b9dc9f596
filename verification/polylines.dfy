/** `Polyline`: a chain of edges, each starting where the previous one ends,
    with no wrap-around, together with its distinct vertices in order of
    appearance. */
module Polylines {
  import opened Wrappers
  import opened Vertices
  import opened Edges
  import opened GeometryUtils

  datatype Polyline = Polyline(edges: seq<Edge>, vertices: seq<Vertex>)

  /** Every edge but the last ends where the next one starts. */
  predicate OpenChain(edges: seq<Edge>)
  {
    forall i :: 0 <= i < |edges| - 1 ==> Equals3D(edges[i].end, edges[i + 1].start)
  }

  /** `areEdgesConnected(edges)`: compares each edge with its successor and
      stops at the first mismatch. */
  method AreEdgesConnected(edges: seq<Edge>) returns (connected: bool)
    ensures connected <==> OpenChain(edges)
  {
    var i := 0;
    while i < |edges| - 1
      invariant 0 <= i <= |edges|
      invariant |edges| > 0 ==> i <= |edges| - 1
      invariant forall k :: 0 <= k < i ==> Equals3D(edges[k].end, edges[k + 1].start)
    {
      if !Equals3D(edges[i].end, edges[i + 1].start) {
        return false;
      }
      i := i + 1;
    }
    return true;
  }

  /** `new Polyline(edges)`: rejects a broken chain; otherwise keeps the edges
      and de-duplicates the collected endpoints in first-seen order. */
  function NewPolyline(edges: seq<Edge>): (r: Result<Polyline, GeometryError>)
    ensures r.Success? <==> OpenChain(edges)
    ensures r.Failure? ==> r.error == EdgesNotConnected
    ensures r.Success? ==> r.value.edges == edges
    ensures r.Success? ==> NoDuplicates(r.value.vertices, Key)
    ensures r.Success? ==> forall v :: v in r.value.vertices ==> exists i :: 0 <= i < |edges| && (v == edges[i].start || v == edges[i].end)
  {
    if !OpenChain(edges) then Failure(EdgesNotConnected)
    else
      var all := CollectVerticesFromEdges(edges);
      var r := Polyline(edges, RemoveDuplicates(all, Key));
      EndpointsCollected(edges);
      Success(r)
  }

  lemma EndpointsCollected(edges: seq<Edge>)
    ensures forall v :: v in CollectVerticesFromEdges(edges) ==>
              exists i :: 0 <= i < |edges| && (v == edges[i].start || v == edges[i].end)
  {
    var all := CollectVerticesFromEdges(edges);
    forall v | v in all
      ensures exists i :: 0 <= i < |edges| && (v == edges[i].start || v == edges[i].end)
    {
      var k :| 0 <= k < |all| && all[k] == v;
      assert all[2 * (k / 2)] == edges[k / 2].start;
    }
  }

  /** `getVertices()` lists every endpoint exactly once, in the order in which
      the endpoints are first met walking the chain. */
  lemma PolylineVerticesAreFirstOccurrences(edges: seq<Edge>)
    requires NewPolyline(edges).Success?
    ensures NewPolyline(edges).value.vertices == FirstOccurrences(CollectVerticesFromEdges(edges), Key)
    ensures forall i :: 0 <= i < |edges| ==>
              edges[i].start in NewPolyline(edges).value.vertices && edges[i].end in NewPolyline(edges).value.vertices
  {
    var all := CollectVerticesFromEdges(edges);
    var vs := NewPolyline(edges).value.vertices;
    RemoveDuplicatesKeepsFirstOccurrences(all, Key);
    RemoveDuplicatesCovers(all, Key);
    forall i | 0 <= i < |edges|
      ensures edges[i].start in vs && edges[i].end in vs
    {
      assert all[2 * i] == edges[i].start && all[2 * i + 1] == edges[i].end;
      var j :| 0 <= j < |vs| && Key(vs[j]) == Key(all[2 * i]);
      var k :| 0 <= k < |vs| && Key(vs[k]) == Key(all[2 * i + 1]);
    }
  }

  /** The edges of a path through distinct vertices. */
  function PathEdges(vs: seq<Vertex>): (r: seq<Edge>)
    requires |vs| >= 1
    ensures |r| == |vs| - 1
    ensures forall i :: 0 <= i < |r| ==> r[i] == Edge(vs[i], vs[i + 1])
  {
    seq(|vs| - 1, i requires 0 <= i < |vs| - 1 => Edge(vs[i], vs[i + 1]))
  }

  /** Round trip: the polyline through distinct vertices is accepted and
      gives back exactly those vertices, in order. */
  lemma PathRoundTrip(vs: seq<Vertex>)
    requires |vs| >= 2 && NoDuplicates(vs, Key)
    ensures NewPolyline(PathEdges(vs)).Success?
    ensures NewPolyline(PathEdges(vs)).value.vertices == vs
  {
    var edges := PathEdges(vs);
    assert OpenChain(edges);
    var all := CollectVerticesFromEdges(edges);
    RemoveDuplicatesKeepsFirstOccurrences(all, Key);
    PathFirstOccurrences(vs, edges);
  }

  /** Walking a path start, end, start, end, ..., each vertex is first met at
      its own position, so the first occurrences are the path itself. */
  lemma {:induction false} PathFirstOccurrences(vs: seq<Vertex>, edges: seq<Edge>)
    requires |vs| >= 2 && NoDuplicates(vs, Key) && edges == PathEdges(vs)
    ensures FirstOccurrences(CollectVerticesFromEdges(edges), Key) == vs
  {
    if |vs| == 2 {
      var all := CollectVerticesFromEdges(edges);
      assert all == ([] + [vs[0]]) + [vs[1]];
      FirstOccurrencesAppendNew([], vs[0], Key);
      assert Key(vs[0]) != Key(vs[1]);
      FirstOccurrencesAppendNew([vs[0]], vs[1], Key);
    } else {
      var p := vs[..|vs| - 1];
      PathFirstOccurrences(p, PathEdges(p));
      PathExtends(vs);
    }
  }

  /** One more vertex on the path: its edge adds the previous end again,
      which is seen, and the new vertex, which is not. */
  lemma PathExtends(vs: seq<Vertex>)
    requires |vs| >= 3 && NoDuplicates(vs, Key)
    requires FirstOccurrences(CollectVerticesFromEdges(PathEdges(vs[..|vs| - 1])), Key) == vs[..|vs| - 1]
    ensures FirstOccurrences(CollectVerticesFromEdges(PathEdges(vs)), Key) == vs
  {
    var p := vs[..|vs| - 1];
    var pe, edges := PathEdges(p), PathEdges(vs);
    var a, b := vs[|vs| - 2], vs[|vs| - 1];
    assert edges == pe + [Edge(a, b)];
    CollectVerticesAppend(pe, Edge(a, b));
    var allp := CollectVerticesFromEdges(pe);
    // The second-to-last entry repeats the previous edge's end.
    assert allp[|allp| - 1] == a;
    FirstOccurrencesAppendSeen(allp, a, Key);
    assert CollectVerticesFromEdges(edges) == (allp + [a]) + [b];
    LastVertexIsNew(vs, allp + [a]);
    FirstOccurrencesAppendNew(allp + [a], b, Key);
    assert p + [b] == vs;
  }

  /** Every entry before the last of the collected endpoints is an earlier
      vertex, so the last vertex has not been seen. */
  lemma LastVertexIsNew(vs: seq<Vertex>, prefix: seq<Vertex>)
    requires |vs| >= 2 && NoDuplicates(vs, Key)
    requires CollectVerticesFromEdges(PathEdges(vs)) == prefix + [vs[|vs| - 1]]
    ensures !Contains(prefix, vs[|vs| - 1], Key)
  {
    forall j | 0 <= j < |prefix|
      ensures Key(prefix[j]) != Key(vs[|vs| - 1])
    {
      assert prefix[j] == (prefix + [vs[|vs| - 1]])[j];
      CollectedIsEarlierVertex(vs, PathEdges(vs), j);
    }
  }

  lemma CollectVerticesAppend(es: seq<Edge>, e: Edge)
    ensures CollectVerticesFromEdges(es + [e]) == CollectVerticesFromEdges(es) + [e.start, e.end]
  {
    var l, r := CollectVerticesFromEdges(es + [e]), CollectVerticesFromEdges(es) + [e.start, e.end];
    assert |l| == |r|;
    forall k | 0 <= k < |l|
      ensures l[k] == r[k]
    {
      assert l[2 * (k / 2)] == (es + [e])[k / 2].start;
    }
  }

  /** Position `j` of the collected endpoints of a path holds vertex
      `(j + 1) / 2`, which is not the last vertex when `j` is before the end. */
  lemma CollectedIsEarlierVertex(vs: seq<Vertex>, edges: seq<Edge>, j: nat)
    requires |vs| >= 2 && NoDuplicates(vs, Key) && edges == PathEdges(vs)
    requires j < |CollectVerticesFromEdges(edges)| - 1
    ensures Key(CollectVerticesFromEdges(edges)[j]) != Key(vs[|vs| - 1])
  {
    var all := CollectVerticesFromEdges(edges);
    var i := j / 2;
    if j % 2 == 0 {
      assert all[2 * i] == vs[i];
    } else {
      assert j == 2 * i + 1 && i < |edges|;
      assert all[2 * i + 1] == edges[i].end == vs[i + 1];
      assert i + 1 < |vs| - 1;
    }
  }
}
