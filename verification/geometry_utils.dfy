/** `GeometryUtils`: building an edge ring from vertices, collecting edges and
    vertices from edges and surfaces, and order-preserving de-duplication. */
module GeometryUtils {
  import opened Wrappers
  import opened Vertices
  import opened Edges
  import opened Polygons

  // ---------------------------------------------------------------------
  // De-duplication
  //
  // `LinkedHashSet` and `Stream.distinct` compare elements with `equals`.
  // Both equalities used here are induced by a key (`Equals3D` by the vertex
  // itself, `Undirected` by the unordered endpoint pair), so the operations
  // below take the key: `key(a) == key(b)` is `a.equals(b)`.

  /** Some element of `r` equals `x`. */
  predicate Contains<T, K(==)>(r: seq<T>, x: T, key: T -> K)
  {
    exists i :: 0 <= i < |r| && key(r[i]) == key(x)
  }

  /** No two elements of `r` are equal. */
  predicate NoDuplicates<T, K(==)>(r: seq<T>, key: T -> K)
  {
    forall i, j :: 0 <= i < j < |r| ==> key(r[i]) != key(r[j])
  }

  /** `removeDuplicates(items, ...)` (both overloads): the elements are fed to
      a `LinkedHashSet` in order, which keeps an element only if no element
      already kept equals it, and iterates in insertion order. */
  function RemoveDuplicates<T, K(==)>(s: seq<T>, key: T -> K): (r: seq<T>)
    ensures |r| <= |s|
    ensures forall i :: 0 <= i < |r| ==> r[i] in s
    ensures NoDuplicates(r, key)
  {
    if |s| == 0 then []
    else
      var kept := RemoveDuplicates(s[..|s| - 1], key);
      if Contains(kept, s[|s| - 1], key) then kept else kept + [s[|s| - 1]]
  }

  /** Position `i` holds the first occurrence of its element. */
  predicate IsFirstOccurrence<T, K(==)>(s: seq<T>, i: nat, key: T -> K)
    requires i < |s|
  {
    forall j :: 0 <= j < i ==> key(s[j]) != key(s[i])
  }

  /** Reference definition of first-seen order: the elements of `s` at the
      positions where they first occur, in input order. */
  function FirstOccurrences<T, K(==)>(s: seq<T>, key: T -> K): seq<T>
  {
    if |s| == 0 then []
    else FirstOccurrences(s[..|s| - 1], key)
         + (if IsFirstOccurrence(s, |s| - 1, key) then [s[|s| - 1]] else [])
  }

  /** Appending an element already present adds no first occurrence. */
  lemma FirstOccurrencesAppendSeen<T, K>(s: seq<T>, x: T, key: T -> K)
    requires Contains(s, x, key)
    ensures FirstOccurrences(s + [x], key) == FirstOccurrences(s, key)
  {
    var j :| 0 <= j < |s| && key(s[j]) == key(x);
    assert (s + [x])[j] == s[j];
    assert (s + [x])[..|s|] == s;
  }

  /** Appending a new element adds it as the last first occurrence. */
  lemma FirstOccurrencesAppendNew<T, K>(s: seq<T>, x: T, key: T -> K)
    requires !Contains(s, x, key)
    ensures FirstOccurrences(s + [x], key) == FirstOccurrences(s, key) + [x]
  {
    assert (s + [x])[..|s|] == s;
    forall j | 0 <= j < |s|
      ensures key((s + [x])[j]) != key(x)
    {
      assert (s + [x])[j] == s[j];
    }
  }

  /** Every input element has an equal element in the output. */
  lemma {:induction false} RemoveDuplicatesCovers<T, K>(s: seq<T>, key: T -> K)
    ensures forall i :: 0 <= i < |s| ==> Contains(RemoveDuplicates(s, key), s[i], key)
  {
    if |s| > 0 {
      var p := s[..|s| - 1];
      RemoveDuplicatesCovers(p, key);
      var kept := RemoveDuplicates(p, key);
      var r := RemoveDuplicates(s, key);
      assert kept <= r;
      forall i | 0 <= i < |s|
        ensures Contains(r, s[i], key)
      {
        if i < |s| - 1 {
          assert s[i] == p[i];
          var k :| 0 <= k < |kept| && key(kept[k]) == key(p[i]);
          assert r[k] == kept[k];
        } else if !Contains(kept, s[i], key) {
          assert r[|r| - 1] == s[i];
        }
      }
    }
  }

  /** The output is exactly the first occurrences of the input, in input order. */
  lemma {:induction false} RemoveDuplicatesKeepsFirstOccurrences<T, K>(s: seq<T>, key: T -> K)
    ensures RemoveDuplicates(s, key) == FirstOccurrences(s, key)
  {
    if |s| > 0 {
      var p, x := s[..|s| - 1], s[|s| - 1];
      RemoveDuplicatesKeepsFirstOccurrences(p, key);
      var kept := RemoveDuplicates(p, key);
      if Contains(kept, x, key) {
        var k :| 0 <= k < |kept| && key(kept[k]) == key(x);
        var j :| 0 <= j < |p| && p[j] == kept[k];
        assert s[j] == p[j];
      }
      if !IsFirstOccurrence(s, |s| - 1, key) {
        var j :| 0 <= j < |s| - 1 && key(s[j]) == key(x);
        RemoveDuplicatesCovers(p, key);
        assert s[j] == p[j];
      }
    }
  }

  /** A sequence without duplicates is left as it is. */
  lemma {:induction false} RemoveDuplicatesFixesDuplicateFree<T, K>(t: seq<T>, key: T -> K)
    requires NoDuplicates(t, key)
    ensures RemoveDuplicates(t, key) == t
  {
    if |t| > 0 {
      var p := t[..|t| - 1];
      RemoveDuplicatesFixesDuplicateFree(p, key);
      assert !Contains(p, t[|t| - 1], key);
      assert p + [t[|t| - 1]] == t;
    }
  }

  /** De-duplicating twice is the same as once. */
  lemma RemoveDuplicatesIdempotent<T, K>(s: seq<T>, key: T -> K)
    ensures RemoveDuplicates(RemoveDuplicates(s, key), key) == RemoveDuplicates(s, key)
  {
    RemoveDuplicatesFixesDuplicateFree(RemoveDuplicates(s, key), key);
  }

  /** The number of elements of `s` equal to `x`. */
  function Count<T, K(==)>(s: seq<T>, x: T, key: T -> K): (n: nat)
    ensures n <= |s|
  {
    if |s| == 0 then 0
    else Count(s[..|s| - 1], x, key) + (if key(s[|s| - 1]) == key(x) then 1 else 0)
  }

  /** Every element of a sequence is counted at least once, namely itself. */
  lemma {:induction false} CountPositive<T, K>(s: seq<T>, i: nat, key: T -> K)
    requires i < |s|
    ensures Count(s, s[i], key) >= 1
  {
    if i < |s| - 1 {
      assert s[..|s| - 1][i] == s[i];
      CountPositive(s[..|s| - 1], i, key);
    }
  }

  /** Counting over a concatenation adds the counts of the parts. */
  lemma {:induction false} CountAppend<T, K>(a: seq<T>, b: seq<T>, x: T, key: T -> K)
    ensures Count(a + b, x, key) == Count(a, x, key) + Count(b, x, key)
  {
    if |b| == 0 {
      assert a + b == a;
    } else {
      assert (a + b)[..|a + b| - 1] == a + b[..|b| - 1];
      CountAppend(a, b[..|b| - 1], x, key);
    }
  }

  /** In a sequence without duplicates every element occurs exactly once. */
  lemma {:induction false} CountOnceWithoutDuplicates<T, K>(s: seq<T>, i: nat, key: T -> K)
    requires i < |s| && NoDuplicates(s, key)
    ensures Count(s, s[i], key) == 1
  {
    var p := s[..|s| - 1];
    if i < |s| - 1 {
      assert p[i] == s[i];
      CountOnceWithoutDuplicates(p, i, key);
    } else {
      CountAbsent(p, s[i], key);
    }
  }

  lemma {:induction false} CountAbsent<T, K>(s: seq<T>, x: T, key: T -> K)
    requires !Contains(s, x, key)
    ensures Count(s, x, key) == 0
  {
    if |s| > 0 {
      CountAbsent(s[..|s| - 1], x, key);
    }
  }

  // ---------------------------------------------------------------------
  // Concatenation

  /** The in-order concatenation of a sequence of sequences. */
  function Flatten<T>(ss: seq<seq<T>>): seq<T>
  {
    if |ss| == 0 then [] else ss[0] + Flatten(ss[1..])
  }

  lemma {:induction false} FlattenMembership<T>(ss: seq<seq<T>>, x: T)
    ensures x in Flatten(ss) <==> exists i :: 0 <= i < |ss| && x in ss[i]
  {
    if |ss| > 0 {
      FlattenMembership(ss[1..], x);
      if x in Flatten(ss[1..]) {
        var i :| 0 <= i < |ss[1..]| && x in ss[1..][i];
        assert x in ss[i + 1];
      }
      if exists i :: 0 <= i < |ss| && x in ss[i] {
        var i :| 0 <= i < |ss| && x in ss[i];
        if i > 0 {
          assert x in ss[1..][i - 1];
        }
      }
    }
  }

  lemma FlattenMembershipAll<T>(ss: seq<seq<T>>)
    ensures forall x :: x in Flatten(ss) <==> exists i :: 0 <= i < |ss| && x in ss[i]
  {
    forall x
      ensures x in Flatten(ss) <==> exists i :: 0 <= i < |ss| && x in ss[i]
    {
      FlattenMembership(ss, x);
    }
  }

  lemma FlattenSingleton<T>(ss: seq<seq<T>>)
    ensures |ss| == 1 ==> Flatten(ss) == ss[0]
  {
    if |ss| == 1 {
      assert Flatten(ss) == ss[0] + Flatten(ss[1..]);
    }
  }

  lemma {:induction false} FlattenAppend<T>(a: seq<seq<T>>, b: seq<seq<T>>)
    ensures Flatten(a + b) == Flatten(a) + Flatten(b)
  {
    if |a| > 0 {
      assert (a + b)[1..] == a[1..] + b;
      FlattenAppend(a[1..], b);
    } else {
      assert a + b == b;
    }
  }

  // ---------------------------------------------------------------------
  // The operations of GeometryUtils

  /** `createEdgesFromVertices(vertices)`: nothing for a missing array or fewer
      than two vertices; otherwise one edge from each vertex to the next, and a
      last edge from the last vertex back to the first. */
  function CreateEdgesFromVertices(vertices: Option<seq<Vertex>>): (r: seq<Edge>)
    ensures vertices.None? || |vertices.value| < 2 ==> r == []
    ensures vertices.Some? && |vertices.value| >= 2 ==>
              |r| == |vertices.value|
              && forall i :: 0 <= i < |r| ==>
                   r[i] == Edge(vertices.value[i], vertices.value[(i + 1) % |r|])
  {
    if vertices.None? || |vertices.value| < 2 then []
    else
      var vs := vertices.value;
      var n := |vs|;
      RingEdgesWrap(vs);
      seq(n - 1, i requires 0 <= i < n - 1 => Edge(vs[i], vs[i + 1])) + [Edge(vs[n - 1], vs[0])]
  }

  /** Edge `i` of the ring joins vertex `i` to the next one, the last edge
      wrapping round to vertex 0. */
  lemma RingEdgesWrap(vs: seq<Vertex>)
    requires |vs| >= 2
    ensures var n := |vs|;
            var r := seq(n - 1, i requires 0 <= i < n - 1 => Edge(vs[i], vs[i + 1])) + [Edge(vs[n - 1], vs[0])];
            |r| == n && forall i :: 0 <= i < n ==> r[i] == Edge(vs[i], vs[(i + 1) % n])
  {
    var n := |vs|;
    var r := seq(n - 1, i requires 0 <= i < n - 1 => Edge(vs[i], vs[i + 1])) + [Edge(vs[n - 1], vs[0])];
    forall i | 0 <= i < n
      ensures r[i] == Edge(vs[i], vs[(i + 1) % n])
    {
      if i < n - 1 {
        assert (i + 1) % n == i + 1;
      } else {
        assert (i + 1) % n == 0;
      }
    }
  }

  /** The start vertex of every edge, in order. A proof helper with no
      counterpart in the source; its contract only spells out its elements. */
  function Starts(edges: seq<Edge>): (r: seq<Vertex>)
    ensures |r| == |edges|
    ensures forall i :: 0 <= i < |edges| ==> r[i] == edges[i].start
  {
    seq(|edges|, i requires 0 <= i < |edges| => edges[i].start)
  }

  /** The ring built from at least two vertices is closed, and reading off
      its start vertices gives the vertices back. With at least three
      vertices it is therefore a valid polygon. */
  lemma EdgeRingIsClosedPolygon(vs: seq<Vertex>)
    requires |vs| >= 2
    ensures ClosedChain(CreateEdgesFromVertices(Some(vs)))
    ensures Starts(CreateEdgesFromVertices(Some(vs))) == vs
    ensures |vs| >= 3 ==> NewPolygon(CreateEdgesFromVertices(Some(vs))).Success?
  {
    var r := CreateEdgesFromVertices(Some(vs));
    forall i | 0 <= i < |r|
      ensures Equals3D(r[i].end, r[(i + 1) % |r|].start)
    {
      assert r[(i + 1) % |r|] == Edge(vs[(i + 1) % |r|], vs[((i + 1) % |r| + 1) % |r|]);
    }
  }

  /** `collectVerticesFromEdges(edges)`: the start then the end of each edge,
      in edge order. */
  function CollectVerticesFromEdges(edges: seq<Edge>): (r: seq<Vertex>)
    ensures |r| == 2 * |edges|
    ensures forall i :: 0 <= i < |edges| ==> r[2 * i] == edges[i].start && r[2 * i + 1] == edges[i].end
  {
    if |edges| == 0 then []
    else [edges[0].start, edges[0].end] + CollectVerticesFromEdges(edges[1..])
  }

  function EdgeLists(surfaces: seq<Polygon>): (r: seq<seq<Edge>>)
    ensures |r| == |surfaces|
    ensures forall i :: 0 <= i < |surfaces| ==> r[i] == surfaces[i].edges
  {
    seq(|surfaces|, i requires 0 <= i < |surfaces| => surfaces[i].edges)
  }

  /** `collectEdgesFromSurfaces(surfaces)`: every surface's edges, surface by
      surface, in order. */
  function CollectEdgesFromSurfaces(surfaces: seq<Polygon>): (r: seq<Edge>)
    ensures forall e :: e in r <==> exists i :: 0 <= i < |surfaces| && e in surfaces[i].edges
    ensures |surfaces| == 1 ==> r == surfaces[0].edges
  {
    var lists := EdgeLists(surfaces);
    FlattenMembershipAll(lists);
    FlattenSingleton(lists);
    Flatten(lists)
  }

  /** Collecting from two groups of surfaces is collecting from each in turn. */
  lemma CollectEdgesFromSurfacesAppend(a: seq<Polygon>, b: seq<Polygon>)
    ensures CollectEdgesFromSurfaces(a + b) == CollectEdgesFromSurfaces(a) + CollectEdgesFromSurfaces(b)
  {
    assert EdgeLists(a + b) == EdgeLists(a) + EdgeLists(b);
    FlattenAppend(EdgeLists(a), EdgeLists(b));
  }

  /** Every surface has a vertex list. */
  predicate AllHaveVertexLists(surfaces: seq<Polygon>)
  {
    forall i :: 0 <= i < |surfaces| ==> surfaces[i].vertices.Some?
  }

  function VertexLists(surfaces: seq<Polygon>): (r: seq<seq<Vertex>>)
    requires AllHaveVertexLists(surfaces)
    ensures |r| == |surfaces|
    ensures forall i :: 0 <= i < |surfaces| ==> r[i] == surfaces[i].vertices.value
  {
    seq(|surfaces|, i requires 0 <= i < |surfaces| => surfaces[i].vertices.value)
  }

  /** `collectVerticesFromSurfaces(surfaces)`: every surface's vertex list,
      surface by surface, in order. A surface whose list is null makes the
      Java code fail. */
  function CollectVerticesFromSurfaces(surfaces: seq<Polygon>): (r: Result<seq<Vertex>, GeometryError>)
    ensures r.Success? <==> AllHaveVertexLists(surfaces)
    ensures r.Failure? ==> r.error == NullVertexList
    ensures r.Success? ==>
              forall v :: v in r.value <==> exists i :: 0 <= i < |surfaces| && v in surfaces[i].vertices.value
    ensures r.Success? && |surfaces| == 1 ==> r.value == surfaces[0].vertices.value
  {
    if !AllHaveVertexLists(surfaces) then Failure(NullVertexList)
    else
      var lists := VertexLists(surfaces);
      FlattenMembershipAll(lists);
      FlattenSingleton(lists);
      Success(Flatten(lists))
  }

  /** Collecting from two groups of surfaces is collecting from each in turn;
      a null list in either group makes the whole collection fail. */
  lemma CollectVerticesFromSurfacesAppend(a: seq<Polygon>, b: seq<Polygon>)
    ensures CollectVerticesFromSurfaces(a + b).Success?
            <==> CollectVerticesFromSurfaces(a).Success? && CollectVerticesFromSurfaces(b).Success?
    ensures CollectVerticesFromSurfaces(a + b).Success? ==>
              CollectVerticesFromSurfaces(a + b).value
              == CollectVerticesFromSurfaces(a).value + CollectVerticesFromSurfaces(b).value
  {
    if AllHaveVertexLists(a + b) {
      assert AllHaveVertexLists(a) by {
        forall i | 0 <= i < |a| ensures a[i].vertices.Some? { assert (a + b)[i] == a[i]; }
      }
      assert AllHaveVertexLists(b) by {
        forall i | 0 <= i < |b| ensures b[i].vertices.Some? { assert (a + b)[|a| + i] == b[i]; }
      }
      assert VertexLists(a + b) == VertexLists(a) + VertexLists(b);
      FlattenAppend(VertexLists(a), VertexLists(b));
    }
  }
}
