/** Edges between two vertices: `Edge3D` with its `DefaultEdge` and
    `DefaultEdge3D` implementations. An edge keeps its direction for
    `getDirection`, but equality and hashing ignore it. */
module Edges {
  import opened Wrappers
  import opened Vectors
  import opened Vertices

  datatype Edge = Edge(start: Vertex, end: Vertex)

  function Reverse(e: Edge): Edge
  {
    Edge(e.end, e.start)
  }

  /** `getDirection()`: start - end, i.e. the vector leading from the end back
      to the start (the opposite of what the name suggests). */
  function Direction(e: Edge): (v: Vec)
    ensures Translate(e.end, v) == e.start
  {
    Vertices.Subtract(e.start, e.end)
  }

  /** `getLength()`: the length of the direction vector. */
  function EdgeLength(sqrt: real -> real, e: Edge): (r: real)
    ensures IsSqrt(sqrt) ==> r >= 0.0
  {
    Length(sqrt, Direction(e))
  }

  /** The undirected rule of `Edge3D.equals(Edge3D)` once the argument is
      present: the endpoints match pairwise, straight or swapped. */
  predicate Undirected(a: Edge, b: Edge)
  {
    || (Equals3D(a.start, b.start) && Equals3D(a.end, b.end))
    || (Equals3D(a.start, b.end) && Equals3D(a.end, b.start))
  }

  /** `Edge3D.equals(Edge3D)`: a missing argument compares unequal. */
  predicate Equals(a: Edge, other: Option<Edge>): (r: bool)
    ensures r <==> other.Some? && (other.value == a || other.value == Reverse(a))
  {
    other.Some? && Undirected(a, other.value)
  }

  /** Two edges are equal exactly when they are the same edge or each
      other's reversal. */
  lemma UndirectedCharacterization(a: Edge, b: Edge)
    ensures Undirected(a, b) <==> b == a || b == Reverse(a)
    ensures Equals(a, Some(b)) <==> Undirected(a, b)
    ensures !Equals(a, None)
  {
  }

  lemma UndirectedIgnoresDirection(a: Edge)
    ensures Undirected(a, Reverse(a))
    ensures Direction(Reverse(a)) == Negate(Direction(a))
  {
  }

  lemma UndirectedIsEquivalence(a: Edge, b: Edge, c: Edge)
    ensures Undirected(a, a)
    ensures Undirected(a, b) ==> Undirected(b, a)
    ensures Undirected(a, b) && Undirected(b, c) ==> Undirected(a, c)
  {
  }

  /** The endpoints as an unordered pair: the key the undirected equality
      compares, used wherever edges are grouped or de-duplicated. */
  function UndirectedKey(e: Edge): multiset<Vertex>
  {
    multiset{e.start, e.end}
  }

  /** Two edges are equal exactly when their unordered endpoint pairs agree. */
  lemma UndirectedIsKeyEquality(a: Edge, b: Edge)
    ensures Undirected(a, b) <==> UndirectedKey(a) == UndirectedKey(b)
  {
    if UndirectedKey(a) == UndirectedKey(b) {
      assert a.start in UndirectedKey(b);
      if a.start == b.start {
        assert UndirectedKey(a) - multiset{a.start} == multiset{a.end};
        assert UndirectedKey(b) - multiset{b.start} == multiset{b.end};
      } else {
        assert a.start == b.end;
        assert UndirectedKey(a) - multiset{a.start} == multiset{a.end};
        assert UndirectedKey(b) - multiset{b.end} == multiset{b.start};
      }
    }
  }

  /** `hashCode()`: the XOR of the endpoint hashes. `vh` is the endpoints'
      own `hashCode` (for the default vertices, `Vertices.Hash`). */
  function Hash(vh: Vertex -> bv32, e: Edge): (r: bv32)
    ensures r == vh(e.end) ^ vh(e.start)
    ensures e.start == e.end ==> r == 0
  {
    vh(e.start) ^ vh(e.end)
  }

  /** Swapping the endpoints leaves the hash unchanged. */
  lemma HashSymmetric(vh: Vertex -> bv32, e: Edge)
    ensures Hash(vh, Reverse(e)) == Hash(vh, e)
  {
  }

  /** The hash is therefore consistent with the undirected equality: equal
      edges hash equally, as hash-based de-duplication requires. */
  lemma HashConsistentWithEquals(fh: real -> bv32, a: Edge, b: Edge)
    requires Undirected(a, b)
    ensures Hash(v => Vertices.Hash(fh, v), a) == Hash(v => Vertices.Hash(fh, v), b)
  {
    UndirectedCharacterization(a, b);
    if b != a {
      HashSymmetric(v => Vertices.Hash(fh, v), a);
    }
  }
}
