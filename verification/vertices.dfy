/** Points in 3-space: `Vertex`/`DefaultVertex` and the parallel
    `Vertex3D`/`DefaultVertex3D` hierarchy. Both store three coordinates and
    compare them exactly; they differ only in how a missing argument is treated. */
module Vertices {
  import opened Wrappers
  import opened Vectors

  datatype Vertex = Vertex(x: real, y: real, z: real)

  const Origin := Vertex(0.0, 0.0, 0.0)

  /** `Vertex3D.equals(Vertex3D)`: exact comparison of all three coordinates.
      There is no null guard, so the argument must be present. */
  predicate Equals3D(a: Vertex, b: Vertex): (r: bool)
    ensures r <==> a == b
  {
    a.x == b.x && a.y == b.y && a.z == b.z
  }

  /** `Vertex.equals(Vertex)`: the same comparison, but a missing argument
      compares unequal instead of failing. */
  predicate Equals(a: Vertex, other: Option<Vertex>): (r: bool)
    ensures r <==> other == Some(a)
  {
    other.Some? && Equals3D(a, other.value)
  }

  /** Over exact real coordinates, coordinate equality is value equality. */
  lemma Equals3DIsValueEquality(a: Vertex, b: Vertex)
    ensures Equals3D(a, b) <==> a == b
  {
  }

  /** The two hierarchies agree on every present argument; only `Vertex` accepts
      a missing one, and rejects it. */
  lemma HierarchiesAgree(a: Vertex, other: Option<Vertex>)
    ensures other == None ==> !Equals(a, other)
    ensures other.Some? ==> (Equals(a, other) <==> Equals3D(a, other.value))
    ensures Equals(a, other) <==> other == Some(a)
  {
  }

  lemma EqualityIsEquivalence(a: Vertex, b: Vertex, c: Vertex)
    ensures Equals3D(a, a)
    ensures Equals3D(a, b) ==> Equals3D(b, a)
    ensures Equals3D(a, b) && Equals3D(b, c) ==> Equals3D(a, c)
  {
  }

  /** The key `Equals3D` compares: the vertex itself. Hash-based collections
      of vertices group by it. */
  function Key(v: Vertex): Vertex
  {
    v
  }

  lemma Equals3DIsKeyEquality(a: Vertex, b: Vertex)
    ensures Equals3D(a, b) <==> Key(a) == Key(b)
  {
  }

  /** The point reached from `p` by moving along `v`. */
  function Translate(p: Vertex, v: Vec): Vertex
  {
    Vertex(p.x + v.x, p.y + v.y, p.z + v.z)
  }

  /** `subtract(other)`: the vector leading from `other` to this vertex. */
  function Subtract(a: Vertex, other: Vertex): (v: Vec)
    ensures Translate(other, v) == a
    ensures a == other <==> v == Zero
  {
    Vec(a.x - other.x, a.y - other.y, a.z - other.z)
  }

  // ---------------------------------------------------------------------
  // Hashing

  /** `Objects.hash(x, y, z)`: Java's 31-based polynomial over the boxed
      coordinates' hash codes, in wrapping 32-bit arithmetic. `fh` stands for
      `Float.hashCode`, which depends on the float's bit pattern. */
  function Hash(fh: real -> bv32, a: Vertex): bv32
  {
    var h0: bv32 := 1;
    var h1 := Times31(h0) + fh(a.x);
    var h2 := Times31(h1) + fh(a.y);
    Times31(h2) + fh(a.z)
  }

  /** 31 * h in wrapping 32-bit arithmetic, written as (h << 5) - h. */
  function Times31(h: bv32): (r: bv32)
    ensures r == 31 * h
  {
    (h << 5) - h
  }

  /** Equal vertices hash equally, whatever the coordinate hash is. */
  lemma HashConsistentWithEquals(fh: real -> bv32, a: Vertex, b: Vertex)
    requires Equals3D(a, b)
    ensures Hash(fh, a) == Hash(fh, b)
  {
  }
}
