/** `equals(Object)` of the default vertex and edge classes. An argument of
    static type `Object` may be any reference: the same object, a vertex or
    edge of either hierarchy, or something else entirely. */
module Objects {
  import opened Vertices
  import opened Edges

  /** The interface a vertex class implements: `DefaultVertex` is a `Vertex`,
      `DefaultVertex3D` is a `Vertex3D`, and neither is the other. */
  datatype Family = Plain | ThreeD

  /** A reference with its identity and its dynamic type. Both edge classes
      implement `Edge3D`, so edges need no family. */
  datatype Obj =
    | VertexObj(ref: nat, family: Family, vertex: Vertex)
    | EdgeObj(ref: nat, edge: Edge)
    | OtherObj(ref: nat)

  /** References are identities: one reference denotes one object. */
  predicate SameRefSameObject(a: Obj, b: Obj)
  {
    a.ref == b.ref ==> a == b
  }

  /** `DefaultVertex.equals(Object)` / `DefaultVertex3D.equals(Object)`: the
      same reference is equal; an object outside the receiver's interface is
      not; anything else is compared coordinate by coordinate. */
  function VertexEqualsObject(self: Obj, obj: Obj): (r: bool)
    requires self.VertexObj?
    ensures obj.VertexObj? && obj.family == self.family && obj.vertex == self.vertex ==> r
    ensures !obj.VertexObj? && self.ref != obj.ref ==> !r
  {
    if self.ref == obj.ref then true
    else if !(obj.VertexObj? && obj.family == self.family) then false
    else Equals3D(self.vertex, obj.vertex)
  }

  /** `DefaultEdge.equals(Object)` / `DefaultEdge3D.equals(Object)`: identity,
      then the type check, then the undirected rule. */
  function EdgeEqualsObject(self: Obj, obj: Obj): (r: bool)
    requires self.EdgeObj?
    ensures obj.EdgeObj? && (obj.edge == self.edge || obj.edge == Reverse(self.edge)) ==> r
    ensures !obj.EdgeObj? && self.ref != obj.ref ==> !r
  {
    if self.ref == obj.ref then true
    else if !obj.EdgeObj? then false
    else Undirected(self.edge, obj.edge)
  }

  /** The identity shortcut never disagrees with the value comparison: a
      vertex object equals exactly the vertex objects of its own interface
      that carry the same coordinates. */
  lemma VertexEqualsObjectIsValueEquality(self: Obj, obj: Obj)
    requires self.VertexObj? && SameRefSameObject(self, obj)
    ensures VertexEqualsObject(self, obj)
            <==> obj.VertexObj? && obj.family == self.family && obj.vertex == self.vertex
  {
  }

  /** Equal coordinates in the other hierarchy are not enough. */
  lemma HierarchiesDoNotMix(r: nat, s: nat, v: Vertex)
    requires r != s
    ensures !VertexEqualsObject(VertexObj(r, Plain, v), VertexObj(s, ThreeD, v))
    ensures !VertexEqualsObject(VertexObj(r, ThreeD, v), VertexObj(s, Plain, v))
  {
  }

  /** An edge object equals exactly the edge objects with the same endpoints in
      either order. */
  lemma EdgeEqualsObjectIsUndirectedEquality(self: Obj, obj: Obj)
    requires self.EdgeObj? && SameRefSameObject(self, obj)
    ensures EdgeEqualsObject(self, obj)
            <==> obj.EdgeObj? && (obj.edge == self.edge || obj.edge == Reverse(self.edge))
  {
  }
}
