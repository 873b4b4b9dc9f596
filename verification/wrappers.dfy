/** Failure-carrying results shared by every module of the model.
    A Java `null` becomes `None`; a thrown exception becomes `Failure`. */
module Wrappers {

  datatype Option<+T> = None | Some(value: T)

  datatype Result<+R, +E> = Success(value: R) | Failure(error: E) {
    predicate IsFailure() {
      Failure?
    }

    function PropagateFailure<U>(): Result<U, E>
      requires Failure?
    {
      Failure(error)
    }

    function Extract(): R
      requires Success?
    {
      value
    }
  }

  /** The exception kinds the geometric layer can raise. The Java code throws
      bare `RuntimeException`s for most of these; the tag records which check fired. */
  datatype GeometryError =
    | NotEnoughEdges        // a polygon needs at least 3 edges
    | EdgesNotConnected     // some edge's end is not the next edge's start
    | NotATriangle          // a triangle needs exactly 3 edges
    | NotAClosedPolyhedron  // some undirected edge occurs fewer than 2 times
    | NullVertexList        // a vertex list that was never initialised is appended to
    | NullArgument          // a required argument is missing
}
