/** `PolyhedronFactory`: builds the solid from the triangles with its total
    area and enclosed volume, and as a worker sums the areas of the
    triangles it takes up to the sentinel. */
module PolyhedronFactory {
  import opened Wrappers
  import opened Vectors
  import opened Vertices
  import opened Polygons
  import opened Polyhedra
  import opened Triangles
  import TriangleFactory

  /** A triangle as the triangle factory makes it: a valid ring with its
      area stored and its three vertices listed. */
  predicate Measured(t: Triangle)
  {
    && Valid(t)
    && t.area.Some?
    && t.shape.vertices.Some?
    && |t.shape.vertices.value| == 3
  }

  /** Every triangle of `ts` is measured. */
  predicate AllMeasured(ts: seq<Triangle>)
  {
    forall k :: 0 <= k < |ts| ==>
      && Valid(ts[k])
      && ts[k].area.Some?
      && ts[k].shape.vertices.Some?
      && |ts[k].shape.vertices.value| == 3
  }

  /** Every triangle built from a float group is measured. */
  lemma BuiltTrianglesAreMeasured(sqrt: real -> real, vals: seq<real>)
    requires |vals| == TriangleFactory.FloatAmountTriangle
    ensures Measured(TriangleFactory.BuildTriangle(sqrt, vals))
  {
  }

  /** What `buildTriangles` returns can be handed to `buildPolyhedron`: every
      triangle built from its group of twelve is measured. */
  lemma BuiltBatchIsMeasured(sqrt: real -> real, data: seq<real>, ts: seq<Triangle>)
    requires 12 * |ts| == |data|
    requires forall k :: 0 <= k < |ts| ==> ts[k] == TriangleFactory.BuildTriangle(sqrt, data[12 * k..12 * k + 12])
    ensures AllMeasured(ts)
  {
    forall k | 0 <= k < |ts|
      ensures Measured(ts[k])
    {
      BuiltTrianglesAreMeasured(sqrt, data[12 * k..12 * k + 12]);
    }
  }

  /** The sum of the stored areas, in order. */
  function TotalArea(ts: seq<Triangle>): real
    requires forall k :: 0 <= k < |ts| ==> ts[k].area.Some?
  {
    if |ts| == 0 then 0.0 else TotalArea(ts[..|ts| - 1]) + ts[|ts| - 1].area.value
  }

  /** `calculateArea(surfaces)`: the stored areas added up, starting from 0. */
  function CalculateArea(ts: seq<Triangle>): (r: real)
    requires forall k :: 0 <= k < |ts| ==> ts[k].area.Some?
    ensures ts == [] ==> r == 0.0
    ensures (forall k :: 0 <= k < |ts| ==> ts[k].area.value >= 0.0) ==> r >= 0.0
  {
    TotalAreaNonNegative(ts);
    TotalArea(ts)
  }

  lemma {:induction false} TotalAreaNonNegative(ts: seq<Triangle>)
    requires forall k :: 0 <= k < |ts| ==> ts[k].area.Some?
    ensures (forall k :: 0 <= k < |ts| ==> ts[k].area.value >= 0.0) ==> TotalArea(ts) >= 0.0
  {
    if |ts| > 0 {
      TotalAreaNonNegative(ts[..|ts| - 1]);
    }
  }

  /** The total area of two batches is the sum of their totals. */
  lemma {:induction false} CalculateAreaAppend(a: seq<Triangle>, b: seq<Triangle>)
    requires forall k :: 0 <= k < |a| ==> a[k].area.Some?
    requires forall k :: 0 <= k < |b| ==> b[k].area.Some?
    ensures CalculateArea(a + b) == CalculateArea(a) + CalculateArea(b)
  {
    if |b| == 0 {
      assert a + b == a;
    } else {
      assert (a + b)[..|a + b| - 1] == a + b[..|b| - 1];
      CalculateAreaAppend(a, b[..|b| - 1]);
    }
  }

  /** One sixth of the triple product A.(B x C) of the position vectors: the
      signed volume of the tetrahedron spanned with the origin. A face with
      two coincident corners, or one corner at the origin, spans nothing. */
  function SignedVolume(a: Vertex, b: Vertex, c: Vertex): (r: real)
    ensures a == b || b == c || a == c ==> r == 0.0
    ensures a == Origin || b == Origin || c == Origin ==> r == 0.0
  {
    Dot(Vertices.Subtract(a, Origin), Cross(Vertices.Subtract(b, Origin), Vertices.Subtract(c, Origin))) / 6.0
  }

  /** The signed volumes of the triangles' first three vertices, summed. */
  function SignedVolumeSum(ts: seq<Triangle>): real
    requires AllMeasured(ts)
  {
    if |ts| == 0 then 0.0
    else
      var vs := ts[|ts| - 1].shape.vertices.value;
      SignedVolumeSum(ts[..|ts| - 1]) + SignedVolume(vs[0], vs[1], vs[2])
  }

  function Abs(x: real): (r: real)
    ensures r >= 0.0 && (r == x || r == -x)
  {
    if x < 0.0 then -x else x
  }

  /** `calculateVolume(surfaces)`: the absolute value of the summed signed
      volumes, so it is never negative whichever way the faces wind. */
  function CalculateVolume(ts: seq<Triangle>): (r: real)
    requires AllMeasured(ts)
    ensures r >= 0.0
    ensures r == SignedVolumeSum(ts) || r == -SignedVolumeSum(ts)
  {
    Abs(SignedVolumeSum(ts))
  }

  /** Swapping two vertices reverses the winding and negates the signed volume. */
  lemma SwapNegatesSignedVolume(a: Vertex, b: Vertex, c: Vertex)
    ensures SignedVolume(a, c, b) == -SignedVolume(a, b, c)
  {
    var pa, pb, pc := Vertices.Subtract(a, Origin), Vertices.Subtract(b, Origin), Vertices.Subtract(c, Origin);
    CrossAntisymmetric(pb, pc);
    assert Dot(pa, Negate(Cross(pb, pc))) == -Dot(pa, Cross(pb, pc));
  }

  /** Rotating the vertices leaves the signed volume alone, so listing a
      triangle's vertices as B, C, A (the constructor's order) measures the
      same as A, B, C. */
  lemma RotationKeepsSignedVolume(a: Vertex, b: Vertex, c: Vertex)
    ensures SignedVolume(b, c, a) == SignedVolume(a, b, c)
  {
  }

  /** The triangle with its second and third vertices swapped: the same
      face, wound the other way. */
  function Rewound(t: Triangle): (r: Triangle)
    requires Measured(t)
    ensures Measured(r)
  {
    var vs := t.shape.vertices.value;
    t.(shape := t.shape.(vertices := Some([vs[0], vs[2], vs[1]])))
  }

  /** Reversing the winding of every face leaves the volume unchanged. */
  lemma {:induction false} RewindingKeepsVolume(ts: seq<Triangle>)
    requires AllMeasured(ts)
    ensures var rs := seq(|ts|, k requires 0 <= k < |ts| => Rewound(ts[k]));
            SignedVolumeSum(rs) == -SignedVolumeSum(ts) && CalculateVolume(rs) == CalculateVolume(ts)
  {
    var rs := seq(|ts|, k requires 0 <= k < |ts| => Rewound(ts[k]));
    if |ts| > 0 {
      var p := ts[..|ts| - 1];
      RewindingKeepsVolume(p);
      assert rs[..|rs| - 1] == seq(|p|, k requires 0 <= k < |p| => Rewound(p[k]));
      var vs := ts[|ts| - 1].shape.vertices.value;
      SwapNegatesSignedVolume(vs[0], vs[1], vs[2]);
    }
  }

  /** The solid the factory hands on: the polyhedron with the area and volume
      computed for it. */
  datatype Solid = Solid(polyhedron: Polyhedron, area: real, volume: real)

  /** The triangles' polygons, in order. A proof helper; its contract only
      spells out its elements. */
  function Shapes(ts: seq<Triangle>): (r: seq<Polygon>)
    ensures |r| == |ts| && forall k :: 0 <= k < |ts| ==> r[k] == ts[k].shape
  {
    seq(|ts|, k requires 0 <= k < |ts| => ts[k].shape)
  }

  /** `buildPolyhedron(triangles)`: area and volume are computed, then the
      polyhedron is built from the triangles; an open mesh ends the program,
      which the model reports as the failure. */
  function BuildPolyhedron(ts: seq<Triangle>): (r: Result<Solid, GeometryError>)
    requires AllMeasured(ts)
    ensures r.Success? <==> NewPolyhedron(Shapes(ts)).Success?
    ensures r.Failure? ==> r.error == NotAClosedPolyhedron
    ensures r.Success? ==> r.value.polyhedron == NewPolyhedron(Shapes(ts)).value
    ensures r.Success? ==> r.value.area == CalculateArea(ts) && r.value.volume == CalculateVolume(ts)
    ensures r.Success? ==> r.value.volume >= 0.0
  {
    var area := CalculateArea(ts);
    var volume := CalculateVolume(ts);
    var p :- NewPolyhedron(Shapes(ts));
    Success(Solid(p, area, volume))
  }

  /** One `take()` by the consumer: a triangle, or an interruption. */
  datatype Take = Got(triangle: Triangle) | Interrupted

  /** The triangles taken before the first one without an area, provided such
      a sentinel arrives before any interruption; `None` otherwise. */
  function TakenBeforeSentinel(takes: seq<Take>): (r: Option<seq<Triangle>>)
    ensures r.Some? ==>
              && |r.value| < |takes|
              && (forall k :: 0 <= k < |r.value| ==> takes[k] == Got(r.value[k]) && r.value[k].area.Some?)
              && takes[|r.value|].Got? && takes[|r.value|].triangle.area.None?
    ensures r.None? ==> forall k :: 0 <= k < |takes| && takes[k].Got? ==>
              (exists j :: 0 <= j < k && takes[j].Interrupted?) || takes[k].triangle.area.Some?
  {
    if |takes| == 0 || takes[0].Interrupted? then None
    else if takes[0].triangle.area.None? then Some([])
    else
      var rest := TakenBeforeSentinel(takes[1..]);
      if rest.None? then
        NoSentinelShift(takes);
        None
      else Some([takes[0].triangle] + rest.value)
  }

  lemma NoSentinelShift(takes: seq<Take>)
    requires |takes| > 0 && takes[0].Got? && takes[0].triangle.area.Some?
    requires forall k :: 0 <= k < |takes| - 1 && takes[1..][k].Got? ==>
               (exists j :: 0 <= j < k && takes[1..][j].Interrupted?) || takes[1..][k].triangle.area.Some?
    ensures forall k :: 0 <= k < |takes| && takes[k].Got? ==>
              (exists j :: 0 <= j < k && takes[j].Interrupted?) || takes[k].triangle.area.Some?
  {
    forall k | 0 <= k < |takes| && takes[k].Got?
      ensures (exists j :: 0 <= j < k && takes[j].Interrupted?) || takes[k].triangle.area.Some?
    {
      if k > 0 {
        assert takes[1..][k - 1] == takes[k];
        if exists j :: 0 <= j < k - 1 && takes[1..][j].Interrupted? {
          var j :| 0 <= j < k - 1 && takes[1..][j].Interrupted?;
          assert takes[j + 1].Interrupted?;
        }
      }
    }
  }

  /** `run()`: returns the new value of `threadedArea`, or `None` when the
      field is left as it was (no queue, or interrupted before the sentinel).
      The sum covers the triangles before the sentinel, in order. */
  method Run(triangleQueue: Option<seq<Take>>) returns (threadedArea: Option<real>)
    ensures triangleQueue.None? ==> threadedArea.None?
    ensures triangleQueue.Some? ==>
              match TakenBeforeSentinel(triangleQueue.value)
              case None => threadedArea.None?
              case Some(ts) => threadedArea == Some(CalculateArea(ts))
  {
    if triangleQueue.None? {
      return None;
    }
    var takes := triangleQueue.value;
    var taken := TakenBeforeSentinel(takes);
    var area := 0.0;
    var i := 0;
    while i < |takes|
      invariant 0 <= i <= |takes|
      invariant forall k :: 0 <= k < i ==> takes[k].Got? && takes[k].triangle.area.Some?
      invariant area == TotalArea(seq(i, k requires 0 <= k < i => takes[k].triangle))
      invariant taken.Some? ==> i <= |taken.value|
    {
      if takes[i].Interrupted? {
        return None;
      }
      var t := takes[i].triangle;
      if t.area.None? {
        assert taken.Some? && i == |taken.value| by {
          SentinelPosition(takes, i);
        }
        assert seq(i, k requires 0 <= k < i => takes[k].triangle) == taken.value;
        return Some(area);
      }
      assert seq(i + 1, k requires 0 <= k < i + 1 => takes[k].triangle)[..i]
             == seq(i, k requires 0 <= k < i => takes[k].triangle);
      area := area + t.area.value;
      i := i + 1;
    }
    // No sentinel arrived: the worker would block on the empty queue.
    return None;
  }

  /** The first triangle without an area, met before any interruption, is
      the sentinel `TakenBeforeSentinel` stops at. */
  lemma SentinelPosition(takes: seq<Take>, i: nat)
    requires i < |takes| && takes[i].Got? && takes[i].triangle.area.None?
    requires forall k :: 0 <= k < i ==> takes[k].Got? && takes[k].triangle.area.Some?
    ensures TakenBeforeSentinel(takes).Some? && |TakenBeforeSentinel(takes).value| == i
  {
    var r := TakenBeforeSentinel(takes);
    if r.Some? {
      assert |r.value| == i;
    }
  }

  /** The two stages together: the consumer, fed what the triangle worker
      pushed, reports the total area of the triangles that worker built. */
  lemma PipelineReportsTotalArea(built: seq<Triangle>)
    requires forall k :: 0 <= k < |built| ==> built[k].area.Some?
    ensures var pushed := built + [TriangleFactory.SentinelTriangle()];
            TakenBeforeSentinel(seq(|pushed|, k requires 0 <= k < |pushed| => Got(pushed[k]))) == Some(built)
  {
    var pushed := built + [TriangleFactory.SentinelTriangle()];
    var takes := seq(|pushed|, k requires 0 <= k < |pushed| => Got(pushed[k]));
    SentinelPosition(takes, |built|);
    var r := TakenBeforeSentinel(takes).value;
    assert r == built;
  }
}
