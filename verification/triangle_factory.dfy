/** `TriangleFactory`: turns groups of twelve floats (a normal and three
    vertices) into triangles, and as a worker drains a queue of such groups
    into a queue of triangles closed by a sentinel triangle. */
module TriangleFactory {
  import opened Wrappers
  import opened Vectors
  import opened Vertices
  import opened Edges
  import opened Polygons
  import opened GeometryUtils
  import opened Triangles

  /** `FLOAT_AMOUNT_VERTEX` and `FLOAT_AMOUNT_TRIANGLE`. */
  const FloatAmountVertex := 3
  const FloatAmountTriangle := 12

  /** `PoisonPills.VERTICES_POISON_PILL`. */
  const PoisonPillVertices := [Vertex(1.0, 1.0, 1.0), Vertex(2.0, 2.0, 2.0), Vertex(3.0, 3.0, 3.0)]

  /** The normal of the sentinel triangle. */
  const SentinelNormal := Vec(2.0, 2.0, 2.0)

  /** An element of the data queue: a float group, or the end-of-data marker
      (a list whose first element is null). */
  datatype DataItem = Values(floats: seq<real>) | PoisonPill

  /** One `take()` by the worker: it returns an element, or the thread is
      interrupted while waiting. */
  datatype Take = Delivered(item: DataItem) | Interrupted

  /** The three floats starting at `i`, read as a point. */
  function PointAt(vals: seq<real>, i: nat): Vertex
    requires i + 2 < |vals|
  {
    Vertex(vals[i], vals[i + 1], vals[i + 2])
  }

  /** `calculateArea(edges)`: half the parallelogram spanned by the first two
      edge directions. */
  function CalculateArea(sqrt: real -> real, edges: seq<Edge>): (r: real)
    requires |edges| == 3
    ensures IsSqrt(sqrt) ==> r >= 0.0
    ensures ClosedChain(edges) ==> r == AreaFromEdges(sqrt, edges[1], edges[2])
  {
    ClosedRingArea(sqrt, edges);
    AreaFromEdges(sqrt, edges[FirstEdge], edges[SecondEdge])
  }

  lemma ClosedRingArea(sqrt: real -> real, edges: seq<Edge>)
    requires |edges| == 3
    ensures ClosedChain(edges) ==> AreaFromEdges(sqrt, edges[0], edges[1]) == AreaFromEdges(sqrt, edges[1], edges[2])
  {
    if ClosedChain(edges) {
      assert edges[0].end == edges[1].start by { assert (0 + 1) % 3 == 1; }
      assert edges[1].end == edges[2].start by { assert (1 + 1) % 3 == 2; }
      assert edges[2].end == edges[0].start by { assert (2 + 1) % 3 == 0; }
      AreaIndependentOfStartingEdge(sqrt, edges[0], edges[1], edges[2]);
    }
  }

  /** `calculatePerimeter(edges)`: the three edge lengths added up. */
  function CalculatePerimeter(sqrt: real -> real, edges: seq<Edge>): (r: real)
    requires |edges| == 3
    ensures IsSqrt(sqrt) ==> r >= 0.0
    ensures r == PerimeterFromEdges(sqrt, edges[0], edges[1], edges[2])
  {
    EdgeLength(sqrt, edges[FirstEdge]) + EdgeLength(sqrt, edges[SecondEdge]) + EdgeLength(sqrt, edges[ThirdEdge])
  }

  /** The triangle ring through three points, A to B to C and back to A. */
  lemma RingOfThree(a: Vertex, b: Vertex, c: Vertex)
    ensures CreateEdgesFromVertices(Some([a, b, c])) == [Edge(a, b), Edge(b, c), Edge(c, a)]
    ensures ClosedChain(CreateEdgesFromVertices(Some([a, b, c])))
  {
    var r := CreateEdgesFromVertices(Some([a, b, c]));
    assert r[0] == Edge(a, b) by { assert (0 + 1) % 3 == 1; }
    assert r[1] == Edge(b, c) by { assert (1 + 1) % 3 == 2; }
    assert r[2] == Edge(c, a) by { assert (2 + 1) % 3 == 0; }
    assert r == [Edge(a, b), Edge(b, c), Edge(c, a)];
    EdgeRingIsClosedPolygon([a, b, c]);
  }

  /** `buildTriangle(values)`: floats 0-2 are the normal, 3-11 the vertices A,
      B and C; the edges run A to B, B to C and C to A, and the constructor
      takes the end of each edge as a vertex. */
  function BuildTriangle(sqrt: real -> real, vals: seq<real>): (t: Triangle)
    requires |vals| == FloatAmountTriangle
    ensures Valid(t)
    ensures t.normal == Some(Vec(vals[0], vals[1], vals[2]))
    ensures t.shape.edges[0].start == PointAt(vals, 3)
    ensures t.shape.edges[1].start == PointAt(vals, 6)
    ensures t.shape.edges[2].start == PointAt(vals, 9)
    ensures t.shape.vertices == Some([PointAt(vals, 6), PointAt(vals, 9), PointAt(vals, 3)])
    ensures t.area.Some? && t.perimeter.Some?
  {
    var a, b, c := PointAt(vals, 3), PointAt(vals, 6), PointAt(vals, 9);
    var edges := [Edge(a, b), Edge(b, c), Edge(c, a)];
    RingOfThree(a, b, c);
    Triangle(Polygon(edges, Some([b, c, a])), Some(Vec(vals[0], vals[1], vals[2])),
             Some(CalculateArea(sqrt, edges)), Some(CalculatePerimeter(sqrt, edges)))
  }

  /** The triangle is what the edge ring and the constructor produce: the
      construction succeeds, so the exit path is never taken. */
  lemma BuildTriangleIsConstructed(sqrt: real -> real, vals: seq<real>)
    requires |vals| == FloatAmountTriangle
    ensures var a, b, c := PointAt(vals, 3), PointAt(vals, 6), PointAt(vals, 9);
            var edges := CreateEdgesFromVertices(Some([a, b, c]));
            NewTriangle(edges, Some(Vec(vals[0], vals[1], vals[2])),
                        Some(CalculateArea(sqrt, edges)), Some(CalculatePerimeter(sqrt, edges)))
            == Success(BuildTriangle(sqrt, vals))
  {
    RingOfThree(PointAt(vals, 3), PointAt(vals, 6), PointAt(vals, 9));
  }

  /** The stored measures are the triangle's own: what `getArea()` and
      `getPerimeter()` compute from its edges, never negative. */
  lemma BuildTriangleMeasures(sqrt: real -> real, vals: seq<real>)
    requires |vals| == FloatAmountTriangle
    ensures var t := BuildTriangle(sqrt, vals);
            t.area == Some(Area(sqrt, t)) && t.perimeter == Some(Perimeter(sqrt, t))
    ensures var t := BuildTriangle(sqrt, vals);
            IsSqrt(sqrt) ==> t.area.value >= 0.0 && t.perimeter.value >= 0.0
  {
  }

  /** The three coordinates of a point, as stored in a float group. */
  function PointFloats(p: Vertex): (r: seq<real>)
    ensures |r| == FloatAmountVertex
  {
    [p.x, p.y, p.z]
  }

  /** The twelve floats a triangle was read from: its normal, then the start
      of each edge. */
  function TriangleFloats(t: Triangle): (r: seq<real>)
    requires Valid(t) && t.normal.Some?
    ensures |r| == FloatAmountTriangle
  {
    var n := t.normal.value;
    [n.x, n.y, n.z] + PointFloats(t.shape.edges[0].start)
      + PointFloats(t.shape.edges[1].start) + PointFloats(t.shape.edges[2].start)
  }

  lemma PointRoundTrip(vals: seq<real>, i: nat)
    requires i + 2 < |vals|
    ensures PointFloats(PointAt(vals, i)) == vals[i..i + 3]
  {
  }

  /** Round trip: a built triangle gives back exactly the floats it came from. */
  lemma BuildTriangleRoundTrip(sqrt: real -> real, vals: seq<real>)
    requires |vals| == FloatAmountTriangle
    ensures TriangleFloats(BuildTriangle(sqrt, vals)) == vals
  {
    var t := BuildTriangle(sqrt, vals);
    var n := t.normal.value;
    assert [n.x, n.y, n.z] == vals[..3];
    PointRoundTrip(vals, 3);
    PointRoundTrip(vals, 6);
    PointRoundTrip(vals, 9);
    assert TriangleFloats(t) == vals[..3] + vals[3..6] + vals[6..9] + vals[9..12];
    assert vals == vals[..3] + vals[3..6] + vals[6..9] + vals[9..12];
  }

  /** `buildTriangles(data)`: consecutive groups of twelve, one triangle each.
      Reading the triangles back gives the data again. */
  method BuildTriangles(sqrt: real -> real, data: seq<real>) returns (ts: seq<Triangle>)
    requires |data| % FloatAmountTriangle == 0
    ensures 12 * |ts| == |data|
    ensures forall k :: 0 <= k < |ts| ==> ts[k] == BuildTriangle(sqrt, data[12 * k..12 * k + 12])
    ensures AllBuilt(ts)
    ensures Flatten(Encoded(ts)) == data
  {
    ts := [];
    var i := 0;
    while i < |data|
      invariant 0 <= i <= |data| && i == 12 * |ts|
      invariant GroupsBuilt(sqrt, ts, data)
      invariant AllBuilt(ts)
      invariant Flatten(Encoded(ts)) == data[..i]
    {
      NextGroupFits(|data|, |ts|);
      var group := data[i..i + FloatAmountTriangle];
      var t := BuildTriangle(sqrt, group);
      BuildStep(sqrt, data, i, ts, t);
      AllBuiltAppend(ts, t);
      GroupAppend(sqrt, data, ts, t);
      ts := ts + [t];
      i := i + FloatAmountTriangle;
    }
    assert data[..i] == data;
  }

  /** Appending the triangle built from the next group extends the encoding
      by exactly that group. */
  lemma BuildStep(sqrt: real -> real, data: seq<real>, i: nat, ts: seq<Triangle>, t: Triangle)
    requires i + FloatAmountTriangle <= |data|
    requires AllBuilt(ts)
    requires Flatten(Encoded(ts)) == data[..i]
    requires t == BuildTriangle(sqrt, data[i..i + FloatAmountTriangle])
    ensures Flatten(Encoded(ts + [t])) == data[..i + FloatAmountTriangle]
  {
    var group := data[i..i + FloatAmountTriangle];
    BuildTriangleRoundTrip(sqrt, group);
    EncodedAppend(ts, t);
    assert data[..i + FloatAmountTriangle] == data[..i] + group;
  }

  /** Appending the triangle of the next group keeps triangle `k` the one
      built from group `k`. */
  lemma GroupAppend(sqrt: real -> real, data: seq<real>, ts: seq<Triangle>, t: Triangle)
    requires 12 * |ts| + 12 <= |data|
    requires GroupsBuilt(sqrt, ts, data)
    requires t == BuildTriangle(sqrt, data[12 * |ts|..12 * |ts| + 12])
    ensures GroupsBuilt(sqrt, ts + [t], data)
  {
  }

  /** Triangle `k` is the one built from the `k`-th group of twelve. */
  predicate GroupsBuilt(sqrt: real -> real, ts: seq<Triangle>, data: seq<real>)
  {
    forall k :: 0 <= k < |ts| && 12 * k + 12 <= |data| ==> ts[k] == BuildTriangle(sqrt, data[12 * k..12 * k + 12])
  }

  lemma NextGroupFits(n: nat, k: nat)
    requires n % 12 == 0 && 12 * k < n
    ensures 12 * k + 12 <= n
  {
  }

  /** Every triangle is valid and carries a normal and an area, as the
      triangles built from float groups do. */
  predicate AllBuilt(ts: seq<Triangle>)
  {
    forall k :: 0 <= k < |ts| ==> Valid(ts[k]) && ts[k].normal.Some? && ts[k].area.Some?
  }

  lemma AllBuiltAppend(ts: seq<Triangle>, t: Triangle)
    requires AllBuilt(ts) && Valid(t) && t.normal.Some? && t.area.Some?
    ensures AllBuilt(ts + [t])
  {
  }

  /** The float groups of `ts`, in order. */
  function Encoded(ts: seq<Triangle>): seq<seq<real>>
    requires AllBuilt(ts)
  {
    seq(|ts|, k requires 0 <= k < |ts| && AllBuilt(ts) => TriangleFloats(ts[k]))
  }

  lemma EncodedAppend(ts: seq<Triangle>, t: Triangle)
    requires AllBuilt(ts)
    requires Valid(t) && t.normal.Some? && t.area.Some?
    ensures Flatten(Encoded(ts + [t])) == Flatten(Encoded(ts)) + TriangleFloats(t)
  {
    assert Encoded(ts + [t]) == Encoded(ts) + [TriangleFloats(t)];
    FlattenAppend(Encoded(ts), [TriangleFloats(t)]);
    assert Flatten([TriangleFloats(t)]) == TriangleFloats(t) + Flatten([]);
  }

  /** The sentinel pushed after the last triangle: a ring through the poison
      pill vertices, with no area and no perimeter. */
  function SentinelTriangle(): (t: Triangle)
    ensures Valid(t) && t.area.None? && t.perimeter.None?
    ensures t.normal == Some(SentinelNormal)
  {
    var edges := CreateEdgesFromVertices(Some(PoisonPillVertices));
    RingOfThree(PoisonPillVertices[0], PoisonPillVertices[1], PoisonPillVertices[2]);
    assert PoisonPillVertices == [PoisonPillVertices[0], PoisonPillVertices[1], PoisonPillVertices[2]];
    NewTriangle(edges, Some(SentinelNormal), None, None).value
  }

  /** The worker stops at a poison pill or when interrupted. */
  predicate Stops(t: Take)
  {
    t == Interrupted || t == Delivered(PoisonPill)
  }

  /** The float groups delivered before the worker stops at the first poison
      pill or the first interruption. When neither comes, these are all the
      groups delivered, and the worker then waits for more. */
  function GroupsBeforeStop(takes: seq<Take>): (r: seq<seq<real>>)
    ensures |r| <= |takes|
    ensures forall k :: 0 <= k < |r| ==> takes[k] == Delivered(Values(r[k]))
    ensures |r| < |takes| ==> Stops(takes[|r|])
  {
    if |takes| == 0 || Stops(takes[0]) then []
    else [takes[0].item.floats] + GroupsBeforeStop(takes[1..])
  }

  /** Every float group the worker takes before it stops has twelve values,
      the class's documented input format. Takes after the stop are never
      read and are left unconstrained. */
  predicate WellFormed(takes: seq<Take>)
  {
    var groups := GroupsBeforeStop(takes);
    forall k :: 0 <= k < |groups| ==> |groups[k]| == FloatAmountTriangle
  }

  /** What one run leaves behind: the worker's own triangle list, what it
      pushed onto the triangle queue, and whether `run()` returned. It does
      not return when the queue runs dry: `take()` then blocks for ever. */
  datatype RunOutcome = RunOutcome(triangles: seq<Triangle>, pushed: seq<Triangle>, finished: bool)

  /** `run()`: with no data queue it returns at once. Otherwise every group
      taken before the worker stops is built, kept and pushed. The run returns
      exactly when a poison pill or an interruption arrives, and then pushes
      the sentinel, whichever of the two it was. A queue that runs dry leaves
      the worker blocked, with no sentinel pushed. */
  method Run(sqrt: real -> real, dataQueue: Option<seq<Take>>) returns (r: RunOutcome)
    requires dataQueue.Some? ==> WellFormed(dataQueue.value)
    ensures dataQueue.None? ==> r == RunOutcome([], [], true)
    ensures dataQueue.Some? ==>
              var groups := GroupsBeforeStop(dataQueue.value);
              && |r.triangles| == |groups|
              && BuiltFrom(sqrt, r.triangles, groups)
              && (r.finished <==> exists k :: 0 <= k < |dataQueue.value| && Stops(dataQueue.value[k]))
              && r.pushed == r.triangles + (if r.finished then [SentinelTriangle()] else [])
  {
    if dataQueue.None? {
      return RunOutcome([], [], true);
    }
    var takes := dataQueue.value;
    var groups := GroupsBeforeStop(takes);
    var built: seq<Triangle> := [];
    var i := 0;
    while i < |takes|
      invariant 0 <= i <= |groups| && i <= |takes|
      invariant |built| == i && BuiltFrom(sqrt, built, groups)
    {
      var taken := takes[i];
      if Stops(taken) {
        GroupsStopAt(takes, i);
        break;
      }
      GroupsContinueAt(takes, i);
      var t := BuildTriangle(sqrt, taken.item.floats);
      BuiltFromAppend(sqrt, built, groups, t);
      built := built + [t];
      i := i + 1;
    }
    if i < |takes| {
      return RunOutcome(built, built + [SentinelTriangle()], true);
    }
    NoStopInDelivered(takes);
    return RunOutcome(built, built, false);
  }

  /** When every take delivered a group, none of them stops the worker. */
  lemma NoStopInDelivered(takes: seq<Take>)
    requires |GroupsBeforeStop(takes)| == |takes|
    ensures !exists k :: 0 <= k < |takes| && Stops(takes[k])
  {
    var groups := GroupsBeforeStop(takes);
    forall k | 0 <= k < |takes|
      ensures !Stops(takes[k])
    {
      assert takes[k] == Delivered(Values(groups[k]));
    }
  }

  /** Triangle `k` is the one built from group `k`, for every triangle. */
  predicate BuiltFrom(sqrt: real -> real, built: seq<Triangle>, groups: seq<seq<real>>)
  {
    && |built| <= |groups|
    && forall k :: 0 <= k < |built| ==>
         |groups[k]| == FloatAmountTriangle && built[k] == BuildTriangle(sqrt, groups[k])
  }

  lemma BuiltFromAppend(sqrt: real -> real, built: seq<Triangle>, groups: seq<seq<real>>, t: Triangle)
    requires BuiltFrom(sqrt, built, groups) && |built| < |groups|
    requires |groups[|built|]| == FloatAmountTriangle && t == BuildTriangle(sqrt, groups[|built|])
    ensures BuiltFrom(sqrt, built + [t], groups)
  {
  }

  /** A take that stops the worker at position `i` ends the groups there. */
  lemma GroupsStopAt(takes: seq<Take>, i: nat)
    requires i < |takes| && i <= |GroupsBeforeStop(takes)|
    requires Stops(takes[i])
    ensures i == |GroupsBeforeStop(takes)|
  {
  }

  /** A take that delivers floats at position `i` is group `i`, of twelve
      values in a well-formed queue. */
  lemma GroupsContinueAt(takes: seq<Take>, i: nat)
    requires WellFormed(takes)
    requires i < |takes| && i <= |GroupsBeforeStop(takes)|
    requires !Stops(takes[i])
    ensures i < |GroupsBeforeStop(takes)|
    ensures takes[i] == Delivered(Values(GroupsBeforeStop(takes)[i]))
    ensures |takes[i].item.floats| == FloatAmountTriangle
  {
  }

  /** Only the sentinel lacks an area: a consumer reading the pushed triangles
      up to the first one without an area reads exactly the built ones. */
  lemma OnlyTheSentinelLacksAnArea(sqrt: real -> real, takes: seq<Take>, r: RunOutcome)
    requires WellFormed(takes)
    requires |r.triangles| == |GroupsBeforeStop(takes)|
    requires BuiltFrom(sqrt, r.triangles, GroupsBeforeStop(takes))
    requires r.pushed == r.triangles + [SentinelTriangle()]
    ensures forall k :: 0 <= k < |r.pushed| ==> (r.pushed[k].area.None? <==> k == |r.pushed| - 1)
  {
  }
}
