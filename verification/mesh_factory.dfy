/** `MeshFactory`: the index arrays of a triangle mesh. Each distinct vertex
    gets the next free index in first-seen order; the point array lists the
    coordinates by index and the face array lists, per triangle, the index of
    each vertex paired with texture coordinate 0. */
module MeshFactory {
  import opened Wrappers
  import opened Vertices
  import opened GeometryUtils
  import opened Triangles

  /** Every triangle carries a vertex list of three. */
  predicate HasThreeVertices(ts: seq<Triangle>)
  {
    forall k :: 0 <= k < |ts| ==> ts[k].shape.vertices.Some? && |ts[k].shape.vertices.value| == 3
  }

  /** The vertex of triangle `k` at position `j`. */
  function VertexOf(ts: seq<Triangle>, k: nat, j: nat): Vertex
    requires HasThreeVertices(ts) && k < |ts| && j < 3
  {
    ts[k].shape.vertices.value[j]
  }

  /** All vertices, triangle by triangle, as the nested loops visit them. */
  function AllVertices(ts: seq<Triangle>): (r: seq<Vertex>)
    requires HasThreeVertices(ts)
    ensures |r| == 3 * |ts|
  {
    seq(3 * |ts|, i requires 0 <= i < 3 * |ts| => VertexOf(ts, i / 3, i % 3))
  }

  /** Vertex `j` of triangle `k` sits at position 3k + j. */
  lemma AllVerticesAt(ts: seq<Triangle>, k: nat, j: nat)
    requires HasThreeVertices(ts) && k < |ts| && j < 3
    ensures AllVertices(ts)[3 * k + j] == VertexOf(ts, k, j)
  {
    assert (3 * k + j) / 3 == k && (3 * k + j) % 3 == j;
  }

  /** The `LinkedHashMap` built by `buildVertexIndex`: its keys in insertion
      order, and the index stored for each. */
  datatype VertexIndex = VertexIndex(keys: seq<Vertex>, index: map<Vertex, int>)

  /** The index map is dense: key `i` in insertion order has index `i`, and
      nothing else is mapped. */
  predicate Dense(vi: VertexIndex)
  {
    && (forall i :: 0 <= i < |vi.keys| ==> vi.keys[i] in vi.index && vi.index[vi.keys[i]] == i)
    && (forall v :: v in vi.index ==> v in vi.keys)
  }

  /** The map reflects what has been read so far: its keys are the
      de-duplicated prefix and exactly its vertices are mapped. */
  ghost predicate IndexOf(vi: VertexIndex, s: seq<Vertex>)
  {
    && Dense(vi)
    && vi.keys == RemoveDuplicates(s, Key)
    && (forall v :: v in s <==> v in vi.index)
  }

  /** `buildVertexIndex(triangles)`: a vertex not yet in the map gets the next
      index. */
  method BuildVertexIndex(ts: seq<Triangle>) returns (vi: VertexIndex)
    requires HasThreeVertices(ts)
    ensures Dense(vi)
    ensures vi.keys == RemoveDuplicates(AllVertices(ts), Key)
    ensures forall v :: v in AllVertices(ts) <==> v in vi.index
  {
    vi := IndexVertices(AllVertices(ts));
  }

  /** The loop of `buildVertexIndex` over the vertices in visiting order. */
  method IndexVertices(all: seq<Vertex>) returns (vi: VertexIndex)
    ensures Dense(vi)
    ensures vi.keys == RemoveDuplicates(all, Key)
    ensures forall v :: v in all <==> v in vi.index
  {
    vi := VertexIndex([], map[]);
    var nextIndex := 0;
    var i := 0;
    while i < |all|
      invariant 0 <= i <= |all|
      invariant IndexOf(vi, all[..i]) && nextIndex == |vi.keys|
    {
      var v := all[i];
      assert all[..i + 1] == all[..i] + [v];
      IndexStep(vi, all[..i], v);
      if v !in vi.index {
        vi := VertexIndex(vi.keys + [v], vi.index[v := nextIndex]);
        nextIndex := nextIndex + 1;
      }
      i := i + 1;
    }
    assert all[..i] == all;
  }

  /** One step of the loop: a mapped vertex changes nothing, a new one is
      appended with the next index. */
  lemma IndexStep(vi: VertexIndex, s: seq<Vertex>, v: Vertex)
    requires IndexOf(vi, s)
    ensures v in vi.index ==> IndexOf(vi, s + [v])
    ensures v !in vi.index ==> IndexOf(VertexIndex(vi.keys + [v], vi.index[v := |vi.keys|]), s + [v])
  {
    assert (s + [v])[..|s|] == s;
    if v in vi.index {
      var j :| 0 <= j < |vi.keys| && vi.keys[j] == v;
      assert Contains(vi.keys, v, Key);
    } else {
      var keys := vi.keys + [v];
      forall i | 0 <= i < |vi.keys|
        ensures keys[i] != v
      {
        assert vi.keys[i] in vi.index;
      }
      assert !Contains(vi.keys, v, Key);
    }
  }

  /** The coordinates stored for point `i`. */
  function PointAt(points: seq<real>, i: nat): Vertex
    requires 3 * i + 2 < |points|
  {
    Vertex(points[3 * i], points[3 * i + 1], points[3 * i + 2])
  }

  /** `buildPointArray(keys)`: x, y and z of each vertex, in key order. */
  method BuildPointArray(keys: seq<Vertex>) returns (points: seq<real>)
    ensures |points| == 3 * |keys|
    ensures forall i :: 0 <= i < |keys| ==> PointAt(points, i) == keys[i]
  {
    points := [];
    var i := 0;
    while i < |keys|
      invariant 0 <= i <= |keys|
      invariant |points| == 3 * i
      invariant forall k :: 0 <= k < i ==> PointAt(points, k) == keys[k]
    {
      var v := keys[i];
      var old_points := points;
      points := points + [v.x, v.y, v.z];
      assert forall k :: 0 <= k < i ==> PointAt(points, k) == PointAt(old_points, k);
      i := i + 1;
    }
  }

  /** The entries of the face array for vertex `j` of triangle `k`: the
      point index and the texture index. */
  function FacePoint(faces: seq<int>, k: nat, j: nat): int
    requires j < 3 && 6 * k + 6 <= |faces|
  {
    faces[6 * k + 2 * j]
  }

  function FaceTexture(faces: seq<int>, k: nat, j: nat): int
    requires j < 3 && 6 * k + 6 <= |faces|
  {
    faces[6 * k + 2 * j + 1]
  }

  /** Every vertex of every triangle is mapped. */
  predicate AllIndexed(ts: seq<Triangle>, vi: VertexIndex)
    requires HasThreeVertices(ts)
  {
    forall k, j :: 0 <= k < |ts| && 0 <= j < 3 ==> VertexOf(ts, k, j) in vi.index
  }

  /** `buildFaceArray(triangles, index)`: for each vertex of each triangle,
      its index followed by texture index 0. */
  method BuildFaceArray(ts: seq<Triangle>, vi: VertexIndex) returns (faces: seq<int>)
    requires HasThreeVertices(ts) && AllIndexed(ts, vi)
    ensures |faces| == 6 * |ts|
    ensures forall k, j :: 0 <= k < |ts| && 0 <= j < 3 ==>
              FacePoint(faces, k, j) == vi.index[VertexOf(ts, k, j)] && FaceTexture(faces, k, j) == 0
  {
    faces := [];
    var k := 0;
    while k < |ts|
      invariant 0 <= k <= |ts|
      invariant |faces| == 6 * k
      invariant forall m, j :: 0 <= m < k && 0 <= j < 3 ==>
                  FacePoint(faces, m, j) == vi.index[VertexOf(ts, m, j)] && FaceTexture(faces, m, j) == 0
    {
      var a, b, c := VertexOf(ts, k, 0), VertexOf(ts, k, 1), VertexOf(ts, k, 2);
      var block := [vi.index[a], 0, vi.index[b], 0, vi.index[c], 0];
      FaceBlockAppend(faces, block, k);
      faces := faces + block;
      k := k + 1;
    }
  }

  lemma FaceBlockAppend(faces: seq<int>, block: seq<int>, k: nat)
    requires |faces| == 6 * k && |block| == 6
    ensures forall m, j :: 0 <= m < k && 0 <= j < 3 ==>
              FacePoint(faces + block, m, j) == FacePoint(faces, m, j)
              && FaceTexture(faces + block, m, j) == FaceTexture(faces, m, j)
    ensures forall j :: 0 <= j < 3 ==>
              FacePoint(faces + block, k, j) == block[2 * j] && FaceTexture(faces + block, k, j) == block[2 * j + 1]
  {
  }

  /** What the index records about the vertex lists carries over to each
      triangle's vertices. */
  lemma IndexCoversTriangles(ts: seq<Triangle>, vi: VertexIndex)
    requires HasThreeVertices(ts) && Dense(vi)
    requires forall v :: v in AllVertices(ts) <==> v in vi.index
    ensures AllIndexed(ts, vi)
    ensures forall k, j :: 0 <= k < |ts| && 0 <= j < 3 ==>
              0 <= vi.index[VertexOf(ts, k, j)] < |vi.keys| && vi.keys[vi.index[VertexOf(ts, k, j)]] == VertexOf(ts, k, j)
  {
    forall k, j | 0 <= k < |ts| && 0 <= j < 3 {
      IndexCoversVertex(ts, vi, k, j);
    }
  }

  lemma IndexCoversVertex(ts: seq<Triangle>, vi: VertexIndex, k: nat, j: nat)
    requires HasThreeVertices(ts) && Dense(vi) && k < |ts| && j < 3
    requires forall v :: v in AllVertices(ts) <==> v in vi.index
    ensures VertexOf(ts, k, j) in vi.index
    ensures 0 <= vi.index[VertexOf(ts, k, j)] < |vi.keys| && vi.keys[vi.index[VertexOf(ts, k, j)]] == VertexOf(ts, k, j)
  {
    var v := VertexOf(ts, k, j);
    AllVerticesAt(ts, k, j);
    assert v in vi.index;
    var i :| 0 <= i < |vi.keys| && vi.keys[i] == v;
  }

  /** The mesh handed to the view: points, the single texture coordinate
      (0, 0), and the faces. */
  datatype Mesh = Mesh(points: seq<real>, texCoords: seq<real>, faces: seq<int>)

  /** `buildTriangleMesh(triangles)`: a missing array is rejected before
      anything is computed; any other array gives a mesh. The points are the
      distinct vertices in first-seen order, and every face entry points at a
      point holding the very vertex it stands for. */
  method BuildTriangleMesh(triangles: Option<seq<Triangle>>) returns (r: Result<Mesh, GeometryError>)
    requires triangles.Some? ==> HasThreeVertices(triangles.value)
    ensures triangles.None? <==> r == Failure(NullArgument)
    ensures triangles.Some? ==> r.Success?
    ensures r.Success? ==>
              var ts, m := triangles.value, r.value;
              var distinct := RemoveDuplicates(AllVertices(ts), Key);
              && m.texCoords == [0.0, 0.0]
              && |m.faces| == 6 * |ts|
              && |m.points| == 3 * |distinct|
              && (forall i :: 0 <= i < |distinct| ==> PointAt(m.points, i) == distinct[i])
              && forall k, j :: 0 <= k < |ts| && 0 <= j < 3 ==>
                   && FaceTexture(m.faces, k, j) == 0
                   && 0 <= FacePoint(m.faces, k, j) && 3 * FacePoint(m.faces, k, j) + 2 < |m.points|
                   && PointAt(m.points, FacePoint(m.faces, k, j)) == VertexOf(ts, k, j)
  {
    if triangles.None? {
      return Failure(NullArgument);
    }
    var ts := triangles.value;
    var vi := BuildVertexIndex(ts);
    IndexCoversTriangles(ts, vi);
    var points := BuildPointArray(vi.keys);
    var faces := BuildFaceArray(ts, vi);
    return Success(Mesh(points, [0.0, 0.0], faces));
  }
}
