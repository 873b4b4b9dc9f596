/** `PolyhedronController`: the solid's measures as stored, and its
    surfaces as a sorted copy. Triangles are ordered by area, smallest
    first. */
module PolyhedronController {
  import opened Wrappers
  import opened Triangles
  import opened PolyhedronFactory

  /** The controller's view of a solid: the solid itself and the array of
      its triangular surfaces. */
  datatype Controller = Controller(solid: Solid, surfaces: seq<Triangle>)

  /** Every surface has its area, the key of the ordering. */
  predicate HasAreas(ts: seq<Triangle>)
  {
    forall k :: 0 <= k < |ts| ==> ts[k].area.Some?
  }

  /** The sort key: the stored area (every sorted surface has one). */
  function AreaKey(t: Triangle): real
  {
    if t.area.Some? then t.area.value else 0.0
  }

  /** Ascending by `key`. */
  predicate Sorted<T>(s: seq<T>, key: T -> real)
  {
    forall i, j :: 0 <= i < j < |s| ==> key(s[i]) <= key(s[j])
  }

  /** Puts `x` before the first element whose key is not smaller, so that it
      stays ahead of every later element with an equal key. */
  function Insert<T>(x: T, s: seq<T>, key: T -> real): (r: seq<T>)
    requires Sorted(s, key)
    ensures |r| == |s| + 1
    ensures multiset(r) == multiset(s) + multiset{x}
    ensures Sorted(r, key)
  {
    if |s| == 0 || key(x) <= key(s[0]) then
      [x] + s
    else
      var rest := Insert(x, s[1..], key);
      assert s == [s[0]] + s[1..];
      HeadBelowRest(s[0], x, s[1..], rest, key);
      [s[0]] + rest
  }

  /** A head no greater than `x` or than any element of a sorted tail stays
      in front when `x` is inserted into the tail. */
  lemma HeadBelowRest<T>(h: T, x: T, tail: seq<T>, rest: seq<T>, key: T -> real)
    requires Sorted([h] + tail, key) && key(h) <= key(x)
    requires multiset(rest) == multiset(tail) + multiset{x}
    requires Sorted(rest, key)
    ensures Sorted([h] + rest, key)
  {
    forall k | 0 <= k < |rest|
      ensures key(h) <= key(rest[k])
    {
      assert rest[k] in multiset(rest);
      if rest[k] != x {
        assert rest[k] in multiset(tail);
        var m :| 0 <= m < |tail| && tail[m] == rest[k];
        assert ([h] + tail)[0] == h && ([h] + tail)[m + 1] == tail[m];
        assert key(([h] + tail)[0]) <= key(([h] + tail)[m + 1]);
      }
    }
    forall i, j | 0 <= i < j < |[h] + rest|
      ensures key(([h] + rest)[i]) <= key(([h] + rest)[j])
    {
      assert ([h] + rest)[j] == rest[j - 1];
      if i > 0 {
        assert ([h] + rest)[i] == rest[i - 1];
      }
    }
  }

  /** Insertion sort: a permutation of the input, ascending by `key`. */
  function SortBy<T>(s: seq<T>, key: T -> real): (r: seq<T>)
    ensures |r| == |s|
    ensures multiset(r) == multiset(s)
    ensures Sorted(r, key)
  {
    if |s| == 0 then []
    else
      assert s == [s[0]] + s[1..];
      Insert(s[0], SortBy(s[1..], key), key)
  }

  /** A sequence already in order comes back as it is. */
  lemma {:induction false} SortKeepsSorted<T>(s: seq<T>, key: T -> real)
    requires Sorted(s, key)
    ensures SortBy(s, key) == s
  {
    if |s| > 0 {
      assert Sorted(s[1..], key) by {
        forall i, j | 0 <= i < j < |s[1..]|
          ensures key(s[1..][i]) <= key(s[1..][j])
        {
          assert s[1..][i] == s[i + 1] && s[1..][j] == s[j + 1];
        }
      }
      SortKeepsSorted(s[1..], key);
      assert s == [s[0]] + s[1..];
    }
  }

  /** Sorting twice is sorting once. */
  lemma SortIsIdempotent<T>(s: seq<T>, key: T -> real)
    ensures SortBy(SortBy(s, key), key) == SortBy(s, key)
  {
    SortKeepsSorted(SortBy(s, key), key);
  }

  /** `getSortedSurfaces()`: sorts a copy of the surface array; the array
      the controller holds is left as it was. */
  method GetSortedSurfaces(c: Controller) returns (sorted: seq<Triangle>)
    requires HasAreas(c.surfaces)
    ensures |sorted| == |c.surfaces|
    ensures multiset(sorted) == multiset(c.surfaces)
    ensures HasAreas(sorted)
    ensures forall i, j :: 0 <= i < j < |sorted| ==> sorted[i].area.value <= sorted[j].area.value
  {
    var copy := c.surfaces;
    sorted := SortBy(copy, AreaKey);
    forall k | 0 <= k < |sorted|
      ensures sorted[k].area.Some?
    {
      assert sorted[k] in multiset(c.surfaces);
    }
  }

  /** `getArea()` and `getVolume()`: the solid's own measures. */
  function GetArea(c: Controller): real
  {
    c.solid.area
  }

  function GetVolume(c: Controller): real
  {
    c.solid.volume
  }

  /** A controller over a solid the factory built from `ts` reports the
      factory's total area and non-negative volume. */
  lemma ControllerReportsBuiltMeasures(ts: seq<Triangle>, c: Controller)
    requires AllMeasured(ts) && BuildPolyhedron(ts).Success?
    requires c.solid == BuildPolyhedron(ts).value
    ensures GetArea(c) == CalculateArea(ts)
    ensures GetVolume(c) == CalculateVolume(ts) && GetVolume(c) >= 0.0
    ensures (forall k :: 0 <= k < |ts| ==> ts[k].area.value >= 0.0) ==> GetArea(c) >= 0.0
  {
  }
}
