// The linear searches the index structures are measured against (3rd/ANN/brute.cpp).
module BruteForce {
  import opened Geometry
  import opened KSmallest
  import opened NearestLists
  import opened SpatialTrees

  ghost function InRange(dist: seq<real>, n: nat, bound: real): set<int>
    requires n <= |dist|
  {
    set i | 0 <= i < n && dist[i] <= bound
  }

  // Offers every point to the list; asking for more points than there are is an error.
  method KSearch(pts: seq<Point>, q: Point, k: nat, nn: array<int>, dd: array<real>, inf: real)
    returns (ok: bool, ghost s: seq<Item>)
    requires Points(pts, |q|) && k <= nn.Length && k <= dd.Length
    modifies nn, dd
    ensures ok <==> k <= |pts|
    ensures ok ==> Nearest(s, k, Range(|pts|), Distances(pts, q), 1.0)
    ensures ok ==> Indices(s, k, nn[..]) && Keys(s, k, inf, dd[..])
  {
    hide Nearest, Distances, Insert, Range;
    var mk := new MinK(k, inf);
    s := [];
    if k > |pts| {
      return false, s;
    }
    ghost var dist := Distances(pts, q);
    ghost var seen := {};
    NearestEmpty(k, dist, 1.0);
    for i := 0 to |pts|
      invariant mk.Valid() && Nearest(mk.Contents(), k, seen, dist, 1.0)
      invariant forall j :: j in seen <==> 0 <= j < i
    {
      var d := PointDist(|q|, pts[i], q);
      InsertKeeps(mk.Contents(), k, seen, dist, 1.0, i);
      mk.Add(d, i);
      seen := seen + {i};
    }
    assert seen == Range(|pts|);
    s := mk.Contents();
    Extract(mk, k, nn, dd);
    ok := true;
  }

  // Offers the points within the radius and counts them.
  method FRSearch(pts: seq<Point>, q: Point, sqRad: real, k: nat, nn: array?<int>, dd: array?<real>, inf: real)
    returns (count: nat, ghost s: seq<Item>)
    requires Points(pts, |q|)
    requires nn != null ==> k <= nn.Length
    requires dd != null ==> k <= dd.Length
    modifies nn, dd
    ensures count == |InRange(Distances(pts, q), |pts|, sqRad)|
    ensures Nearest(s, k, InRange(Distances(pts, q), |pts|, sqRad), Distances(pts, q), 1.0)
    ensures nn != null ==> Indices(s, k, nn[..])
    ensures dd != null ==> Keys(s, k, inf, dd[..])
  {
    hide Nearest, Distances, Insert, Indices, Keys;
    var mk := new MinK(k, inf);
    count := 0;
    ghost var dist := Distances(pts, q);
    NearestEmpty(k, dist, 1.0);
    assert InRange(dist, 0, sqRad) == {};
    for i := 0 to |pts|
      invariant mk.Valid() && count == |InRange(dist, i, sqRad)|
      invariant Nearest(mk.Contents(), k, InRange(dist, i, sqRad), dist, 1.0)
    {
      var d := PointDist(|q|, pts[i], q);
      if d <= sqRad {
        InsertKeeps(mk.Contents(), k, InRange(dist, i, sqRad), dist, 1.0, i);
        mk.Add(d, i);
        assert InRange(dist, i + 1, sqRad) == InRange(dist, i, sqRad) + {i};
        count := count + 1;
      } else {
        assert InRange(dist, i + 1, sqRad) == InRange(dist, i, sqRad);
      }
    }
    s := mk.Contents();
    Extract(mk, k, nn, dd);
  }
}
