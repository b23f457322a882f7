// The index structures agree with brute force (3rd/ANN/kd_search.cpp, 3rd/ANN/kd_pr_search.cpp,
// 3rd/ANN/kd_fix_rad_search.cpp against 3rd/ANN/brute.cpp).
module SearchAgreement {
  import opened Geometry
  import opened KSmallest
  import opened NearestLists
  import opened SpatialTrees
  import BruteForce
  import FixedRadius
  import StandardSearch

  // Each reported distance is at least the true one of its rank and at most (1 + eps) squared times it.
  ghost predicate WithinError(dd: seq<real>, exact: seq<real>, k: nat, eps: real) {
    k <= |dd| && k <= |exact|
    && forall i :: 0 <= i < k ==> exact[i] <= dd[i] <= (1.0 + eps) * (1.0 + eps) * exact[i]
  }

  lemma {:induction false} ReportsAgree(s: seq<Item>, t: seq<Item>, k: nat, n: nat, dist: seq<real>, eps: real, inf: real,
                     dd: seq<real>, exact: seq<real>)
    requires Nearest(s, k, Range(n), dist, (1.0 + eps) * (1.0 + eps)) && Nearest(t, k, Range(n), dist, 1.0)
    requires Keys(s, k, inf, dd) && Keys(t, k, inf, exact) && k <= n && NonNegative(dist) && eps >= 0.0
    ensures WithinError(dd, exact, k, eps)
    ensures eps == 0.0 ==> dd[..k] == exact[..k]
  {
    hide Nearest;
    StandardSearch.ErrorFactor(eps);
    var c := (1.0 + eps) * (1.0 + eps);
    CloseToExact(s, t, k, Range(n), dist, c);
    ListSize(t, k, Range(n), dist, 1.0);
    RangeSize(n);
    if eps == 0.0 {
      forall i | 0 <= i < k
        ensures dd[i] == exact[i]
      {
        assert c * exact[i] == exact[i];
      }
    }
  }

  ghost predicate NoNearer(c: real, dist: real, key: real) {
    c * dist >= key
  }

  // The arrays a search fills in: k different points with their distances in order, and every other
  // point, once scaled by (1 + eps) squared, at least as far as each of them.
  lemma {:induction false} Reported(s: seq<Item>, pts: seq<Point>, q: Point, k: nat, eps: real, inf: real, nn: seq<int>, dd: seq<real>)
    requires Points(pts, |q|) && eps >= 0.0 && k <= |pts|
    requires Nearest(s, k, Range(|pts|), Distances(pts, q), (1.0 + eps) * (1.0 + eps)) && Indices(s, k, nn) && Keys(s, k, inf, dd)
    ensures forall i :: 0 <= i < k ==> 0 <= nn[i] < |pts| && dd[i] == Dist(pts[nn[i]], q)
    ensures forall i, j :: 0 <= i < j < k ==> nn[i] != nn[j] && dd[i] <= dd[j]
    ensures forall p, i :: 0 <= p < |pts| && 0 <= i < k && p !in nn[..k] ==> NoNearer((1.0 + eps) * (1.0 + eps), Dist(pts[p], q), dd[i])
  {
    hide Dist, NoNearer, Nearest, Indices, Keys, Distances;
    StandardSearch.ErrorFactor(eps);
    ReportedBy(s, pts, q, k, (1.0 + eps) * (1.0 + eps), inf, nn, dd);
  }

  lemma {:induction false} ReportedBy(s: seq<Item>, pts: seq<Point>, q: Point, k: nat, c: real, inf: real, nn: seq<int>, dd: seq<real>)
    requires Points(pts, |q|) && c >= 1.0 && k <= |pts|
    requires Nearest(s, k, Range(|pts|), Distances(pts, q), c) && Indices(s, k, nn) && Keys(s, k, inf, dd)
    ensures forall i :: 0 <= i < k ==> 0 <= nn[i] < |pts| && dd[i] == Dist(pts[nn[i]], q)
    ensures forall i, j :: 0 <= i < j < k ==> nn[i] != nn[j] && dd[i] <= dd[j]
    ensures forall p, i :: 0 <= p < |pts| && 0 <= i < k && p !in nn[..k] ==> NoNearer(c, Dist(pts[p], q), dd[i])
  {
    hide Dist, NoNearer, Excused;
    ListSize(s, k, Range(|pts|), Distances(pts, q), c);
    RangeSize(|pts|);
    forall p, i | 0 <= p < |pts| && 0 <= i < k && p !in nn[..k]
      ensures NoNearer(c, Dist(pts[p], q), dd[i])
    {
      assert forall j :: 0 <= j < k ==> nn[..k][j] == s[j].info;
      assert !Held(s, p);
      OthersFar(s, k, Range(|pts|), Distances(pts, q), c, p, i);
    }
  }

  lemma {:induction false} OthersFar(s: seq<Item>, k: nat, m: set<int>, dist: seq<real>, c: real, p: int, i: nat)
    requires Nearest(s, k, m, dist, c) && |s| == k && p in m && !Held(s, p) && i < k
    ensures 0 <= p < |dist| && NoNearer(c, dist[p], s[i].key)
  {
    assert Excused(s, k, dist, c, p);
  }

  // What fixed-radius search counts lies between the points whose scaled distance is in range and
  // the points in range.
  lemma {:induction false} CountBetween(c: set<int>, pts: seq<Point>, q: Point, sqRad: real, eps: real)
    requires Points(pts, |q|) && eps >= 0.0
    requires FixedRadius.Counted(c, Range(|pts|), Distances(pts, q), sqRad, (1.0 + eps) * (1.0 + eps))
    ensures c <= BruteForce.InRange(Distances(pts, q), |pts|, sqRad)
    ensures forall i :: 0 <= i < |pts| && (1.0 + eps) * (1.0 + eps) * Distances(pts, q)[i] <= sqRad ==> i in c
    ensures |c| <= |BruteForce.InRange(Distances(pts, q), |pts|, sqRad)|
  {
    SubsetSize(c, BruteForce.InRange(Distances(pts, q), |pts|, sqRad));
  }

  lemma {:induction false} SameKeys(s: seq<Item>, t: seq<Item>, k: nat, m: set<int>, dist: seq<real>, inf: real,
                 dd: seq<real>, exact: seq<real>)
    requires Nearest(s, k, m, dist, 1.0) && Nearest(t, k, m, dist, 1.0) && NonNegative(dist)
    requires Keys(s, k, inf, dd) && Keys(t, k, inf, exact)
    ensures dd[..k] == exact[..k]
  {
    hide Nearest;
    CloseToExact(s, t, k, m, dist, 1.0);
    forall i | 0 <= i < |s|
      ensures s[i].key == t[i].key
    {
      assert 1.0 * t[i].key == t[i].key;
    }
  }

  // With no error allowed, fixed-radius search returns brute force's count and its k distances,
  // padded alike when fewer than k points are in range.
  lemma {:induction false} RadiusAgrees(c: set<int>, s: seq<Item>, t: seq<Item>, k: nat, pts: seq<Point>, q: Point, sqRad: real,
                     inf: real, dd: seq<real>, exact: seq<real>)
    requires Points(pts, |q|)
    requires FixedRadius.Counted(c, Range(|pts|), Distances(pts, q), sqRad, 1.0)
    requires Nearest(s, k, c, Distances(pts, q), 1.0)
    requires Nearest(t, k, BruteForce.InRange(Distances(pts, q), |pts|, sqRad), Distances(pts, q), 1.0)
    requires Keys(s, k, inf, dd) && Keys(t, k, inf, exact)
    ensures |c| == |BruteForce.InRange(Distances(pts, q), |pts|, sqRad)|
    ensures dd[..k] == exact[..k]
  {
    hide Nearest, Distances;
    var dist := Distances(pts, q);
    FixedRadius.CountExact(c, Range(|pts|), dist, sqRad);
    assert c == BruteForce.InRange(dist, |pts|, sqRad);
    hide FixedRadius.Counted, BruteForce.InRange, Keys;
    SameKeys(s, t, k, c, dist, inf, dd, exact);
  }
}
