// Standard search of kd- and bd-trees for the k nearest points
// (3rd/ANN/kd_search.cpp, 3rd/ANN/bd_search.cpp), without a limit on the visited points.
module StandardSearch {
  import opened Geometry
  import opened BoundLists
  import opened KSmallest
  import opened NearestLists
  import opened SpatialTrees

  // Infinity exceeds every distance even after scaling.
  ghost predicate Beyond(inf: real, c: real, dist: seq<real>) {
    forall i :: 0 <= i < |dist| ==> c * dist[i] < inf
  }

  lemma {:induction false} ErrorFactor(eps: real)
    requires eps >= 0.0
    ensures (1.0 + eps) * (1.0 + eps) >= 1.0
    ensures eps == 0.0 ==> (1.0 + eps) * (1.0 + eps) == 1.0
  {
    SqMonotone(1.0, 1.0 + eps);
  }

  lemma {:induction false} LimitPositive(s: seq<Item>, k: nat, m: set<int>, dist: seq<real>, c: real, inf: real, i: nat)
    requires Nearest(s, k, m, dist, c) && NonNegative(dist) && c >= 1.0
    requires i < |dist| && Beyond(inf, c, dist)
    ensures MaxOf(s, k, inf) >= 0.0
  {
    ScaleUp(c, dist[i]);
  }

  // A subtree whose scaled lower bound reaches the current limit may be skipped.
  lemma {:induction false} Skip(s: seq<Item>, k: nat, m: set<int>, x: set<int>, dist: seq<real>, c: real, inf: real, boxDist: real)
    requires Nearest(s, k, m, dist, c) && k > 0 && c >= 1.0 && Beyond(inf, c, dist)
    requires forall i :: i in x ==> 0 <= i < |dist| && boxDist <= dist[i]
    requires boxDist * c >= MaxOf(s, k, inf)
    ensures Nearest(s, k, m + x, dist, c)
  {
    hide Nearest;
    forall i | i in x
      ensures 0 <= i < |dist| && c * dist[i] < inf && c * dist[i] >= MaxOf(s, k, inf)
    {
      Scaled(c, boxDist, dist[i]);
    }
    PruneKeeps(s, k, m, x, dist, c, inf);
  }

  // The state the recursion shares.
  class Searcher {
    const pts: seq<Point>
    const q: Point
    const maxErr: real
    const mk: MinK

    constructor (pts: seq<Point>, q: Point, maxErr: real, mk: MinK)
      ensures this.pts == pts && this.q == q && this.maxErr == maxErr && this.mk == mk
    {
      this.pts := pts;
      this.q := q;
      this.maxErr := maxErr;
      this.mk := mk;
    }

    ghost predicate Ready()
      reads mk
    {
      && mk.Valid() && mk.k > 0 && maxErr >= 1.0
      && Points(pts, |q|) && Beyond(mk.inf, maxErr, Distances(pts, q))
    }

    // The list is nearest among the points of m, up to the error factor.
    ghost predicate Done(m: set<int>)
      reads mk, mk.mk
    {
      mk.Valid() && Points(pts, |q|) && Nearest(mk.Contents(), mk.k, m, Distances(pts, q), maxErr)
    }

    method VisitPoint(i: int, minDist: real, ghost m: set<int>) returns (limit: real)
      requires Ready() && Done(m) && 0 <= i < |pts| && i !in m
      requires minDist == MaxOf(mk.Contents(), mk.k, mk.inf)
      modifies mk`n, mk.mk
      ensures Ready() && Done(m + {i})
      ensures limit == MaxOf(mk.Contents(), mk.k, mk.inf)
    {
      hide Nearest, Distances, MaxOf, Insert;
      ghost var s := mk.Contents();
      ghost var dist := Distances(pts, q);
      limit := minDist;
      LimitPositive(s, mk.k, m, dist, maxErr, mk.inf, i);
      var d, within := BoundedDist(|q|, pts[i], q, minDist);
      if within {
        mk.Add(d, i);
        limit := mk.MaxKey();
        InsertKeeps(s, mk.k, m, dist, maxErr, i);
      } else {
        ScaleUp(maxErr, dist[i]);
        Skip(s, mk.k, m, {i}, dist, maxErr, mk.inf, dist[i]);
      }
    }

    method VisitLeaf(bkt: seq<int>, ghost cell: Box, ghost m: set<int>)
      requires Ready() && Done(m) && BoxOf(cell, |q|) && BucketIn(bkt, cell, pts)
      requires NoRepeats(bkt) && m !! Members(Leaf(bkt))
      modifies mk`n, mk.mk
      ensures Ready() && Done(m + Members(Leaf(bkt)))
    {
      hide Nearest, Distances, MaxOf, Beyond;
      var minDist := mk.MaxKey();
      ghost var seen := m;
      for i := 0 to |bkt|
        invariant Ready() && Done(seen)
        invariant seen == m + set j | 0 <= j < i :: bkt[j]
        invariant minDist == MaxOf(mk.Contents(), mk.k, mk.inf)
      {
        assert bkt[i] in Members(Leaf(bkt));
        minDist := VisitPoint(bkt[i], minDist, seen);
        seen := seen + {bkt[i]};
      }
      assert seen == m + Members(Leaf(bkt));
    }

    // Visits the further child unless its scaled box distance reaches the current limit.
    method VisitFar(t: Node, boxDist: real, ghost cell: Box, ghost m: set<int>, ghost exact: bool)
      requires Ready() && Done(m) && BoxOf(cell, |q|) && WellFormed(t, cell, pts)
      requires Disjoint(t) && m !! Members(t)
      requires boxDist <= BoxDist(q, cell) && (exact ==> boxDist == BoxDist(q, cell))
      modifies mk`n, mk.mk
      ensures Ready() && Done(m + Members(t))
      decreases t, 2
    {
      hide Nearest, Distances, MaxOf, Beyond, Members, WellFormed, Disjoint, BoxDist;
      var limit := mk.MaxKey();
      if boxDist * maxErr < limit {
        Visit(t, boxDist, cell, m, exact);
      } else {
        MembersFar(t, cell, pts, q, boxDist);
        Skip(mk.Contents(), mk.k, m, Members(t), Distances(pts, q), maxErr, mk.inf, boxDist);
      }
    }

    // Searches a node whose cell is at least boxDist away. While no shrinking node has been
    // entered, exact records that boxDist is the distance of the cell itself.
    method Visit(t: Node, boxDist: real, ghost cell: Box, ghost m: set<int>, ghost exact: bool)
      requires Ready() && Done(m) && BoxOf(cell, |q|) && WellFormed(t, cell, pts)
      requires Disjoint(t) && m !! Members(t)
      requires boxDist <= BoxDist(q, cell) && (exact ==> boxDist == BoxDist(q, cell))
      modifies mk`n, mk.mk
      ensures Ready() && Done(m + Members(t))
      decreases t, 1
    {
      hide Nearest, Distances, MaxOf, Beyond, BoxDist, ShrinksTo, Projected, FarDist;
      match t
      case Leaf(bkt) =>
        VisitLeaf(bkt, cell, m);
      case Split(cd, cv, lo, hi, low, high) =>
        CrossPlane(q, cell, cd, cv, boxDist);
        if q[cd] - cv < 0.0 {
          Visit(low, boxDist, LowCell(cell, cd, cv), m, exact);
          var far := FarDistance(boxDist, q[cd], cv, lo, hi);
          VisitFar(high, far, HighCell(cell, cd, cv), m + Members(low), exact);
          assert m + Members(t) == m + Members(low) + Members(high);
        } else {
          Visit(high, boxDist, HighCell(cell, cd, cv), m, exact);
          var far := FarDistance(boxDist, q[cd], cv, lo, hi);
          VisitFar(low, far, LowCell(cell, cd, cv), m + Members(high), exact);
          assert m + Members(t) == m + Members(high) + Members(low);
        }
      case Shrink(bnds, inner, outer) =>
        VisitShrink(t, boxDist, cell, m, exact);
    }

    method VisitShrink(t: Node, boxDist: real, ghost cell: Box, ghost m: set<int>, ghost exact: bool)
      requires Ready() && Done(m) && BoxOf(cell, |q|) && WellFormed(t, cell, pts)
      requires Disjoint(t) && m !! Members(t) && t.Shrink?
      requires boxDist <= BoxDist(q, cell) && (exact ==> boxDist == BoxDist(q, cell))
      modifies mk`n, mk.mk
      ensures Ready() && Done(m + Members(t))
      decreases t, 0
    {
      hide Nearest, Distances, MaxOf, Beyond, BoxDist, Projected;
      var inner, outer := t.inner, t.outer;
      var innerDist := InnerDistance(t.bnds, q);
      InnerIsBound(t.bnds, cell, q);
      if innerDist <= boxDist {
        Visit(inner, innerDist, Projected(cell, t.bnds), m, false);
        Visit(outer, boxDist, cell, m + Members(inner), exact);
        assert m + Members(t) == m + Members(inner) + Members(outer);
      } else {
        Visit(outer, boxDist, cell, m, exact);
        Visit(inner, innerDist, Projected(cell, t.bnds), m + Members(outer), false);
        assert m + Members(t) == m + Members(outer) + Members(inner);
      }
    }
  }

  // The k nearest points of the tree, up to the factor (1 + eps) squared, in the caller's arrays.
  // More points than there are is an error.
  method KSearch(t: Tree, q: Point, k: nat, nn: array<int>, dd: array<real>, eps: real, inf: real)
    returns (ok: bool, ghost s: seq<Item>)
    requires ValidTree(t) && |q| == t.dim && eps >= 0.0 && 0 < k <= nn.Length && k <= dd.Length
    requires Beyond(inf, (1.0 + eps) * (1.0 + eps), Distances(t.pts, q))
    modifies nn, dd
    ensures ok <==> k <= |t.pts|
    ensures ok ==> Nearest(s, k, Range(|t.pts|), Distances(t.pts, q), (1.0 + eps) * (1.0 + eps))
    ensures ok ==> Indices(s, k, nn[..]) && Keys(s, k, inf, dd[..])
  {
    hide Nearest, Distances, WellFormed, Disjoint, BoxDist, Members, Range, Indices, Keys;
    s := [];
    if k > |t.pts| {
      return false, s;
    }
    var maxErr := (1.0 + eps) * (1.0 + eps);
    ErrorFactor(eps);
    var mk := new MinK(k, inf);
    var search := new Searcher(t.pts, q, maxErr, mk);
    NearestEmpty(k, Distances(t.pts, q), maxErr);
    var boxDist := BoxDistance(q, t.box, t.dim);
    search.Visit(t.root.value, boxDist, t.box, {}, true);
    s := mk.Contents();
    assert {} + Members(t.root.value) == Range(|t.pts|);
    Extract(mk, k, nn, dd);
    ok := true;
  }
}
