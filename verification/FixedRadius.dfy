// Fixed-radius search of kd- and bd-trees (3rd/ANN/kd_fix_rad_search.cpp,
// 3rd/ANN/bd_fix_rad_search.cpp): counts the points in range and lists the k nearest of them.
module FixedRadius {
  import opened Geometry
  import opened BoundLists
  import opened KSmallest
  import opened NearestLists
  import opened SpatialTrees
  import StandardSearch

  // Of the points of m, those of c were counted: none beyond the radius, and every one whose
  // scaled distance is within it.
  ghost predicate Counted(c: set<int>, m: set<int>, dist: seq<real>, sqRad: real, maxErr: real) {
    && c <= m
    && (forall i :: i in m ==> 0 <= i < |dist|)
    && (forall i :: i in c ==> dist[i] <= sqRad)
    && (forall i :: i in m && maxErr * dist[i] <= sqRad ==> i in c)
  }

  lemma {:induction false} CountOne(c: set<int>, m: set<int>, dist: seq<real>, sqRad: real, maxErr: real, i: int)
    requires Counted(c, m, dist, sqRad, maxErr) && 0 <= i < |dist| && maxErr >= 1.0 && NonNegative(dist)
    ensures dist[i] <= sqRad ==> Counted(c + {i}, m + {i}, dist, sqRad, maxErr)
    ensures dist[i] > sqRad ==> Counted(c, m + {i}, dist, sqRad, maxErr)
  {
    ScaleUp(maxErr, dist[i]);
  }

  lemma {:induction false} CountNone(c: set<int>, m: set<int>, x: set<int>, dist: seq<real>, sqRad: real, maxErr: real, boxDist: real)
    requires Counted(c, m, dist, sqRad, maxErr) && maxErr >= 1.0
    requires boxDist * maxErr > sqRad
    requires forall i :: i in x ==> 0 <= i < |dist| && boxDist <= dist[i]
    ensures Counted(c, m + x, dist, sqRad, maxErr)
  {
    forall i | i in x
      ensures maxErr * dist[i] > sqRad
    {
      Scaled(maxErr, boxDist, dist[i]);
    }
  }

  // With no error allowed exactly the points within the radius are counted.
  lemma {:induction false} CountExact(c: set<int>, m: set<int>, dist: seq<real>, sqRad: real)
    requires Counted(c, m, dist, sqRad, 1.0)
    ensures forall i :: i in c <==> i in m && dist[i] <= sqRad
  {
    forall i | i in m && dist[i] <= sqRad
      ensures i in c
    {
      assert 1.0 * dist[i] <= sqRad;
    }
  }

  class Searcher {
    const pts: seq<Point>
    const q: Point
    const sqRad: real
    const maxErr: real
    const mk: MinK
    var inRange: nat

    constructor (pts: seq<Point>, q: Point, sqRad: real, maxErr: real, mk: MinK)
      ensures this.pts == pts && this.q == q && this.sqRad == sqRad && this.maxErr == maxErr && this.mk == mk
      ensures inRange == 0
    {
      this.pts := pts;
      this.q := q;
      this.sqRad := sqRad;
      this.maxErr := maxErr;
      this.mk := mk;
      inRange := 0;
    }

    ghost predicate Ready()
      reads mk
    {
      mk.Valid() && maxErr >= 1.0 && Points(pts, |q|) && (|q| > 0 || sqRad >= 0.0)
    }

    // The points of c among those of m were counted and offered to the list.
    ghost predicate Done(c: set<int>, m: set<int>)
      reads this, mk, mk.mk
    {
      && mk.Valid() && Points(pts, |q|) && inRange == |c|
      && Counted(c, m, Distances(pts, q), sqRad, maxErr)
      && Nearest(mk.Contents(), mk.k, c, Distances(pts, q), 1.0)
    }

    method VisitLeaf(bkt: seq<int>, ghost cell: Box, ghost c: set<int>, ghost m: set<int>)
      returns (ghost c2: set<int>)
      requires Ready() && Done(c, m) && BoxOf(cell, |q|) && BucketIn(bkt, cell, pts)
      requires NoRepeats(bkt) && m !! Members(Leaf(bkt))
      modifies this`inRange, mk`n, mk.mk
      ensures Ready() && Done(c2, m + Members(Leaf(bkt)))
    {
      hide Nearest, Distances, Counted, Insert;
      c2 := c;
      ghost var seen := m;
      for i := 0 to |bkt|
        invariant Ready() && Done(c2, seen)
        invariant seen == m + set j | 0 <= j < i :: bkt[j]
      {
        assert bkt[i] in Members(Leaf(bkt));
        c2 := VisitPoint(bkt[i], c2, seen);
        seen := seen + {bkt[i]};
      }
      assert seen == m + Members(Leaf(bkt));
    }

    method VisitPoint(i: int, ghost c: set<int>, ghost m: set<int>) returns (ghost c2: set<int>)
      requires Ready() && Done(c, m) && 0 <= i < |pts| && i !in m
      modifies this`inRange, mk`n, mk.mk
      ensures Ready() && Done(c2, m + {i})
    {
      hide Nearest, Distances, Insert;
      ghost var dist := Distances(pts, q);
      var d, within := BoundedDist(|q|, pts[i], q, sqRad);
      CountOne(c, m, dist, sqRad, maxErr, i);
      c2 := c;
      if within {
        InsertKeeps(mk.Contents(), mk.k, c, dist, 1.0, i);
        mk.Add(d, i);
        inRange := inRange + 1;
        c2 := c + {i};
      }
    }

    method VisitFar(t: Node, boxDist: real, ghost cell: Box, ghost c: set<int>, ghost m: set<int>)
      returns (ghost c2: set<int>)
      requires Ready() && Done(c, m) && BoxOf(cell, |q|) && WellFormed(t, cell, pts)
      requires Disjoint(t) && m !! Members(t) && boxDist <= BoxDist(q, cell)
      modifies this`inRange, mk`n, mk.mk
      ensures Ready() && Done(c2, m + Members(t))
      decreases t, 2
    {
      hide Nearest, Distances, Members, WellFormed, Disjoint, BoxDist, Counted;
      if boxDist * maxErr <= sqRad {
        c2 := Visit(t, boxDist, cell, c, m);
      } else {
        MembersFar(t, cell, pts, q, boxDist);
        CountNone(c, m, Members(t), Distances(pts, q), sqRad, maxErr, boxDist);
        c2 := c;
      }
    }

    method Visit(t: Node, boxDist: real, ghost cell: Box, ghost c: set<int>, ghost m: set<int>)
      returns (ghost c2: set<int>)
      requires Ready() && Done(c, m) && BoxOf(cell, |q|) && WellFormed(t, cell, pts)
      requires Disjoint(t) && m !! Members(t) && boxDist <= BoxDist(q, cell)
      modifies this`inRange, mk`n, mk.mk
      ensures Ready() && Done(c2, m + Members(t))
      decreases t, 1
    {
      hide Nearest, Distances, BoxDist, ShrinksTo, Projected, FarDist, Counted;
      match t
      case Leaf(bkt) =>
        c2 := VisitLeaf(bkt, cell, c, m);
      case Split(cd, cv, lo, hi, low, high) =>
        CrossPlane(q, cell, cd, cv, boxDist);
        if q[cd] - cv < 0.0 {
          c2 := Visit(low, boxDist, LowCell(cell, cd, cv), c, m);
          var far := FarDistance(boxDist, q[cd], cv, lo, hi);
          c2 := VisitFar(high, far, HighCell(cell, cd, cv), c2, m + Members(low));
          assert m + Members(t) == m + Members(low) + Members(high);
        } else {
          c2 := Visit(high, boxDist, HighCell(cell, cd, cv), c, m);
          var far := FarDistance(boxDist, q[cd], cv, lo, hi);
          c2 := VisitFar(low, far, LowCell(cell, cd, cv), c2, m + Members(high));
          assert m + Members(t) == m + Members(high) + Members(low);
        }
      case Shrink(bnds, inner, outer) =>
        c2 := VisitShrink(t, boxDist, cell, c, m);
    }

    method VisitShrink(t: Node, boxDist: real, ghost cell: Box, ghost c: set<int>, ghost m: set<int>)
      returns (ghost c2: set<int>)
      requires Ready() && Done(c, m) && BoxOf(cell, |q|) && WellFormed(t, cell, pts)
      requires Disjoint(t) && m !! Members(t) && t.Shrink? && boxDist <= BoxDist(q, cell)
      modifies this`inRange, mk`n, mk.mk
      ensures Ready() && Done(c2, m + Members(t))
      decreases t, 0
    {
      hide Nearest, Distances, BoxDist, Projected, ShrinksTo, Counted;
      var inner, outer := t.inner, t.outer;
      InnerIsBound(t.bnds, cell, q);
      var innerDist := InnerDistance(t.bnds, q);
      if innerDist <= boxDist {
        c2 := Visit(inner, innerDist, Projected(cell, t.bnds), c, m);
        c2 := Visit(outer, boxDist, cell, c2, m + Members(inner));
        assert m + Members(t) == m + Members(inner) + Members(outer);
      } else {
        c2 := Visit(outer, boxDist, cell, c, m);
        c2 := Visit(inner, innerDist, Projected(cell, t.bnds), c2, m + Members(outer));
        assert m + Members(t) == m + Members(outer) + Members(inner);
      }
    }
  }

  // Counts points within the radius and reports the k nearest of those it counted.
  method FRSearch(t: Tree, q: Point, sqRad: real, k: nat, nn: array?<int>, dd: array?<real>, eps: real, inf: real)
    returns (count: nat, ghost c: set<int>, ghost s: seq<Item>)
    requires ValidTree(t) && |t.pts| > 0 && |q| == t.dim && eps >= 0.0 && (t.dim > 0 || sqRad >= 0.0)
    requires nn != null ==> k <= nn.Length
    requires dd != null ==> k <= dd.Length
    modifies nn, dd
    ensures Counted(c, Range(|t.pts|), Distances(t.pts, q), sqRad, (1.0 + eps) * (1.0 + eps))
    ensures count == |c| && Nearest(s, k, c, Distances(t.pts, q), 1.0)
    ensures nn != null ==> Indices(s, k, nn[..])
    ensures dd != null ==> Keys(s, k, inf, dd[..])
  {
    hide Nearest, Distances, WellFormed, Disjoint, BoxDist, Members, Range, Indices, Keys;
    var maxErr := (1.0 + eps) * (1.0 + eps);
    StandardSearch.ErrorFactor(eps);
    var mk := new MinK(k, inf);
    var search := new Searcher(t.pts, q, sqRad, maxErr, mk);
    NearestEmpty(k, Distances(t.pts, q), 1.0);
    var boxDist := BoxDistance(q, t.box, t.dim);
    c := search.Visit(t.root.value, boxDist, t.box, {}, {});
    assert {} + Members(t.root.value) == Range(|t.pts|);
    count := search.inRange;
    s := mk.Contents();
    Extract(mk, k, nn, dd);
  }
}
