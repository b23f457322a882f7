// kd-trees and bd-trees over a point array (3rd/ANN/kd_tree.h, 3rd/ANN/bd_tree.h): leaves with
// buckets of point indices, splitting nodes and shrinking nodes.
module SpatialTrees {
  import opened Geometry
  import opened BoundLists

  // An empty leaf stands for the shared trivial leaf of the library.
  datatype Node =
    | Leaf(bkt: seq<int>)
    | Split(cd: int, cv: real, lo: real, hi: real, low: Node, high: Node)
    | Shrink(bnds: seq<HalfSpace>, inner: Node, outer: Node)

  const TRIVIAL := Leaf([])

  ghost predicate Points(pts: seq<Point>, dim: nat) {
    forall i :: 0 <= i < |pts| ==> |pts[i]| == dim
  }

  // The buckets in preorder.
  function Buckets(t: Node): seq<int> {
    match t
    case Leaf(bkt) => bkt
    case Split(_, _, _, _, low, high) => Buckets(low) + Buckets(high)
    case Shrink(_, inner, outer) => Buckets(inner) + Buckets(outer)
  }

  ghost function Members(t: Node): set<int> {
    match t
    case Leaf(bkt) => set i | i in bkt
    case Split(_, _, _, _, low, high) => Members(low) + Members(high)
    case Shrink(_, inner, outer) => Members(inner) + Members(outer)
  }

  ghost predicate NoRepeats(s: seq<int>) {
    forall i, j :: 0 <= i < j < |s| ==> s[i] != s[j]
  }

  // No point is stored twice.
  ghost predicate Disjoint(t: Node) {
    match t
    case Leaf(bkt) => NoRepeats(bkt)
    case Split(_, _, _, _, low, high) => Disjoint(low) && Disjoint(high) && Members(low) !! Members(high)
    case Shrink(_, inner, outer) => Disjoint(inner) && Disjoint(outer) && Members(inner) !! Members(outer)
  }

  ghost predicate BucketIn(bkt: seq<int>, cell: Box, pts: seq<Point>)
    requires BoxOf(cell, |cell.lo|) && Points(pts, |cell.lo|)
  {
    forall j :: 0 <= j < |bkt| ==> 0 <= bkt[j] < |pts| && Inside(cell, pts[bkt[j]])
  }

  // The inner cell of a shrinking node, rebuilt from its bounds, is a proper box within the cell
  // whose bound list is the node's.
  ghost predicate ShrinksTo(bnds: seq<HalfSpace>, cell: Box)
    requires BoxOf(cell, |cell.lo|)
  {
    Axes(bnds, |cell.lo|) &&
    var b := Projected(cell, bnds);
    Proper(b) && Within(b, cell) && bnds == Bounds(b, cell, |b.lo|)
  }

  // The shape every search relies on, for a node that covers the given cell.
  ghost predicate WellFormed(t: Node, cell: Box, pts: seq<Point>)
    requires BoxOf(cell, |cell.lo|) && Points(pts, |cell.lo|)
  {
    match t
    case Leaf(bkt) => BucketIn(bkt, cell, pts)
    case Split(cd, cv, lo, hi, low, high) =>
      && 0 <= cd < |cell.lo| && lo == cell.lo[cd] && hi == cell.hi[cd] && lo <= cv <= hi
      && WellFormed(low, LowCell(cell, cd, cv), pts) && WellFormed(high, HighCell(cell, cd, cv), pts)
    case Shrink(bnds, inner, outer) =>
      && ShrinksTo(bnds, cell)
      && WellFormed(inner, Projected(cell, bnds), pts) && WellFormed(outer, cell, pts)
  }

  // Every node except the trivial leaf stores a point.
  ghost predicate Populated(t: Node) {
    match t
    case Leaf(_) => true
    case Split(_, _, _, _, low, high) => Populated(low) && Populated(high) && Members(t) != {}
    case Shrink(_, inner, outer) => Populated(inner) && Populated(outer) && Members(t) != {}
  }

  lemma {:induction false} PopulatedMember(t: Node)
    requires Populated(t) && t != TRIVIAL
    ensures Members(t) != {}
  {
    if t.Leaf? {
      assert t.bkt[0] in Members(t);
    }
  }

  function Distances(pts: seq<Point>, q: Point): (r: seq<real>)
    requires Points(pts, |q|)
    ensures |r| == |pts|
    ensures forall i :: 0 <= i < |r| ==> r[i] == Dist(pts[i], q) && r[i] >= 0.0
  {
    seq(|pts|, i requires 0 <= i < |pts| => Dist(pts[i], q))
  }

  ghost predicate AllInside(m: set<int>, cell: Box, pts: seq<Point>)
    requires BoxOf(cell, |cell.lo|) && Points(pts, |cell.lo|)
  {
    forall i :: i in m ==> 0 <= i < |pts| && Inside(cell, pts[i])
  }

  lemma {:induction false} InsideWider(b: Box, wide: Box, p: Point)
    requires BoxOf(b, |p|) && BoxOf(wide, |p|)
    requires forall d :: 0 <= d < |p| ==> wide.lo[d] <= b.lo[d] && b.hi[d] <= wide.hi[d]
    requires Inside(b, p)
    ensures Inside(wide, p)
  {
  }

  lemma {:induction false} AllInsideWider(m: set<int>, b: Box, wide: Box, pts: seq<Point>)
    requires BoxOf(b, |wide.lo|) && BoxOf(wide, |wide.lo|) && Points(pts, |wide.lo|)
    requires forall d :: 0 <= d < |wide.lo| ==> wide.lo[d] <= b.lo[d] && b.hi[d] <= wide.hi[d]
    requires AllInside(m, b, pts)
    ensures AllInside(m, wide, pts)
  {
    forall i | i in m
      ensures Inside(wide, pts[i])
    {
      InsideWider(b, wide, pts[i]);
    }
  }

  lemma {:induction false} MembersInside(t: Node, cell: Box, pts: seq<Point>)
    requires BoxOf(cell, |cell.lo|) && Points(pts, |cell.lo|)
    requires WellFormed(t, cell, pts)
    ensures AllInside(Members(t), cell, pts)
    decreases t
  {
    match t
    case Leaf(bkt) =>
    case Split(cd, cv, lo, hi, low, high) =>
      MembersInside(low, LowCell(cell, cd, cv), pts);
      MembersInside(high, HighCell(cell, cd, cv), pts);
      AllInsideWider(Members(low), LowCell(cell, cd, cv), cell, pts);
      AllInsideWider(Members(high), HighCell(cell, cd, cv), cell, pts);
    case Shrink(bnds, inner, outer) =>
      MembersInside(inner, Projected(cell, bnds), pts);
      MembersInside(outer, cell, pts);
      AllInsideWider(Members(inner), Projected(cell, bnds), cell, pts);
  }

  // No point stored below a node is nearer to the query than any lower bound for its cell.
  lemma {:induction false} MembersFar(t: Node, cell: Box, pts: seq<Point>, q: Point, boxDist: real)
    requires BoxOf(cell, |q|) && Points(pts, |q|)
    requires WellFormed(t, cell, pts) && boxDist <= BoxDist(q, cell)
    ensures forall i :: i in Members(t) ==> 0 <= i < |pts| && boxDist <= Distances(pts, q)[i]
  {
    MembersInside(t, cell, pts);
    forall i | i in Members(t)
      ensures 0 <= i < |pts| && boxDist <= Distances(pts, q)[i]
    {
      BoxDistBelow(q, cell, pts[i], |q|);
    }
  }

  // The inner distance a search computes at a shrinking node is a lower bound for the inner cell,
  // exact when the query lies in the cell.
  lemma {:induction false} InnerIsBound(bnds: seq<HalfSpace>, cell: Box, q: Point)
    requires BoxOf(cell, |q|) && ShrinksTo(bnds, cell)
    ensures Axes(bnds, |q|)
    ensures InnerTo(bnds, q, |bnds|) <= BoxDist(q, Projected(cell, bnds))
    ensures Inside(cell, q) ==> InnerTo(bnds, q, |bnds|) == BoxDist(q, Projected(cell, bnds))
  {
    InnerBelow(Projected(cell, bnds), cell, q, |q|);
  }

  // ------------------------------------------------------------------
  // Buckets and members

  lemma {:induction false} MembersAreBuckets(t: Node, i: int)
    ensures i in Members(t) <==> i in Buckets(t)
  {
    match t
    case Leaf(_) =>
    case Split(_, _, _, _, low, high) =>
      MembersAreBuckets(low, i);
      MembersAreBuckets(high, i);
    case Shrink(_, inner, outer) =>
      MembersAreBuckets(inner, i);
      MembersAreBuckets(outer, i);
  }

  lemma {:induction false} NoRepeatsParts(a: seq<int>, b: seq<int>)
    requires NoRepeats(a + b)
    ensures NoRepeats(a) && NoRepeats(b)
    ensures forall i :: i in a ==> i !in b
  {
    var s := a + b;
    forall i, j | 0 <= i < j < |a|
      ensures a[i] != a[j]
    {
      assert s[i] != s[j];
    }
    forall i, j | 0 <= i < j < |b|
      ensures b[i] != b[j]
    {
      assert s[|a| + i] != s[|a| + j];
    }
    forall i, j | 0 <= i < |a| && 0 <= j < |b|
      ensures a[i] != b[j]
    {
      assert s[i] != s[|a| + j];
    }
  }

  lemma {:induction false} ApartMembers(x: Node, y: Node)
    requires forall i :: i in Buckets(x) ==> i !in Buckets(y)
    ensures Members(x) !! Members(y)
  {
    hide Members, Buckets;
    forall i | i in Members(x)
      ensures i !in Members(y)
    {
      MembersAreBuckets(x, i);
      MembersAreBuckets(y, i);
    }
  }

  // Buckets without repetitions make the subtrees disjoint.
  lemma {:induction false} BucketsDisjoint(t: Node)
    requires NoRepeats(Buckets(t))
    ensures Disjoint(t)
  {
    match t
    case Leaf(_) =>
    case Split(_, _, _, _, low, high) =>
      NoRepeatsParts(Buckets(low), Buckets(high));
      BucketsDisjoint(low);
      BucketsDisjoint(high);
      ApartMembers(low, high);
    case Shrink(_, inner, outer) =>
      NoRepeatsParts(Buckets(inner), Buckets(outer));
      BucketsDisjoint(inner);
      BucketsDisjoint(outer);
      ApartMembers(inner, outer);
  }

  // Each leaf holds at most bsp points.
  ghost predicate SmallBuckets(t: Node, bsp: nat) {
    match t
    case Leaf(bkt) => |bkt| <= bsp
    case Split(_, _, _, _, low, high) => SmallBuckets(low, bsp) && SmallBuckets(high, bsp)
    case Shrink(_, inner, outer) => SmallBuckets(inner, bsp) && SmallBuckets(outer, bsp)
  }

  // A kd-tree has no shrinking nodes.
  ghost predicate NoShrink(t: Node) {
    match t
    case Leaf(_) => true
    case Split(_, _, _, _, low, high) => NoShrink(low) && NoShrink(high)
    case Shrink(_, _, _) => false
  }

  // ------------------------------------------------------------------
  // A tree with its points

  datatype Option<T> = None | Some(value: T)

  // An index structure; the root is missing exactly when there are no points.
  datatype Tree = Tree(dim: nat, pts: seq<Point>, bktSize: nat, box: Box, root: Option<Node>)

  ghost function Range(n: nat): (r: set<int>)
    ensures forall i :: i in r <==> 0 <= i < n
  {
    if n == 0 then {} else Range(n - 1) + {n - 1}
  }

  lemma {:induction false} RangeSize(n: nat)
    ensures |Range(n)| == n
  {
    if n > 0 {
      RangeSize(n - 1);
    }
  }

  ghost predicate ValidTree(t: Tree) {
    && Points(t.pts, t.dim)
    && (|t.pts| > 0 ==> t.root.Some?)
    && (t.root.Some? ==>
          && BoxOf(t.box, t.dim) && WellFormed(t.root.value, t.box, t.pts)
          && Disjoint(t.root.value) && Members(t.root.value) == Range(|t.pts|))
  }
}
