// Building bd-trees (3rd/ANN/bd_tree.cpp): the shrinking rules and the recursion that mixes
// splitting and shrinking nodes.
module BdBuilder {
  import opened Geometry
  import opened BoundLists
  import opened SpatialTrees
  import opened PointPartition
  import opened ShrinkRules
  import opened Splitters
  import opened TreeBuilder
  import opened TreeRules

  method LongestLength(lo: array<real>, hi: array<real>, dim: nat) returns (maxLength: real)
    requires lo.Length == dim && hi.Length == dim
    ensures maxLength == Longest(Box(lo[..], hi[..]), dim)
  {
    maxLength := 0.0;
    for i := 0 to dim
      invariant maxLength == Longest(Box(lo[..], hi[..]), i)
    {
      var length := hi[i] - lo[i];
      if length > maxLength {
        maxLength := length;
      }
    }
  }

  // The two sides of axis i, each drawn back out to the cell unless its gap is wide.
  method DrawSides(ghost tight: Box, cell: Box, maxLength: real, i: nat, lo: array<real>, hi: array<real>) returns (shrinkCt: nat)
    requires i < lo.Length == hi.Length && lo != hi && BoxOf(cell, lo.Length) && BoxOf(tight, lo.Length)
    requires lo[i] == tight.lo[i] && hi[i] == tight.hi[i]
    modifies lo, hi
    ensures Gaps(tight, cell, maxLength, i) + shrinkCt == Gaps(tight, cell, maxLength, i + 1)
    ensures lo[..] == old(lo[..])[i := Drawn(tight, cell, maxLength).lo[i]]
    ensures hi[..] == old(hi[..])[i := Drawn(tight, cell, maxLength).hi[i]]
  {
    shrinkCt := 0;
    var gapHi := cell.hi[i] - hi[i];
    if gapHi < maxLength * BD_GAP_THRESH {
      hi[i] := cell.hi[i];
    } else {
      shrinkCt := shrinkCt + 1;
    }
    var gapLo := lo[i] - cell.lo[i];
    if gapLo < maxLength * BD_GAP_THRESH {
      lo[i] := cell.lo[i];
    } else {
      shrinkCt := shrinkCt + 1;
    }
  }

  method DrawBox(ghost tight: Box, cell: Box, maxLength: real, dim: nat, lo: array<real>, hi: array<real>) returns (shrinkCt: nat)
    requires lo.Length == hi.Length == dim && lo != hi && BoxOf(cell, dim) && BoxOf(tight, dim)
    requires lo[..] == tight.lo && hi[..] == tight.hi
    modifies lo, hi
    ensures shrinkCt == Gaps(tight, cell, maxLength, dim)
    ensures Box(lo[..], hi[..]) == Drawn(tight, cell, maxLength)
  {
    hide Drawn;
    ghost var drawn := Drawn(tight, cell, maxLength);
    shrinkCt := 0;
    for i := 0 to dim
      invariant shrinkCt == Gaps(tight, cell, maxLength, i)
      invariant forall e :: 0 <= e < i ==> lo[..][e] == drawn.lo[e] && hi[..][e] == drawn.hi[e]
      invariant forall e :: i <= e < dim ==> lo[..][e] == tight.lo[e] && hi[..][e] == tight.hi[e]
    {
      assert lo[..][i] == tight.lo[i] && hi[..][i] == tight.hi[i];
      var more := DrawSides(tight, cell, maxLength, i, lo, hi);
      shrinkCt := shrinkCt + more;
    }
    assert lo[..] == drawn.lo && hi[..] == drawn.hi;
  }

  method TrySimpleShrink(pts: seq<Point>, pidx: array<int>, base: nat, n: nat, dim: nat, cell: Box,
                         lo: array<real>, hi: array<real>)
    returns (decomp: Decomp)
    requires Indexes(pidx[..], pts, dim) && base + n <= pidx.Length && n > 0 && BoxOf(cell, dim)
    requires lo.Length == dim && hi.Length == dim && lo != hi
    requires Enclosed(pts, pidx[..], base, n, cell, dim)
    modifies lo, hi
    ensures InnerOk(Box(lo[..], hi[..]), cell, dim)
    ensures Box(lo[..], hi[..]) == SimpleBox(pts, pidx[..], base, n, cell, dim)
    ensures decomp == SimpleChoice(pts, pidx[..], base, n, cell, dim)
  {
    EnclRect(pts, pidx, base, n, dim, lo, hi);
    ghost var tight := Box(lo[..], hi[..]);
    TightInner(pts, pidx[..], base, n, cell, tight, dim);
    TightIs(pts, pidx[..], base, n, tight, dim);
    hide InnerOk, Enclosed, Tight, TightBox, Drawn, Longest, Indexes, Gaps;
    var maxLength := LongestLength(lo, hi, dim);
    DrawnBetween(tight, cell, maxLength, dim);
    var shrinkCt := DrawBox(tight, cell, maxLength, dim, lo, hi);
    decomp := if shrinkCt >= BD_CT_THRESH then ShrinkCell else SplitCell;
  }

  // ------------------------------------------------------------------
  // The centroid rule: split the larger part again and again until half of the points are left

  lemma {:induction false} CutInner(inner: Box, cell: Box, dim: nat, cd: nat, cv: real)
    requires BoxOf(cell, dim) && InnerOk(inner, cell, dim) && cd < dim && inner.lo[cd] <= cv <= inner.hi[cd]
    ensures InnerOk(LowCell(inner, cd, cv), cell, dim) && InnerOk(HighCell(inner, cd, cv), cell, dim)
  {
  }

  lemma {:induction false} CellItself(pts: seq<Point>, s: seq<int>, base: nat, n: nat, cell: Box, dim: nat)
    requires Indexes(s, pts, dim) && base + n <= |s| && n > 0 && BoxOf(cell, dim) && Enclosed(pts, s, base, n, cell, dim)
    ensures InnerOk(cell, cell, dim)
  {
    forall d | 0 <= d < dim
      ensures cell.lo[d] <= cell.hi[d]
    {
      EnclosedValue(pts, s, base, n, cell, d, dim, 0);
    }
  }

  // One split of the remaining points. The box shrinks to the larger part's side.
  method CentroidStep(rule: SplitRule, pts: seq<Point>, pidx: array<int>, sub: nat, nSub: nat, dim: nat, ghost cell: Box,
                      lo: array<real>, hi: array<real>)
    returns (sub2: nat, nSub2: nat)
    requires Indexes(pidx[..], pts, dim) && sub + nSub <= pidx.Length && nSub >= 2 && dim > 0 && BoxOf(cell, dim)
    requires lo.Length == dim && hi.Length == dim && lo != hi && InnerOk(Box(lo[..], hi[..]), cell, dim)
    requires Enclosed(pts, pidx[..], sub, nSub, Box(lo[..], hi[..]), dim)
    modifies pidx, lo, hi
    ensures Indexes(pidx[..], pts, dim) && Rearranged(pidx[..], old(pidx[..]), sub, sub + nSub)
    ensures sub <= sub2 && sub2 + nSub2 <= sub + nSub && nSub / 2 <= nSub2 < nSub && (rule == Standard ==> nSub2 == nSub / 2)
    ensures InnerOk(Box(lo[..], hi[..]), cell, dim)
    ensures Enclosed(pts, pidx[..], sub2, nSub2, Box(lo[..], hi[..]), dim)
    ensures Halved(rule, pts, Stage(old(pidx[..])[sub..sub + nSub], old(Box(lo[..], hi[..]))), Stage(pidx[..][sub2..sub2 + nSub2], Box(lo[..], hi[..])), dim)
  {
    hide Enclosed, Indexes, Rearranged, InnerOk, SplitBy, Halved;
    ghost var box := Box(lo[..], hi[..]);
    ghost var s0 := pidx[..];
    var cd, cv, nLo := SplitPoints(rule, pts, pidx, sub, Box(lo[..], hi[..]), nSub, dim);
    StageCut(rule, pts, s0, pidx[..], sub, nSub, nLo, box, cd, cv, dim);
    SidesEnclosed(pts, pidx[..], sub, nSub, box, dim, cd, cv, nLo);
    CutInner(box, cell, dim, cd, cv);
    if nLo >= nSub / 2 {
      hi[cd] := cv;
      assert Box(lo[..], hi[..]) == LowCell(box, cd, cv);
      sub2, nSub2 := sub, nLo;
    } else {
      lo[cd] := cv;
      assert Box(lo[..], hi[..]) == HighCell(box, cd, cv);
      sub2, nSub2 := sub + nLo, nSub - nLo;
    }
  }

  // Where the splitting of one centroid shrink stands after k splits: what is left of the points and
  // the box cut down to it.
  ghost predicate Going(rule: SplitRule, pts: seq<Point>, s0: seq<int>, s: seq<int>, base: nat, n: nat, first: nat, left: nat, k: nat,
                        cell: Box, cur: Box, dim: nat) {
    && Indexes(s, pts, dim) && base <= first && first + left <= base + n <= |s0| && |s| == |s0| && BoxOf(cell, dim) && BoxOf(cur, dim)
    && 0 < left && n / 4 <= left && (k == 0 <==> left == n) && (rule == Standard ==> k <= 1 && (k == 1 ==> left == n / 2))
    && Rearranged(s, s0, base, base + n) && InnerOk(cur, cell, dim) && Enclosed(pts, s, first, left, cur, dim)
    && Reached(rule, pts, s0[base..base + n], cell, k, Stage(s[first..first + left], cur), dim)
  }

  lemma {:induction false} GoingNow(rule: SplitRule, pts: seq<Point>, s0: seq<int>, s: seq<int>, base: nat, n: nat, first: nat, left: nat, k: nat,
                                    cell: Box, cur: Box, dim: nat)
    requires Going(rule, pts, s0, s, base, n, first, left, k, cell, cur, dim)
    ensures Indexes(s, pts, dim) && base <= first && first + left <= base + n <= |s0| && |s| == |s0| && BoxOf(cell, dim) && BoxOf(cur, dim)
    ensures 0 < left && n / 4 <= left && (k == 0 <==> left == n) && (rule == Standard ==> k <= 1)
    ensures Rearranged(s, s0, base, base + n) && InnerOk(cur, cell, dim) && Enclosed(pts, s, first, left, cur, dim)
    ensures Reached(rule, pts, s0[base..base + n], cell, k, Stage(s[first..first + left], cur), dim)
  {
    hide Enclosed, Indexes, Rearranged, InnerOk, Reached;
  }

  lemma {:induction false} GoingFirst(rule: SplitRule, pts: seq<Point>, s: seq<int>, base: nat, n: nat, cell: Box, dim: nat)
    requires Indexes(s, pts, dim) && base + n <= |s| && n > 0 && BoxOf(cell, dim) && Enclosed(pts, s, base, n, cell, dim)
    ensures Going(rule, pts, s, s, base, n, base, n, 0, cell, cell, dim)
  {
    RearrangedRefl(s, base, base + n);
    CellItself(pts, s, base, n, cell, dim);
    AtFirst(rule, pts, s[base..base + n], cell, dim);
    hide Enclosed, Indexes, Rearranged, InnerOk, Reached;
  }

  lemma {:induction false} GoingNext(rule: SplitRule, pts: seq<Point>, s0: seq<int>, s1: seq<int>, s2: seq<int>, base: nat, n: nat,
                                     first: nat, left: nat, first2: nat, left2: nat, k: nat, cell: Box, cur: Box, next: Box, dim: nat)
    requires Going(rule, pts, s0, s1, base, n, first, left, k, cell, cur, dim) && left > n / 2
    requires Indexes(s2, pts, dim) && Rearranged(s2, s1, first, first + left) && |s2| == |s1| && BoxOf(next, dim)
    requires first <= first2 && first2 + left2 <= first + left && left / 2 <= left2 < left && 0 < left2 && (rule == Standard ==> left2 == left / 2)
    requires InnerOk(next, cell, dim) && Enclosed(pts, s2, first2, left2, next, dim)
    requires Halved(rule, pts, Stage(s1[first..first + left], cur), Stage(s2[first2..first2 + left2], next), dim)
    ensures Going(rule, pts, s0, s2, base, n, first2, left2, k + 1, cell, next, dim)
  {
    hide Enclosed, Indexes, Rearranged, InnerOk, Reached, Halved;
    RearrangedWider(s2, s1, first, first + left, base, base + n);
    RearrangedTrans(s2, s1, s0, base, base + n);
    ReachedNext(rule, pts, s0[base..base + n], cell, k, Stage(s1[first..first + left], cur), Stage(s2[first2..first2 + left2], next), dim);
  }

  // One more split within the whole segment.
  method CentroidRound(rule: SplitRule, pts: seq<Point>, pidx: array<int>, ghost base: nat, ghost n: nat, first: nat, left: nat, ghost k: nat, dim: nat, ghost cell: Box,
                       lo: array<real>, hi: array<real>, ghost s0: seq<int>)
    returns (first2: nat, left2: nat)
    requires left >= 2 && dim > 0 && left > n / 2 && lo.Length == dim && hi.Length == dim && lo != hi
    requires Going(rule, pts, s0, pidx[..], base, n, first, left, k, cell, Box(lo[..], hi[..]), dim)
    modifies pidx, lo, hi
    ensures left2 < left && Going(rule, pts, s0, pidx[..], base, n, first2, left2, k + 1, cell, Box(lo[..], hi[..]), dim)
  {
    hide Enclosed, Indexes, Rearranged, InnerOk, Reached, Halved, Going;
    ghost var s1 := pidx[..];
    ghost var box1 := Box(lo[..], hi[..]);
    GoingNow(rule, pts, s0, s1, base, n, first, left, k, cell, box1, dim);
    first2, left2 := CentroidStep(rule, pts, pidx, first, left, dim, cell, lo, hi);
    GoingNext(rule, pts, s0, s1, pidx[..], base, n, first, left, first2, left2, k, cell, box1, Box(lo[..], hi[..]), dim);
  }

  // What is left when the splitting stops is enclosed by the inner box, and is no more than half of
  // the points but at least a quarter of them, rounded down; the number of splits decides.
  method TryCentroidShrink(rule: SplitRule, pts: seq<Point>, pidx: array<int>, base: nat, n: nat, dim: nat, cell: Box,
                           lo: array<real>, hi: array<real>)
    returns (decomp: Decomp, ghost sub: nat, ghost nSub: nat, ghost nSplits: nat)
    requires Indexes(pidx[..], pts, dim) && base + n <= pidx.Length && n >= 2 && dim > 0 && BoxOf(cell, dim)
    requires lo.Length == dim && hi.Length == dim && lo != hi
    requires Enclosed(pts, pidx[..], base, n, cell, dim)
    modifies pidx, lo, hi
    ensures Indexes(pidx[..], pts, dim) && Rearranged(pidx[..], old(pidx[..]), base, base + n)
    ensures InnerOk(Box(lo[..], hi[..]), cell, dim)
    ensures base <= sub && sub + nSub <= base + n && 0 < nSub && n / 4 <= nSub <= n / 2
    ensures Enclosed(pts, pidx[..], sub, nSub, Box(lo[..], hi[..]), dim)
    ensures nSplits > 0 && (decomp == ShrinkCell <==> 2 * nSplits > dim) && (rule == Standard ==> nSplits == 1)
    ensures Centred(rule, pts, old(pidx[..])[base..base + n], cell, nSplits, Stage(pidx[..][sub..sub + nSub], Box(lo[..], hi[..])), dim)
  {
    hide Enclosed, Indexes, Rearranged, InnerOk, Reached, Halved, Going;
    ghost var s0 := pidx[..];
    GoingFirst(rule, pts, s0, base, n, cell, dim);
    AssignRect(dim, lo, hi, cell);
    var first: nat, left: nat, splits: nat := base, n, 0;
    var nGoal := n / 2;
    assert Box(lo[..], hi[..]) == cell;
    while left > nGoal
      invariant Going(rule, pts, s0, pidx[..], base, n, first, left, splits, cell, Box(lo[..], hi[..]), dim)
      decreases left
    {
      first, left := CentroidRound(rule, pts, pidx, base, n, first, left, splits, dim, cell, lo, hi, s0);
      splits := splits + 1;
    }
    GoingNow(rule, pts, s0, pidx[..], base, n, first, left, splits, cell, Box(lo[..], hi[..]), dim);
    decomp := if splits * 2 > dim then ShrinkCell else SplitCell;
    sub, nSub, nSplits := first, left, splits;
  }

  lemma {:induction false} AtFirst(rule: SplitRule, pts: seq<Point>, all: seq<int>, cell: Box, dim: nat)
    ensures Reached(rule, pts, all, cell, 0, Stage(all, cell), dim)
  {
  }

  lemma {:induction false} CentroidDecided(decomp: Decomp, rule: SplitRule, pts: seq<Point>, all: seq<int>, cell: Box, k: nat, rest: seq<int>, inner: Box, dim: nat)
    requires Indexes(all, pts, dim) && all != [] && BoxOf(cell, dim) && Centred(rule, pts, all, cell, k, Stage(rest, inner), dim)
    requires decomp == ShrinkCell <==> 2 * k > dim
    ensures Decided(decomp, Centroid, rule, pts, all, cell, inner, dim)
  {
    hide Indexes, Centred;
  }

  lemma {:induction false} PlainDecided(rule: SplitRule, pts: seq<Point>, all: seq<int>, cell: Box, inner: Box, dim: nat)
    requires Indexes(all, pts, dim) && all != [] && BoxOf(cell, dim)
    ensures Decided(SplitCell, NoShrinking, rule, pts, all, cell, inner, dim)
  {
    hide Indexes;
  }

  method SelectDecomp(rule: SplitRule, shrink: ShrinkRule, pts: seq<Point>, pidx: array<int>, base: nat, n: nat, dim: nat,
                      cell: Box, lo: array<real>, hi: array<real>)
    returns (decomp: Decomp)
    requires Indexes(pidx[..], pts, dim) && base + n <= pidx.Length && n >= 2 && dim > 0 && BoxOf(cell, dim)
    requires lo.Length == dim && hi.Length == dim && lo != hi
    requires Enclosed(pts, pidx[..], base, n, cell, dim)
    modifies pidx, lo, hi
    ensures Indexes(pidx[..], pts, dim) && Rearranged(pidx[..], old(pidx[..]), base, base + n)
    ensures decomp == ShrinkCell ==> InnerOk(Box(lo[..], hi[..]), cell, dim)
    ensures NeverShrinks(rule, shrink, dim) ==> decomp == SplitCell
    ensures shrink == Simple ==>
              && pidx[..] == old(pidx[..]) && decomp == SimpleChoice(pts, pidx[..], base, n, cell, dim)
              && Box(lo[..], hi[..]) == SimpleBox(pts, pidx[..], base, n, cell, dim)
    ensures Decided(decomp, shrink, rule, pts, old(pidx[..])[base..base + n], cell, Box(lo[..], hi[..]), dim)
  {
    hide Enclosed, Indexes, Rearranged, InnerOk, SimpleChoice, SimpleBox, Decided, Centred;
    ghost var s0 := pidx[..];
    RearrangedRefl(s0, base, base + n);
    SegmentIndexes(pts, s0, base, n, dim);
    match shrink
    case NoShrinking =>
      decomp := SplitCell;
      PlainDecided(rule, pts, s0[base..base + n], cell, Box(lo[..], hi[..]), dim);
    case Simple =>
      decomp := TrySimpleShrink(pts, pidx, base, n, dim, cell, lo, hi);
      assert pidx[..] == s0;
      SimpleDecided(rule, pts, s0, base, n, cell, dim);
    case Centroid =>
      ghost var sub, nSub, nSplits;
      decomp, sub, nSub, nSplits := TryCentroidShrink(rule, pts, pidx, base, n, dim, cell, lo, hi);
      CentroidDecided(decomp, rule, pts, s0[base..base + n], cell, nSplits, pidx[..][sub..sub + nSub], Box(lo[..], hi[..]), dim);
  }

  // Under these rules no node shrinks: the centroid rule's median halves the points in one split,
  // too few splits for a shrink in two or more dimensions.
  predicate NeverShrinks(rule: SplitRule, shrink: ShrinkRule, dim: nat) {
    shrink == NoShrinking || (shrink == Centroid && rule == Standard && dim >= 2)
  }

  // ------------------------------------------------------------------

  // The points within the inner box, and the others, are enclosed by the boxes of their subtrees.
  lemma {:induction false} ShrinkEnclosed(pts: seq<Point>, s: seq<int>, base: nat, n: nat, cell: Box, inner: Box, nIn: nat, dim: nat)
    requires Indexes(s, pts, dim) && base + n <= |s| && nIn <= n && BoxOf(cell, dim) && BoxOf(inner, dim)
    requires Enclosed(pts, s, base, n, cell, dim) && InsideFirst(inner, pts, s[base..base + n], nIn, dim)
    ensures Enclosed(pts, s, base, nIn, inner, dim) && Enclosed(pts, s, base + nIn, n - nIn, cell, dim)
  {
    var seg := s[base..base + n];
    var all := Marks(pts, s, base, n, InBox(cell), dim);
    var ins := Marks(pts, s, base, nIn, InBox(inner), dim);
    var rest := Marks(pts, s, base + nIn, n - nIn, InBox(cell), dim);
    forall i | 0 <= i < nIn
      ensures ins[i]
    {
      assert seg[i] == s[base + i];
    }
    forall i | 0 <= i < |rest|
      ensures rest[i]
    {
      assert all[nIn + i];
    }
  }

  lemma {:induction false} JoinShrink(inn: Node, out: Node, pts: seq<Point>, a: seq<int>, b: seq<int>, cell: Box, inner: Box, dim: nat, bsp: nat)
    requires Points(pts, dim) && BoxOf(cell, dim) && InnerOk(inner, cell, dim) && |a + b| > 0
    requires Built(inn, pts, a, inner, dim, bsp) && Built(out, pts, b, cell, dim, bsp)
    ensures Built(Shrink(Bounds(inner, cell, dim), inn, out), pts, a + b, cell, dim, bsp)
  {
    var t := Shrink(Bounds(inner, cell, dim), inn, out);
    BoundsRoundTrip(inner, cell);
    assert (a + b)[0] in Buckets(t);
    MembersAreBuckets(t, (a + b)[0]);
  }

  lemma {:induction false} ShrinkSegments(inn: Node, out: Node, pts: seq<Point>, s0: seq<int>, s1: seq<int>, s2: seq<int>, s3: seq<int>,
                       base: nat, n: nat, nIn: nat, cell: Box, inner: Box, dim: nat, bsp: nat)
    requires Points(pts, dim) && BoxOf(cell, dim) && InnerOk(inner, cell, dim)
    requires 0 < n && nIn <= n && base + n <= |s0| == |s1| == |s2| == |s3|
    requires Rearranged(s1, s0, base, base + n)
    requires Rearranged(s2, s1, base, base + nIn) && Rearranged(s3, s2, base + nIn, base + n)
    requires Built(inn, pts, s2[base..base + nIn], inner, dim, bsp)
    requires Built(out, pts, s3[base + nIn..base + n], cell, dim, bsp)
    ensures Rearranged(s3, s0, base, base + n)
    ensures Built(Shrink(Bounds(inner, cell, dim), inn, out), pts, s3[base..base + n], cell, dim, bsp)
  {
    hide Built, Rearranged;
    Elsewhere(s3, s2, base + nIn, base + n, base, base + nIn);
    assert s3[base..base + n] == s3[base..base + nIn] + s3[base + nIn..base + n];
    JoinShrink(inn, out, pts, s3[base..base + nIn], s3[base + nIn..base + n], cell, inner, dim, bsp);
    RearrangedWider(s2, s1, base, base + nIn, base, base + n);
    RearrangedWider(s3, s2, base + nIn, base + n, base, base + n);
    RearrangedTrans(s2, s1, s0, base, base + n);
    RearrangedTrans(s3, s2, s0, base, base + n);
  }

  // The points of a segment stay enclosed by its cell while they are only permuted.
  lemma {:induction false} StillEnclosed(pts: seq<Point>, a: seq<int>, b: seq<int>, base: nat, n: nat, cell: Box, dim: nat)
    requires Indexes(a, pts, dim) && Indexes(b, pts, dim) && base + n <= |a| && base + n <= |b| && BoxOf(cell, dim)
    requires Rearranged(a, b, base, base + n) && Enclosed(pts, b, base, n, cell, dim)
    ensures Enclosed(pts, a, base, n, cell, dim)
  {
    MarksKept(pts, a, b, base, n, 0, InBox(cell), true, dim);
  }

  // ------------------------------------------------------------------
  // When the recursion ends

  // No shrinking, or simple shrinking when no more than a bucket of points coincide. After a
  // simple shrink the next node splits, so that two levels use up a point.
  ghost predicate MustEnd(pts: seq<Point>, s: seq<int>, base: nat, n: nat, dim: nat, bsp: nat, cell: Box,
                          rule: SplitRule, shrink: ShrinkRule, depth: nat)
    requires Indexes(s, pts, dim) && base + n <= |s| && BoxOf(cell, dim) && bsp > 0
  {
    || n <= bsp
    || (NeverShrinks(rule, shrink, dim) && depth >= n)
    || (shrink == Simple && Once(s) && Spaced(pts, bsp) &&
        (depth >= 2 * n || (depth >= 2 * n - 1 && SimpleChoice(pts, s, base, n, cell, dim) == SplitCell)))
  }

  ghost predicate MustEndBySplit(pts: seq<Point>, s: seq<int>, n: nat, dim: nat, bsp: nat, rule: SplitRule, shrink: ShrinkRule, depth: nat) {
    || (NeverShrinks(rule, shrink, dim) && depth >= n)
    || (shrink == Simple && Once(s) && Spaced(pts, bsp) && depth >= 2 * n - 1)
  }

  // More coincident points than a bucket holds: the simple rule shrinks to the same point for ever.
  ghost predicate CannotEnd(pts: seq<Point>, s: seq<int>, base: nat, n: nat, dim: nat, bsp: nat, shrink: ShrinkRule)
    requires Indexes(s, pts, dim) && base + n <= |s|
  {
    shrink == Simple && n > bsp && dim > 0 && Coincide(pts, s, base, n, dim)
  }

  lemma {:induction false} ChildEnds(pts: seq<Point>, s0: seq<int>, s: seq<int>, n: nat, base: nat, c: nat, dim: nat, bsp: nat, cell: Box,
                                     rule: SplitRule, shrink: ShrinkRule, depth: nat)
    requires MustEndBySplit(pts, s0, n, dim, bsp, rule, shrink, depth) && depth > 0 && c < n && bsp > 0
    requires Indexes(s, pts, dim) && base + c <= |s| && BoxOf(cell, dim) && multiset(s) == multiset(s0)
    ensures MustEnd(pts, s, base, c, dim, bsp, cell, rule, shrink, depth - 1)
  {
    hide Indexes, Spaced, SimpleChoice;
  }

  lemma {:induction false} OneIn(pts: seq<Point>, s: seq<int>, base: nat, n: nat, box: Box, nIn: nat, dim: nat, i: nat)
    requires Indexes(s, pts, dim) && base + n <= |s| && nIn <= n && BoxOf(box, dim) && i < n
    requires Enclosed(pts, s, base, n, box, dim) && InsideFirst(box, pts, s[base..base + n], nIn, dim)
    ensures i < nIn
  {
    assert Marks(pts, s, base, n, InBox(box), dim)[i];
    assert s[base..base + n][i] == s[base + i];
  }

  // A simple shrink takes in all the points.
  lemma {:induction false} TakesAll(pts: seq<Point>, s0: seq<int>, s1: seq<int>, base: nat, n: nat, cell: Box, inner: Box, nIn: nat, dim: nat)
    requires Indexes(s0, pts, dim) && Indexes(s1, pts, dim) && base + n <= |s0| && base + n <= |s1| && 0 < n && nIn <= n
    requires Rearranged(s1, s0, base, base + n) && BoxOf(cell, dim) && Enclosed(pts, s0, base, n, cell, dim)
    requires inner == SimpleBox(pts, s0, base, n, cell, dim) && InsideFirst(inner, pts, s1[base..base + n], nIn, dim)
    ensures nIn == n
  {
    var tight := TightBox(pts, s0, base, n, dim);
    TightInner(pts, s0, base, n, cell, tight, dim);
    SameTight(pts, s1, s0, base, n, dim);
    hide Indexes, Rearranged, Enclosed, InsideFirst, TightBox, Longest, Drawn, InnerOk, Within;
    DrawnIn(tight, cell, Longest(tight, dim), dim);
    WiderEncloses(pts, s1, base, n, inner, dim);
    OneIn(pts, s1, base, n, inner, nIn, dim, n - 1);
  }

  lemma {:induction false} DrawnIn(tight: Box, cell: Box, m: real, dim: nat)
    requires BoxOf(cell, dim) && InnerOk(tight, cell, dim)
    ensures Within(tight, Drawn(tight, cell, m))
  {
    DrawnBetween(tight, cell, m, dim);
  }

  // After a simple shrink the points that do not all coincide are split next.
  lemma {:induction false} SplitsNext(pts: seq<Point>, s0: seq<int>, s1: seq<int>, base: nat, n: nat, cell: Box, inner: Box, dim: nat, bsp: nat)
    requires Indexes(s0, pts, dim) && Indexes(s1, pts, dim) && base + n <= |s0| && base + n <= |s1| && n > bsp
    requires Rearranged(s1, s0, base, base + n) && BoxOf(cell, dim) && Once(s0) && Spaced(pts, bsp)
    requires inner == SimpleBox(pts, s0, base, n, cell, dim)
    ensures Once(s1) && SimpleChoice(pts, s1, base, n, inner, dim) == SplitCell
  {
    var tight := TightBox(pts, s0, base, n, dim);
    SameTight(pts, s1, s0, base, n, dim);
    NotFlat(pts, s0, base, n, dim, bsp);
    NoWideGap(tight, cell, Longest(tight, dim), dim);
    hide Indexes, Spaced, TightBox, Longest, Drawn, Gaps;
  }

  lemma {:induction false} StillCoincide(pts: seq<Point>, s0: seq<int>, s1: seq<int>, base: nat, n: nat, dim: nat)
    requires Indexes(s0, pts, dim) && Indexes(s1, pts, dim) && base + n <= |s0| && base + n <= |s1| && n > 0
    requires Rearranged(s1, s0, base, base + n)
    ensures Coincide(pts, s0, base, n, dim) ==> Coincide(pts, s1, base, n, dim)
  {
    SameTight(pts, s1, s0, base, n, dim);
    FlatIsSame(pts, s0, base, n, dim);
    FlatIsSame(pts, s1, base, n, dim);
    hide Indexes, Coincide, TightBox, Longest, Rearranged;
  }

  // Coincident points are always shrunk to.
  lemma {:induction false} CoincidentShrinks(pts: seq<Point>, s: seq<int>, base: nat, n: nat, cell: Box, dim: nat)
    requires Indexes(s, pts, dim) && base + n <= |s| && n > 0 && dim > 0 && BoxOf(cell, dim)
    requires Enclosed(pts, s, base, n, cell, dim) && Coincide(pts, s, base, n, dim)
    ensures SimpleChoice(pts, s, base, n, cell, dim) == ShrinkCell
  {
    var tight := TightBox(pts, s, base, n, dim);
    TightInner(pts, s, base, n, cell, tight, dim);
    FlatIsSame(pts, s, base, n, dim);
    EveryGap(tight, cell, dim, dim);
    hide Indexes, Coincide, TightBox, Longest, Enclosed, Gaps;
  }

  // ------------------------------------------------------------------
  // The recursion

  // Builds the bd-tree of a segment. The depth bounds the recursion, which need not end; no tree
  // is returned when it runs out.
  method RbdTree(pts: seq<Point>, pidx: array<int>, base: nat, n: nat, dim: nat, bsp: nat,
                 lo: array<real>, hi: array<real>, rule: SplitRule, shrink: ShrinkRule, depth: nat)
    returns (t: Option<Node>)
    requires Indexes(pidx[..], pts, dim) && base + n <= pidx.Length && dim > 0 && bsp > 0
    requires lo.Length == dim && hi.Length == dim && lo != hi
    requires Enclosed(pts, pidx[..], base, n, Box(lo[..], hi[..]), dim)
    modifies pidx, lo, hi
    ensures lo[..] == old(lo[..]) && hi[..] == old(hi[..])
    ensures Indexes(pidx[..], pts, dim) && Rearranged(pidx[..], old(pidx[..]), base, base + n)
    ensures t.Some? ==> Built(t.value, pts, pidx[..][base..base + n], Box(lo[..], hi[..]), dim, bsp)
    ensures t.Some? ==> Ruled(t.value, Box(lo[..], hi[..]), pts, rule, shrink, bsp)
    ensures old(MustEnd(pts, pidx[..], base, n, dim, bsp, Box(lo[..], hi[..]), rule, shrink, depth)) ==> t.Some?
    ensures old(CannotEnd(pts, pidx[..], base, n, dim, bsp, shrink)) ==> t.None?
    decreases depth, 2
  {
    ghost var s0 := pidx[..];
    if n <= bsp {
      RearrangedRefl(s0, base, base + n);
      EnclosedBucket(pts, s0, base, n, Box(lo[..], hi[..]), dim);
      t := Some(if n == 0 then TRIVIAL else Leaf(pidx[base..base + n]));
      assert pidx[base..base + n] == s0[base..base + n];
      return;
    }
    if depth == 0 {
      RearrangedRefl(s0, base, base + n);
      return None;
    }
    t := InnerNode(pts, pidx, base, n, dim, bsp, lo, hi, rule, shrink, depth);
  }

  // A node that is no leaf: a splitting or a shrinking one, as the rule decides.
  method InnerNode(pts: seq<Point>, pidx: array<int>, base: nat, n: nat, dim: nat, bsp: nat,
                   lo: array<real>, hi: array<real>, rule: SplitRule, shrink: ShrinkRule, depth: nat)
    returns (t: Option<Node>)
    requires Indexes(pidx[..], pts, dim) && base + n <= pidx.Length && dim > 0 && n > bsp > 0 && depth > 0
    requires lo.Length == dim && hi.Length == dim && lo != hi
    requires Enclosed(pts, pidx[..], base, n, Box(lo[..], hi[..]), dim)
    modifies pidx, lo, hi
    ensures lo[..] == old(lo[..]) && hi[..] == old(hi[..])
    ensures Indexes(pidx[..], pts, dim) && Rearranged(pidx[..], old(pidx[..]), base, base + n)
    ensures t.Some? ==> Built(t.value, pts, pidx[..][base..base + n], Box(lo[..], hi[..]), dim, bsp)
    ensures t.Some? ==> Ruled(t.value, Box(lo[..], hi[..]), pts, rule, shrink, bsp)
    ensures old(MustEnd(pts, pidx[..], base, n, dim, bsp, Box(lo[..], hi[..]), rule, shrink, depth)) ==> t.Some?
    ensures old(CannotEnd(pts, pidx[..], base, n, dim, bsp, shrink)) ==> t.None?
    decreases depth, 1
  {
    hide Indexes, Rearranged, Enclosed, Built, InnerOk, SimpleChoice, SimpleBox, Spaced, Once, Coincide, Ruled, Decided;
    ghost var s0 := pidx[..];
    ghost var box := Box(lo[..], hi[..]);
    if CannotEnd(pts, s0, base, n, dim, bsp, shrink) {
      CoincidentShrinks(pts, s0, base, n, box, dim);
    }
    var ilo, ihi := new real[dim], new real[dim];
    var decomp := SelectDecomp(rule, shrink, pts, pidx, base, n, dim, Box(lo[..], hi[..]), ilo, ihi);
    ghost var s1 := pidx[..];
    StillEnclosed(pts, s1, s0, base, n, box, dim);
    assert lo[..] == box.lo && hi[..] == box.hi;
    SegmentKept(s1, s0, base, base + n);
    SegmentIndexes(pts, s1, base, n, dim);
    DecidedSame(decomp, shrink, rule, pts, s0[base..base + n], s1[base..base + n], box, Box(ilo[..], ihi[..]), dim);
    if decomp == SplitCell {
      SplitEnds(pts, s0, s1, base, n, dim, bsp, box, rule, shrink, depth);
      ToSplit(shrink, rule, pts, s1[base..base + n], box, Box(ilo[..], ihi[..]), dim);
      assert Decided(SplitCell, shrink, rule, pts, s1[base..base + n], box, box, dim);
      t := SplitNode(pts, pidx, base, n, dim, bsp, lo, hi, rule, shrink, depth);
    } else {
      t := ShrinkNode(pts, pidx, base, n, dim, bsp, lo, hi, ilo, ihi, rule, shrink, depth);
    }
    RearrangedTrans(pidx[..], s1, s0, base, base + n);
  }

  lemma {:induction false} SplitEnds(pts: seq<Point>, s0: seq<int>, s1: seq<int>, base: nat, n: nat, dim: nat, bsp: nat, cell: Box,
                                     rule: SplitRule, shrink: ShrinkRule, depth: nat)
    requires Indexes(s0, pts, dim) && base + n <= |s0| && BoxOf(cell, dim) && n > bsp > 0 && Rearranged(s1, s0, base, base + n)
    ensures MustEnd(pts, s0, base, n, dim, bsp, cell, rule, shrink, depth) ==>
              MustEndBySplit(pts, s1, n, dim, bsp, rule, shrink, depth)
  {
    hide Indexes, Spaced, SimpleChoice;
  }

  method SplitNode(pts: seq<Point>, pidx: array<int>, base: nat, n: nat, dim: nat, bsp: nat,
                   lo: array<real>, hi: array<real>, rule: SplitRule, shrink: ShrinkRule, depth: nat)
    returns (t: Option<Node>)
    requires Indexes(pidx[..], pts, dim) && base + n <= pidx.Length && dim > 0 && n > bsp > 0 && depth > 0
    requires lo.Length == dim && hi.Length == dim && lo != hi
    requires Enclosed(pts, pidx[..], base, n, Box(lo[..], hi[..]), dim)
    requires Decided(SplitCell, shrink, rule, pts, pidx[..][base..base + n], Box(lo[..], hi[..]), Box(lo[..], hi[..]), dim)
    modifies pidx, lo, hi
    ensures lo[..] == old(lo[..]) && hi[..] == old(hi[..])
    ensures Indexes(pidx[..], pts, dim) && Rearranged(pidx[..], old(pidx[..]), base, base + n)
    ensures t.Some? ==> Built(t.value, pts, pidx[..][base..base + n], Box(lo[..], hi[..]), dim, bsp)
    ensures t.Some? ==> Ruled(t.value, Box(lo[..], hi[..]), pts, rule, shrink, bsp)
    ensures MustEndBySplit(pts, old(pidx[..]), n, dim, bsp, rule, shrink, depth) ==> t.Some?
    decreases depth, 0
  {
    hide Indexes, Rearranged, Enclosed, Built, MustEnd, MustEndBySplit, CannotEnd, Ruled, Decided, SplitBy, MaySplit;
    ghost var s0 := pidx[..];
    ghost var box := Box(lo[..], hi[..]);
    ghost var ends := MustEndBySplit(pts, s0, n, dim, bsp, rule, shrink, depth);
    var cd, cv, nLo := SplitPoints(rule, pts, pidx, base, Box(lo[..], hi[..]), n, dim);
    ghost var s1 := pidx[..];
    SidesEnclosed(pts, s1, base, n, box, dim, cd, cv, nLo);
    assert cd < dim && 1 <= nLo < n && box.lo[cd] <= cv <= box.hi[cd];
    hide GoodSplit;
    var lv, hv := lo[cd], hi[cd];
    hi[cd] := cv;
    assert Box(lo[..], hi[..]) == LowCell(box, cd, cv);
    SameItems(s1, s0, base, base + n);
    if ends {
      ChildEnds(pts, s0, s1, n, base, nLo, dim, bsp, LowCell(box, cd, cv), rule, shrink, depth);
    }
    var low := RbdTree(pts, pidx, base, nLo, dim, bsp, lo, hi, rule, shrink, depth - 1);
    hi[cd] := hv;
    ghost var s2 := pidx[..];
    HighKept(pts, s2, s1, base, n, nLo, HighCell(box, cd, cv), dim);
    lo[cd] := cv;
    assert Box(lo[..], hi[..]) == HighCell(box, cd, cv);
    if ends {
      SameItems(s2, s1, base, base + nLo);
      ChildEnds(pts, s0, s2, n, base + nLo, n - nLo, dim, bsp, HighCell(box, cd, cv), rule, shrink, depth);
    }
    var high := RbdTree(pts, pidx, base + nLo, n - nLo, dim, bsp, lo, hi, rule, shrink, depth - 1);
    lo[cd] := lv;
    assert lo[..] == box.lo && hi[..] == box.hi;
    JoinRearranged(s0, s1, s2, pidx[..], base, n, nLo);
    t := None;
    if low.Some? && high.Some? {
      t := Some(Split(cd, cv, lv, hv, low.value, high.value));
      ToSplit(shrink, rule, pts, s0[base..base + n], box, box, dim);
      JoinTrees(low.value, high.value, pts, s0, s1, s2, pidx[..], base, n, nLo, box, dim, cd, cv, rule, shrink, bsp);
    }
  }

  lemma {:induction false} ToSplit(shrink: ShrinkRule, rule: SplitRule, pts: seq<Point>, all: seq<int>, cell: Box, inner: Box, dim: nat)
    requires Decided(SplitCell, shrink, rule, pts, all, cell, inner, dim)
    ensures Indexes(all, pts, dim) && all != [] && BoxOf(cell, dim) && MaySplit(shrink, rule, pts, all, cell, dim)
    ensures Decided(SplitCell, shrink, rule, pts, all, cell, cell, dim)
  {
    hide Indexes, MaySplit;
  }

  lemma {:induction false} SameItems(a: seq<int>, b: seq<int>, lo: nat, hi: nat)
    requires Rearranged(a, b, lo, hi)
    ensures multiset(a) == multiset(b)
  {
  }

  method ShrinkNode(pts: seq<Point>, pidx: array<int>, base: nat, n: nat, dim: nat, bsp: nat,
                    lo: array<real>, hi: array<real>, ilo: array<real>, ihi: array<real>,
                    rule: SplitRule, shrink: ShrinkRule, depth: nat)
    returns (t: Option<Node>)
    requires Indexes(pidx[..], pts, dim) && base + n <= pidx.Length && dim > 0 && n > bsp > 0 && depth > 0
    requires lo.Length == dim && hi.Length == dim && lo != hi && ilo.Length == dim && ihi.Length == dim && ilo != ihi
    requires ilo != lo && ilo != hi && ihi != lo && ihi != hi
    requires Enclosed(pts, pidx[..], base, n, Box(lo[..], hi[..]), dim)
    requires InnerOk(Box(ilo[..], ihi[..]), Box(lo[..], hi[..]), dim)
    requires shrink == Simple ==> Box(ilo[..], ihi[..]) == SimpleBox(pts, pidx[..], base, n, Box(lo[..], hi[..]), dim)
    requires Decided(ShrinkCell, shrink, rule, pts, pidx[..][base..base + n], Box(lo[..], hi[..]), Box(ilo[..], ihi[..]), dim)
    modifies pidx, lo, hi, ilo, ihi
    ensures lo[..] == old(lo[..]) && hi[..] == old(hi[..])
    ensures Indexes(pidx[..], pts, dim) && Rearranged(pidx[..], old(pidx[..]), base, base + n)
    ensures t.Some? ==> Built(t.value, pts, pidx[..][base..base + n], Box(lo[..], hi[..]), dim, bsp)
    ensures t.Some? ==> Ruled(t.value, Box(lo[..], hi[..]), pts, rule, shrink, bsp)
    ensures shrink == Simple && Once(old(pidx[..])) && Spaced(pts, bsp) && depth >= 2 * n ==> t.Some?
    ensures old(CannotEnd(pts, pidx[..], base, n, dim, bsp, shrink)) ==> t.None?
    decreases depth, 0
  {
    hide Indexes, Rearranged, Enclosed, Built, InnerOk, InsideFirst, SimpleBox, SimpleChoice, Spaced, Once, Coincide, Ruled, Decided;
    ghost var s0 := pidx[..];
    ghost var box := Box(lo[..], hi[..]);
    ghost var inner := Box(ilo[..], ihi[..]);
    var nIn := BoxSplit(pts, pidx, base, n, Box(ilo[..], ihi[..]), dim);
    ghost var s1 := pidx[..];
    assert s1[base..base + n] == pidx[base..base + n];
    StillEnclosed(pts, s1, s0, base, n, box, dim);
    ShrinkEnclosed(pts, s1, base, n, box, inner, nIn, dim);
    InnerEnds(pts, s0, s1, base, n, box, inner, nIn, dim, bsp, rule, shrink, depth);
    var inn := RbdTree(pts, pidx, base, nIn, dim, bsp, ilo, ihi, rule, shrink, depth - 1);
    ghost var s2 := pidx[..];
    HighKept(pts, s2, s1, base, n, nIn, box, dim);
    var out := RbdTree(pts, pidx, base + nIn, n - nIn, dim, bsp, lo, hi, rule, shrink, depth - 1);
    var bnds := BoxToBounds(Box(ilo[..], ihi[..]), Box(lo[..], hi[..]), dim);
    JoinRearranged(s0, s1, s2, pidx[..], base, n, nIn);
    t := None;
    if inn.Some? && out.Some? {
      t := Some(Shrink(bnds[..], inn.value, out.value));
      ShrinkSegments(inn.value, out.value, pts, s0, s1, s2, pidx[..], base, n, nIn, box, inner, dim, bsp);
      BuiltOf(inn.value, pts, s2[base..base + nIn], inner, dim, bsp);
      BuiltOf(out.value, pts, pidx[..][base + nIn..base + n], box, dim, bsp);
      JoinShrinks(inn.value, out.value, pts, s0, s1, s2, pidx[..], base, n, nIn, box, inner, dim, rule, shrink, bsp);
    }
  }

  // The points that the box split put outside stay outside.
  lemma {:induction false} OutsideKept(pts: seq<Point>, s1: seq<int>, s2: seq<int>, s3: seq<int>, base: nat, n: nat, nIn: nat, inner: Box, dim: nat)
    requires nIn <= n && base + n <= |s1| == |s2| == |s3| && BoxOf(inner, dim) && Points(pts, dim)
    requires InsideFirst(inner, pts, s1[base..base + n], nIn, dim)
    requires multiset(s3[base + nIn..base + n]) == multiset(s1[base + nIn..base + n])
    ensures forall i :: i in s3[base + nIn..base + n] ==> 0 <= i < |pts| && |pts[i]| == dim && !Inside(inner, pts[i])
  {
    hide Inside;
    var a, b := s1[base + nIn..base + n], s3[base + nIn..base + n];
    forall i | i in b
      ensures 0 <= i < |pts| && |pts[i]| == dim && !Inside(inner, pts[i])
    {
      assert i in multiset(b);
      assert i in multiset(a);
      assert i in a;
      var k :| 0 <= k < |a| && a[k] == i;
      assert s1[base..base + n][nIn + k] == i;
    }
  }

  lemma {:induction false} JoinShrinks(inn: Node, out: Node, pts: seq<Point>, s0: seq<int>, s1: seq<int>, s2: seq<int>, s3: seq<int>,
                                       base: nat, n: nat, nIn: nat, box: Box, inner: Box, dim: nat, rule: SplitRule, shrink: ShrinkRule, bsp: nat)
    requires BoxOf(box, dim) && InnerOk(inner, box, dim) && base + n <= |s0| == |s1| == |s2| == |s3| && n > bsp && nIn <= n
    requires Indexes(s0, pts, dim) && Indexes(s1, pts, dim) && Indexes(s2, pts, dim) && Indexes(s3, pts, dim)
    requires Rearranged(s1, s0, base, base + n) && Rearranged(s2, s1, base, base + nIn) && Rearranged(s3, s2, base + nIn, base + n)
    requires InsideFirst(inner, pts, s1[base..base + n], nIn, dim)
    requires Decided(ShrinkCell, shrink, rule, pts, s0[base..base + n], box, inner, dim)
    requires Buckets(inn) == s2[base..base + nIn] && Buckets(out) == s3[base + nIn..base + n]
    requires Ruled(inn, inner, pts, rule, shrink, bsp) && Ruled(out, box, pts, rule, shrink, bsp)
    ensures Ruled(Shrink(Bounds(inner, box, dim), inn, out), box, pts, rule, shrink, bsp)
  {
    InnerBox(inner, box, dim);
    ToShrink(shrink, rule, pts, s0[base..base + n], box, inner, dim);
    hide Indexes, Rearranged, MayShrink, MaySplit, Ruled, Buckets, InsideFirst, InnerOk, Inside, Decided, BoxOf;
    ShrunkParts(pts, s0, s1, s2, s3, base, n, nIn, inner, dim);
    JoinShrunk(inn, out, pts, s0[base..base + n], box, inner, dim, rule, shrink, bsp);
  }

  // The two lists a shrink leaves: together the points of the node, and outside those not in the inner box.
  lemma {:induction false} ShrunkParts(pts: seq<Point>, s0: seq<int>, s1: seq<int>, s2: seq<int>, s3: seq<int>,
                                       base: nat, n: nat, nIn: nat, inner: Box, dim: nat)
    requires BoxOf(inner, dim) && base + n <= |s0| == |s1| == |s2| == |s3| && nIn <= n
    requires Indexes(s1, pts, dim) && Indexes(s2, pts, dim) && Indexes(s3, pts, dim)
    requires Rearranged(s1, s0, base, base + n) && Rearranged(s2, s1, base, base + nIn) && Rearranged(s3, s2, base + nIn, base + n)
    requires InsideFirst(inner, pts, s1[base..base + n], nIn, dim)
    ensures Indexes(s2[base..base + nIn], pts, dim) && Indexes(s3[base + nIn..base + n], pts, dim)
    ensures multiset(s2[base..base + nIn] + s3[base + nIn..base + n]) == multiset(s0[base..base + n])
    ensures forall i :: i in s3[base + nIn..base + n] ==> 0 <= i < |pts| && |pts[i]| == dim && !Inside(inner, pts[i])
  {
    IndexesPoints(s1, pts, dim);
    hide Indexes, Rearranged, InsideFirst, Inside;
    SidesKept(s1, s2, s3, base, n, nIn);
    OutsideKept(pts, s1, s2, s3, base, n, nIn, inner, dim);
    SegmentIndexes(pts, s2, base, nIn, dim);
    SegmentIndexes(pts, s3, base + nIn, n - nIn, dim);
    AllKept(s0, s1, s2[base..base + nIn], s3[base + nIn..base + n], base, n, nIn);
    assert base + nIn + (n - nIn) == base + n;
  }

  lemma {:induction false} AllKept(s0: seq<int>, s1: seq<int>, x: seq<int>, y: seq<int>, base: nat, n: nat, nIn: nat)
    requires base + n <= |s0| == |s1| && nIn <= n && Rearranged(s1, s0, base, base + n)
    requires multiset(x) == multiset(s1[base..base + nIn]) && multiset(y) == multiset(s1[base + nIn..base + n])
    ensures multiset(x + y) == multiset(s0[base..base + n])
  {
    SegmentKept(s1, s0, base, base + n);
    hide Rearranged;
    TreeRules.Parts(s1, base, n, nIn);
  }

  lemma {:induction false} ToShrink(shrink: ShrinkRule, rule: SplitRule, pts: seq<Point>, all: seq<int>, cell: Box, inner: Box, dim: nat)
    requires Decided(ShrinkCell, shrink, rule, pts, all, cell, inner, dim)
    ensures Indexes(all, pts, dim) && all != [] && BoxOf(cell, dim) && MayShrink(shrink, rule, pts, all, cell, inner, dim)
  {
    hide Indexes, MayShrink;
  }

  lemma {:induction false} IndexesPoints(s: seq<int>, pts: seq<Point>, dim: nat)
    requires Indexes(s, pts, dim)
    ensures Points(pts, dim)
  {
  }

  lemma {:induction false} InnerBox(inner: Box, cell: Box, dim: nat)
    requires BoxOf(cell, dim) && InnerOk(inner, cell, dim)
    ensures BoxOf(inner, dim)
  {
  }

  // The inner subtree of a simple shrink has all the points, and ends or not as the node does.
  lemma {:induction false} InnerEnds(pts: seq<Point>, s0: seq<int>, s1: seq<int>, base: nat, n: nat, cell: Box, inner: Box, nIn: nat, dim: nat,
                                     bsp: nat, rule: SplitRule, shrink: ShrinkRule, depth: nat)
    requires Indexes(s0, pts, dim) && Indexes(s1, pts, dim) && base + n <= |s0| && base + n <= |s1| && n > bsp > 0 && nIn <= n && depth > 0
    requires Rearranged(s1, s0, base, base + n) && BoxOf(cell, dim) && BoxOf(inner, dim) && Enclosed(pts, s0, base, n, cell, dim)
    requires InsideFirst(inner, pts, s1[base..base + n], nIn, dim)
    requires shrink == Simple ==> inner == SimpleBox(pts, s0, base, n, cell, dim)
    ensures shrink == Simple ==> nIn == n
    ensures shrink == Simple && Once(s0) && Spaced(pts, bsp) && depth >= 2 * n ==>
              MustEnd(pts, s1, base, nIn, dim, bsp, inner, rule, shrink, depth - 1)
    ensures CannotEnd(pts, s0, base, n, dim, bsp, shrink) ==> CannotEnd(pts, s1, base, nIn, dim, bsp, shrink)
  {
    hide Indexes, Rearranged, Enclosed, InsideFirst, SimpleBox, SimpleChoice, Spaced, Once, Coincide;
    if shrink == Simple {
      TakesAll(pts, s0, s1, base, n, cell, inner, nIn, dim);
      StillCoincide(pts, s0, s1, base, n, dim);
      if Once(s0) && Spaced(pts, bsp) {
        SplitsNext(pts, s0, s1, base, n, cell, inner, dim, bsp);
      }
    }
  }

  lemma {:induction false} JoinRearranged(s0: seq<int>, s1: seq<int>, s2: seq<int>, s3: seq<int>, base: nat, n: nat, k: nat)
    requires k <= n && base + n <= |s0| == |s1| == |s2| == |s3|
    requires Rearranged(s1, s0, base, base + n) && Rearranged(s2, s1, base, base + k) && Rearranged(s3, s2, base + k, base + n)
    ensures Rearranged(s3, s0, base, base + n)
  {
    hide Rearranged;
    RearrangedWider(s2, s1, base, base + k, base, base + n);
    RearrangedWider(s3, s2, base + k, base + n, base, base + n);
    RearrangedTrans(s2, s1, s0, base, base + n);
    RearrangedTrans(s3, s2, s0, base, base + n);
  }

  lemma {:induction false} IdentityOnce(n: nat)
    ensures Once(Identity(n))
  {
    IdentityCounts(n);
  }

  lemma {:induction false} WholeCoincides(pts: seq<Point>, s: seq<int>, dim: nat)
    requires Indexes(s, pts, dim) && (forall i, j :: 0 <= i < |pts| && 0 <= j < |pts| ==> pts[i] == pts[j])
    ensures Coincide(pts, s, 0, |s|, dim)
  {
  }

  // The bd-tree of a point array, if the recursion ends within the depth: its buckets tile the
  // index array in preorder and it is fit for every search. Where no node shrinks, a depth of the
  // number of points is enough. Simple shrinking ends at twice that depth when no more than a
  // bucket of points coincide, and at no depth when there are more points and all coincide.
  method BuildBdTree(pts: seq<Point>, dim: nat, bs: nat, rule: SplitRule, shrink: ShrinkRule, depth: nat)
    returns (t: Option<Tree>, pidx: array<int>)
    requires Points(pts, dim) && dim > 0 && bs > 0
    ensures fresh(pidx) && pidx.Length == |pts|
    ensures t.Some? ==> ValidTree(t.value) && t.value.pts == pts && t.value.dim == dim && (t.value.root.Some? <==> |pts| > 0)
    ensures t.Some? && t.value.root.None? ==> t.value.box == Box([], [])
    ensures t.Some? && t.value.root.Some? ==>
              && Buckets(t.value.root.value) == pidx[..] && SmallBuckets(t.value.root.value, bs)
              && Populated(t.value.root.value)
    ensures t.Some? && t.value.root.Some? ==>
              && SmallestBox(t.value.box, pts, dim) && t.value.bktSize == bs
              && Ruled(t.value.root.value, t.value.box, pts, rule, shrink, bs)
    ensures NeverShrinks(rule, shrink, dim) && depth >= |pts| ==> t.Some?
    ensures shrink == Simple && Spaced(pts, bs) && depth >= 2 * |pts| ==> t.Some?
    ensures shrink == Simple && |pts| > bs && (forall i, j :: 0 <= i < |pts| && 0 <= j < |pts| ==> pts[i] == pts[j]) ==> t.None?
  {
    hide Indexes, Rearranged, Enclosed, Tight, WellFormed, Disjoint, Members, Range, Populated, SmallBuckets, Buckets, Spaced, Once, Coincide, Ruled, SmallestBox;
    var n := |pts|;
    pidx := IdentityArray(n);
    if n == 0 {
      t := Some(Tree(dim, pts, bs, Box([], []), None));
      return;
    }
    IdentityIndexes(pts, dim);
    IdentityOnce(n);
    if forall i, j :: 0 <= i < |pts| && 0 <= j < |pts| ==> pts[i] == pts[j] {
      WholeCoincides(pts, pidx[..], dim);
    }
    var lo, hi := new real[dim], new real[dim];
    EnclRect(pts, pidx, 0, n, dim, lo, hi);
    var box := Box(lo[..], hi[..]);
    BoundsEnclose(pts, pidx[..], n, box, dim);
    TightSmallest(pts, pidx[..], box, dim);
    var root := RbdTree(pts, pidx, 0, n, dim, bs, lo, hi, rule, shrink, depth);
    t := None;
    if root.Some? {
      assert pidx[..][0..0 + n] == pidx[..];
      PermutedComplete(root.value, pidx[..], n);
      t := Some(Tree(dim, pts, bs, box, Some(root.value)));
    }
  }

  // Two equal points with a bucket size of 1 are enough: simple shrinking returns at no depth.
  method TwoEqualPoints(p: Point, rule: SplitRule, depth: nat) returns (t: Option<Tree>)
    requires |p| > 0
    ensures t.None?
  {
    var pidx;
    assert Points([p, p], |p|);
    t, pidx := BuildBdTree([p, p], |p|, 1, rule, Simple, depth);
  }
}
