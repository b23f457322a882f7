// Building kd-trees (3rd/ANN/kd_tree.cpp).
module TreeBuilder {
  import opened Geometry
  import opened SpatialTrees
  import opened PointPartition
  import opened Splitters
  import opened TreeRules

  method SplitPoints(rule: SplitRule, pts: seq<Point>, pidx: array<int>, base: nat, box: Box, n: nat, dim: nat)
    returns (cd: nat, cv: real, nLo: nat)
    requires Indexes(pidx[..], pts, dim) && base + n <= pidx.Length && BoxOf(box, dim) && n >= 2 && dim > 0
    requires Enclosed(pts, pidx[..], base, n, box, dim)
    modifies pidx
    ensures Indexes(pidx[..], pts, dim) && Rearranged(pidx[..], old(pidx[..]), base, base + n)
    ensures GoodSplit(pts, pidx[..], base, n, box, dim, cd, cv, nLo)
    ensures Enclosed(pts, pidx[..], base, n, box, dim) && (rule == Standard ==> nLo == n / 2)
    ensures SplitBy(rule, pts, pidx[..], base, n, nLo, box, cd, cv, dim)
  {
    hide Indexes, Rearranged, Enclosed, GoodSplit, SplitBy;
    match rule
    case Standard =>
      cd, cv, nLo := SplitStandard(pts, pidx, base, box, n, dim);
    case SlidingMidpoint =>
      cd, cv, nLo := SplitSliding(pts, pidx, base, box, n, dim);
  }

  method SplitStandard(pts: seq<Point>, pidx: array<int>, base: nat, box: Box, n: nat, dim: nat) returns (cd: nat, cv: real, nLo: nat)
    requires Indexes(pidx[..], pts, dim) && base + n <= pidx.Length && BoxOf(box, dim) && n >= 2 && dim > 0
    requires Enclosed(pts, pidx[..], base, n, box, dim)
    modifies pidx
    ensures Indexes(pidx[..], pts, dim) && Rearranged(pidx[..], old(pidx[..]), base, base + n)
    ensures GoodSplit(pts, pidx[..], base, n, box, dim, cd, cv, nLo)
    ensures Enclosed(pts, pidx[..], base, n, box, dim) && nLo == n / 2
    ensures SplitBy(Standard, pts, pidx[..], base, n, nLo, box, cd, cv, dim)
  {
    hide Indexes, Rearranged, Marks, Values, Spread, CutBy, SplitAt, Least, Most, Inside;
    ghost var s0 := pidx[..];
    cd, cv, nLo := KdSplit(pts, pidx, base, box, n, dim);
    MarksKept(pts, pidx[..], s0, base, n, 0, InBox(box), true, dim);
    StandardCut(pts, s0, pidx[..], base, n, box, dim, cd, cv, nLo);
  }

  method SplitSliding(pts: seq<Point>, pidx: array<int>, base: nat, box: Box, n: nat, dim: nat) returns (cd: nat, cv: real, nLo: nat)
    requires Indexes(pidx[..], pts, dim) && base + n <= pidx.Length && BoxOf(box, dim) && n >= 2 && dim > 0
    requires Enclosed(pts, pidx[..], base, n, box, dim)
    modifies pidx
    ensures Indexes(pidx[..], pts, dim) && Rearranged(pidx[..], old(pidx[..]), base, base + n)
    ensures GoodSplit(pts, pidx[..], base, n, box, dim, cd, cv, nLo)
    ensures Enclosed(pts, pidx[..], base, n, box, dim)
    ensures SplitBy(SlidingMidpoint, pts, pidx[..], base, n, nLo, box, cd, cv, dim)
  {
    hide Indexes, Rearranged, Marks, Values, Spread, CutBy, SplitAt, Least, Most, Inside, NearLongest, Balanced;
    ghost var s0 := pidx[..];
    cd, cv, nLo := SlMidptSplit(pts, pidx, base, box, n, dim);
    MarksKept(pts, pidx[..], s0, base, n, 0, InBox(box), true, dim);
    SlidingCut(pts, s0, pidx[..], base, n, box, dim, cd, cv, nLo);
  }

  lemma {:induction false} Elsewhere(a: seq<int>, b: seq<int>, lo: nat, hi: nat, from: nat, to: nat)
    requires Rearranged(a, b, lo, hi) && from <= to <= |a| && (to <= lo || hi <= from)
    ensures a[from..to] == b[from..to]
  {
    assert |a| == |b|;
    forall i | from <= i < to
      ensures a[i] == b[i]
    {
      if to <= lo {
        assert a[..lo][i] == b[..lo][i];
      } else {
        assert a[hi..][i - hi] == b[hi..][i - hi];
      }
    }
  }

  lemma {:induction false} EnclosedSame(pts: seq<Point>, a: seq<int>, b: seq<int>, base: nat, n: nat, box: Box, dim: nat)
    requires Indexes(a, pts, dim) && Indexes(b, pts, dim) && base + n <= |a| && base + n <= |b| && BoxOf(box, dim)
    requires a[base..base + n] == b[base..base + n] && Enclosed(pts, b, base, n, box, dim)
    ensures Enclosed(pts, a, base, n, box, dim)
  {
    forall i | 0 <= i < n
      ensures Marks(pts, a, base, n, InBox(box), dim)[i]
    {
      assert a[base..base + n][i] == b[base..base + n][i];
      assert Marks(pts, b, base, n, InBox(box), dim)[i];
    }
  }

  // After a good split each side's points lie in that side's cell.
  lemma {:induction false} SidesEnclosed(pts: seq<Point>, s: seq<int>, base: nat, n: nat, box: Box, dim: nat, cd: nat, cv: real, nLo: nat)
    requires Indexes(s, pts, dim) && base + n <= |s| && BoxOf(box, dim)
    requires Enclosed(pts, s, base, n, box, dim) && GoodSplit(pts, s, base, n, box, dim, cd, cv, nLo)
    ensures Enclosed(pts, s, base, nLo, LowCell(box, cd, cv), dim)
    ensures Enclosed(pts, s, base + nLo, n - nLo, HighCell(box, cd, cv), dim)
  {
    var v := Values(pts, s, base, n, cd, dim);
    var marks := Marks(pts, s, base, n, InBox(box), dim);
    var low := Marks(pts, s, base, nLo, InBox(LowCell(box, cd, cv)), dim);
    var high := Marks(pts, s, base + nLo, n - nLo, InBox(HighCell(box, cd, cv)), dim);
    forall i | 0 <= i < nLo
      ensures low[i]
    {
      assert marks[i] && v[i] <= cv;
    }
    forall i | 0 <= i < n - nLo
      ensures high[i]
    {
      assert marks[nLo + i] && v[nLo + i] >= cv;
    }
  }

  lemma {:induction false} EnclosedBucket(pts: seq<Point>, s: seq<int>, base: nat, n: nat, box: Box, dim: nat)
    requires Indexes(s, pts, dim) && base + n <= |s| && BoxOf(box, dim) && Enclosed(pts, s, base, n, box, dim)
    ensures BucketIn(s[base..base + n], box, pts)
  {
    var bkt := s[base..base + n];
    forall j | 0 <= j < |bkt|
      ensures 0 <= bkt[j] < |pts| && Inside(box, pts[bkt[j]])
    {
      assert bkt[j] == s[base + j];
      assert Marks(pts, s, base, n, InBox(box), dim)[j];
    }
  }

  // What building promises about the tree of a segment.
  ghost predicate Built(t: Node, pts: seq<Point>, seg: seq<int>, box: Box, dim: nat, bsp: nat)
    requires Points(pts, dim) && BoxOf(box, dim)
  {
    && WellFormed(t, box, pts) && Buckets(t) == seg && SmallBuckets(t, bsp) && Populated(t)
  }

  lemma {:induction false} JoinBuilt(low: Node, high: Node, pts: seq<Point>, a: seq<int>, b: seq<int>, box: Box, dim: nat, bsp: nat,
                  cd: nat, cv: real)
    requires Points(pts, dim) && BoxOf(box, dim) && cd < dim && box.lo[cd] <= cv <= box.hi[cd]
    requires Built(low, pts, a, LowCell(box, cd, cv), dim, bsp) && Built(high, pts, b, HighCell(box, cd, cv), dim, bsp)
    requires |a| > 0
    ensures Built(Split(cd, cv, box.lo[cd], box.hi[cd], low, high), pts, a + b, box, dim, bsp)
  {
    var t := Split(cd, cv, box.lo[cd], box.hi[cd], low, high);
    assert a[0] in Buckets(t);
    MembersAreBuckets(t, a[0]);
  }

  // Builds the tree of a segment of the index array, permuting the array only there. The box,
  // changed for the subtrees, is restored.
  method RkdTree(pts: seq<Point>, pidx: array<int>, base: nat, n: nat, dim: nat, bsp: nat,
                 lo: array<real>, hi: array<real>, rule: SplitRule)
    returns (t: Node)
    requires Indexes(pidx[..], pts, dim) && base + n <= pidx.Length && dim > 0 && bsp > 0
    requires lo.Length == dim && hi.Length == dim && lo != hi
    requires Enclosed(pts, pidx[..], base, n, Box(lo[..], hi[..]), dim)
    modifies pidx, lo, hi
    ensures lo[..] == old(lo[..]) && hi[..] == old(hi[..])
    ensures Indexes(pidx[..], pts, dim) && Rearranged(pidx[..], old(pidx[..]), base, base + n)
    ensures Built(t, pts, pidx[..][base..base + n], Box(lo[..], hi[..]), dim, bsp) && NoShrink(t)
    ensures Ruled(t, Box(lo[..], hi[..]), pts, rule, NoShrinking, bsp)
    decreases n, 1
  {
    ghost var s0 := pidx[..];
    if n <= bsp {
      RearrangedRefl(s0, base, base + n);
      EnclosedBucket(pts, s0, base, n, Box(lo[..], hi[..]), dim);
      if n == 0 {
        t := TRIVIAL;
      } else {
        t := Leaf(pidx[base..base + n]);
      }
      assert pidx[base..base + n] == s0[base..base + n];
    } else {
      t := SplitNode(pts, pidx, base, n, dim, bsp, lo, hi, rule);
    }
  }

  method SplitNode(pts: seq<Point>, pidx: array<int>, base: nat, n: nat, dim: nat, bsp: nat,
                   lo: array<real>, hi: array<real>, rule: SplitRule)
    returns (t: Node)
    requires Indexes(pidx[..], pts, dim) && base + n <= pidx.Length && dim > 0 && n > bsp > 0
    requires lo.Length == dim && hi.Length == dim && lo != hi
    requires Enclosed(pts, pidx[..], base, n, Box(lo[..], hi[..]), dim)
    modifies pidx, lo, hi
    ensures lo[..] == old(lo[..]) && hi[..] == old(hi[..])
    ensures Indexes(pidx[..], pts, dim) && Rearranged(pidx[..], old(pidx[..]), base, base + n)
    ensures Built(t, pts, pidx[..][base..base + n], Box(lo[..], hi[..]), dim, bsp) && NoShrink(t)
    ensures Ruled(t, Box(lo[..], hi[..]), pts, rule, NoShrinking, bsp)
    decreases n, 0
  {
    hide Indexes, Rearranged, Enclosed, Built, Ruled, SplitBy, CutBy;
    ghost var s0 := pidx[..];
    ghost var box := Box(lo[..], hi[..]);
    var cd, cv, nLo := SplitPoints(rule, pts, pidx, base, Box(lo[..], hi[..]), n, dim);
    ghost var s1 := pidx[..];
    SidesEnclosed(pts, s1, base, n, box, dim, cd, cv, nLo);
    assert cd < dim && 1 <= nLo < n && box.lo[cd] <= cv <= box.hi[cd];
    hide GoodSplit;
    var lv, hv := lo[cd], hi[cd];
    hi[cd] := cv;
    assert Box(lo[..], hi[..]) == LowCell(box, cd, cv);
    var low := RkdTree(pts, pidx, base, nLo, dim, bsp, lo, hi, rule);
    hi[cd] := hv;
    ghost var s2 := pidx[..];
    HighKept(pts, s2, s1, base, n, nLo, HighCell(box, cd, cv), dim);
    lo[cd] := cv;
    assert Box(lo[..], hi[..]) == HighCell(box, cd, cv);
    var high := RkdTree(pts, pidx, base + nLo, n - nLo, dim, bsp, lo, hi, rule);
    lo[cd] := lv;
    assert lo[..] == box.lo && hi[..] == box.hi;
    t := Split(cd, cv, lv, hv, low, high);
    SegmentIndexes(pts, s0, base, n, dim);
    JoinTrees(low, high, pts, s0, s1, s2, pidx[..], base, n, nLo, box, dim, cd, cv, rule, NoShrinking, bsp);
  }

  lemma {:induction false} BuiltOf(t: Node, pts: seq<Point>, seg: seq<int>, box: Box, dim: nat, bsp: nat)
    requires Points(pts, dim) && BoxOf(box, dim) && Built(t, pts, seg, box, dim, bsp)
    ensures Buckets(t) == seg
  {
  }

  lemma {:induction false} SegmentIndexes(pts: seq<Point>, s: seq<int>, base: nat, n: nat, dim: nat)
    requires Indexes(s, pts, dim) && base + n <= |s|
    ensures Indexes(s[base..base + n], pts, dim)
  {
  }

  // The two subtrees are of the points that the split put on either side, in another order.
  lemma {:induction false} SidesKept(s1: seq<int>, s2: seq<int>, s3: seq<int>, base: nat, n: nat, nLo: nat)
    requires nLo <= n && base + n <= |s1| == |s2| == |s3|
    requires Rearranged(s2, s1, base, base + nLo) && Rearranged(s3, s2, base + nLo, base + n)
    ensures multiset(s2[base..base + nLo]) == multiset(s1[base..base + nLo])
    ensures multiset(s3[base + nLo..base + n]) == multiset(s1[base + nLo..base + n])
  {
    hide Rearranged;
    SegmentKept(s2, s1, base, base + nLo);
    SegmentKept(s3, s2, base + nLo, base + n);
    Elsewhere(s2, s1, base, base + nLo, base + nLo, base + n);
  }

  lemma {:induction false} JoinRules(low: Node, high: Node, pts: seq<Point>, s0: seq<int>, s1: seq<int>, s2: seq<int>, s3: seq<int>,
                                     base: nat, n: nat, nLo: nat, box: Box, dim: nat, cd: nat, cv: real, rule: SplitRule, shrink: ShrinkRule, bsp: nat)
    requires BoxOf(box, dim) && cd < dim && base + n <= |s0| == |s1| == |s2| == |s3| && n > bsp && 1 <= nLo < n
    requires Indexes(s0[base..base + n], pts, dim) && Indexes(s1, pts, dim) && Indexes(s2, pts, dim) && Indexes(s3, pts, dim)
    requires Rearranged(s1, s0, base, base + n) && Rearranged(s2, s1, base, base + nLo) && Rearranged(s3, s2, base + nLo, base + n)
    requires SplitBy(rule, pts, s1, base, n, nLo, box, cd, cv, dim) && MaySplit(shrink, rule, pts, s0[base..base + n], box, dim)
    requires Buckets(low) == s2[base..base + nLo] && Buckets(high) == s3[base + nLo..base + n]
    requires Ruled(low, LowCell(box, cd, cv), pts, rule, shrink, bsp) && Ruled(high, HighCell(box, cd, cv), pts, rule, shrink, bsp)
    ensures Ruled(Split(cd, cv, box.lo[cd], box.hi[cd], low, high), box, pts, rule, shrink, bsp)
  {
    hide Indexes, Rearranged, MaySplit, MayShrink, CutBy, Ruled, Buckets;
    var a, b := s1[base..base + nLo], s1[base + nLo..base + n];
    SidesKept(s1, s2, s3, base, n, nLo);
    SegmentIndexes(pts, s2, base, nLo, dim);
    SegmentIndexes(pts, s3, base + nLo, n - nLo, dim);
    SegmentIndexes(pts, s1, base, n, dim);
    TreeRules.Parts(s1, base, n, nLo);
    SegmentKept(s1, s0, base, base + n);
    DecisionSame(shrink, rule, pts, s0[base..base + n], a + b, box, box, dim);
    JoinRuled(low, high, pts, a, b, box, dim, cd, cv, rule, shrink, bsp);
  }

  // Both at once: the node covers its points, and was cut by the rule.
  lemma {:induction false} JoinTrees(low: Node, high: Node, pts: seq<Point>, s0: seq<int>, s1: seq<int>, s2: seq<int>, s3: seq<int>,
                                     base: nat, n: nat, nLo: nat, box: Box, dim: nat, cd: nat, cv: real, rule: SplitRule, shrink: ShrinkRule, bsp: nat)
    requires BoxOf(box, dim) && cd < dim && box.lo[cd] <= cv <= box.hi[cd]
    requires base + n <= |s0| == |s1| == |s2| == |s3| && n > bsp && 1 <= nLo < n
    requires Indexes(s0[base..base + n], pts, dim) && Indexes(s1, pts, dim) && Indexes(s2, pts, dim) && Indexes(s3, pts, dim)
    requires Rearranged(s1, s0, base, base + n) && Rearranged(s2, s1, base, base + nLo) && Rearranged(s3, s2, base + nLo, base + n)
    requires SplitBy(rule, pts, s1, base, n, nLo, box, cd, cv, dim) && MaySplit(shrink, rule, pts, s0[base..base + n], box, dim)
    requires Points(pts, dim) && Built(low, pts, s2[base..base + nLo], LowCell(box, cd, cv), dim, bsp)
    requires Built(high, pts, s3[base + nLo..base + n], HighCell(box, cd, cv), dim, bsp)
    requires Ruled(low, LowCell(box, cd, cv), pts, rule, shrink, bsp) && Ruled(high, HighCell(box, cd, cv), pts, rule, shrink, bsp)
    ensures Rearranged(s3, s0, base, base + n)
    ensures Built(Split(cd, cv, box.lo[cd], box.hi[cd], low, high), pts, s3[base..base + n], box, dim, bsp)
    ensures Ruled(Split(cd, cv, box.lo[cd], box.hi[cd], low, high), box, pts, rule, shrink, bsp)
  {
    hide Indexes, Rearranged, MaySplit, SplitBy, Ruled, Built, Buckets;
    JoinSegments(low, high, pts, s0, s1, s2, s3, base, n, nLo, box, dim, bsp, cd, cv);
    BuiltOf(low, pts, s2[base..base + nLo], LowCell(box, cd, cv), dim, bsp);
    BuiltOf(high, pts, s3[base + nLo..base + n], HighCell(box, cd, cv), dim, bsp);
    JoinRules(low, high, pts, s0, s1, s2, s3, base, n, nLo, box, dim, cd, cv, rule, shrink, bsp);
  }

  lemma {:induction false} HighKept(pts: seq<Point>, a: seq<int>, b: seq<int>, base: nat, n: nat, nLo: nat, cell: Box, dim: nat)
    requires Indexes(a, pts, dim) && Indexes(b, pts, dim) && base + n <= |b| && nLo <= n && BoxOf(cell, dim)
    requires Rearranged(a, b, base, base + nLo) && Enclosed(pts, b, base + nLo, n - nLo, cell, dim)
    ensures |a| == |b| && Enclosed(pts, a, base + nLo, n - nLo, cell, dim)
  {
    hide Indexes, Enclosed;
    SameLength(a, b, base, base + nLo);
    Elsewhere(a, b, base, base + nLo, base + nLo, base + n);
    EnclosedSame(pts, a, b, base + nLo, n - nLo, cell, dim);
  }

  lemma {:induction false} JoinSegments(low: Node, high: Node, pts: seq<Point>, s0: seq<int>, s1: seq<int>, s2: seq<int>, s3: seq<int>,
                     base: nat, n: nat, nLo: nat, box: Box, dim: nat, bsp: nat, cd: nat, cv: real)
    requires Points(pts, dim) && BoxOf(box, dim) && cd < dim && box.lo[cd] <= cv <= box.hi[cd]
    requires 0 < nLo <= n && base + n <= |s0| == |s1| == |s2| == |s3|
    requires Rearranged(s1, s0, base, base + n)
    requires Rearranged(s2, s1, base, base + nLo) && Rearranged(s3, s2, base + nLo, base + n)
    requires Built(low, pts, s2[base..base + nLo], LowCell(box, cd, cv), dim, bsp)
    requires Built(high, pts, s3[base + nLo..base + n], HighCell(box, cd, cv), dim, bsp)
    ensures Rearranged(s3, s0, base, base + n)
    ensures Built(Split(cd, cv, box.lo[cd], box.hi[cd], low, high), pts, s3[base..base + n], box, dim, bsp)
  {
    hide Built, Rearranged;
    Elsewhere(s3, s2, base + nLo, base + n, base, base + nLo);
    JoinBuilt(low, high, pts, s3[base..base + nLo], s3[base + nLo..base + n], box, dim, bsp, cd, cv);
    assert s3[base..base + n] == s3[base..base + nLo] + s3[base + nLo..base + n];
    RearrangedWider(s2, s1, base, base + nLo, base, base + n);
    RearrangedWider(s3, s2, base + nLo, base + n, base, base + n);
    RearrangedTrans(s2, s1, s0, base, base + n);
    RearrangedTrans(s3, s2, s0, base, base + n);
  }

  function Identity(n: nat): seq<int> {
    seq(n, i => i)
  }

  lemma {:induction false} OnceEach(s: seq<int>, n: nat)
    requires multiset(s) == multiset(Identity(n))
    ensures NoRepeats(s) && |s| == n && (forall i :: i in s <==> 0 <= i < n)
  {
    var id := Identity(n);
    assert |multiset(s)| == |s| && |multiset(id)| == |id|;
    IdentityCounts(n);
    forall i, j | 0 <= i < j < |s|
      ensures s[i] != s[j]
    {
      if s[i] == s[j] {
        TwiceCounted(s, i, j);
      }
    }
    forall i
      ensures i in s <==> 0 <= i < n
    {
      assert i in s <==> i in multiset(s);
      assert i in id <==> i in multiset(id);
      assert 0 <= i < n ==> id[i] == i;
    }
  }

  lemma {:induction false} IdentityCounts(n: nat)
    ensures forall i :: multiset(Identity(n))[i] <= 1
    ensures forall i :: i in multiset(Identity(n)) ==> i < n
  {
    if n > 0 {
      IdentityCounts(n - 1);
      assert Identity(n) == Identity(n - 1) + [n - 1];
    }
  }

  lemma {:induction false} TwiceCounted(s: seq<int>, i: nat, j: nat)
    requires i < j < |s| && s[i] == s[j]
    ensures multiset(s)[s[i]] >= 2
  {
    assert s == s[..j] + [s[j]] + s[j + 1..];
    assert s[i] in s[..j];
    assert s[i] in multiset(s[..j]);
    assert multiset(s) == multiset(s[..j]) + multiset([s[j]]) + multiset(s[j + 1..]);
  }

  // A tree whose buckets list every point once stores the points disjointly and completely.
  lemma {:induction false} CompleteTree(t: Node, n: nat)
    requires multiset(Buckets(t)) == multiset(Identity(n))
    ensures Disjoint(t) && Members(t) == Range(n)
  {
    OnceEach(Buckets(t), n);
    BucketsDisjoint(t);
    forall i
      ensures i in Members(t) <==> 0 <= i < n
    {
      MembersAreBuckets(t, i);
    }
  }

  method IdentityArray(n: nat) returns (pidx: array<int>)
    ensures fresh(pidx) && pidx[..] == Identity(n)
  {
    pidx := new int[n];
    for i := 0 to n
      invariant forall j :: 0 <= j < i ==> pidx[j] == j
    {
      pidx[i] := i;
    }
  }

  lemma {:induction false} IdentityIndexes(pts: seq<Point>, dim: nat)
    requires Points(pts, dim)
    ensures Indexes(Identity(|pts|), pts, dim)
  {
  }

  // The bounding box contains every point.
  lemma {:induction false} BoundsEnclose(pts: seq<Point>, s: seq<int>, n: nat, box: Box, dim: nat)
    requires Indexes(s, pts, dim) && 0 < n <= |s| && BoxOf(box, dim)
    requires Tight(pts, s, 0, n, box.lo, box.hi, dim)
    ensures Enclosed(pts, s, 0, n, box, dim)
  {
    forall i | 0 <= i < n
      ensures Marks(pts, s, 0, n, InBox(box), dim)[i]
    {
      forall d | 0 <= d < dim
        ensures box.lo[d] <= pts[s[i]][d] <= box.hi[d]
      {
        assert Values(pts, s, 0, n, d, dim)[i] == pts[s[0 + i]][d];
      }
    }
  }

  // The kd-tree of a point array, with its index array. The leaf buckets tile the index array in
  // preorder, no bucket exceeds the bucket size, and the tree is fit for every search.
  method BuildKdTree(pts: seq<Point>, dim: nat, bs: nat, rule: SplitRule) returns (t: Tree, pidx: array<int>)
    requires Points(pts, dim) && dim > 0 && bs > 0
    ensures fresh(pidx) && pidx.Length == |pts| && ValidTree(t) && t.pts == pts && t.dim == dim && t.bktSize == bs
    ensures (t.root.Some? <==> |pts| > 0) && (t.root.None? ==> t.box == Box([], []))
    ensures t.root.Some? ==>
              && Buckets(t.root.value) == pidx[..] && SmallBuckets(t.root.value, bs)
              && Populated(t.root.value) && NoShrink(t.root.value)
    ensures t.root.Some? ==> SmallestBox(t.box, pts, dim) && Ruled(t.root.value, t.box, pts, rule, NoShrinking, bs)
  {
    hide Indexes, Rearranged, Enclosed, Tight, WellFormed, Disjoint, Members, Range, Populated, SmallBuckets, NoShrink, Buckets, Ruled, SmallestBox;
    var n := |pts|;
    pidx := IdentityArray(n);
    if n == 0 {
      t := Tree(dim, pts, bs, Box([], []), None);
      return;
    }
    IdentityIndexes(pts, dim);
    var lo, hi := new real[dim], new real[dim];
    EnclRect(pts, pidx, 0, n, dim, lo, hi);
    var box := Box(lo[..], hi[..]);
    BoundsEnclose(pts, pidx[..], n, box, dim);
    TightSmallest(pts, pidx[..], box, dim);
    var root := RkdTree(pts, pidx, 0, n, dim, bs, lo, hi, rule);
    assert pidx[..][0..0 + n] == pidx[..];
    PermutedComplete(root, pidx[..], n);
    t := Tree(dim, pts, bs, box, Some(root));
  }

  lemma {:induction false} PermutedComplete(t: Node, s: seq<int>, n: nat)
    requires Rearranged(s, Identity(n), 0, n) && Buckets(t) == s
    ensures Disjoint(t) && Members(t) == Range(n)
  {
    CompleteTree(t, n);
  }
}
