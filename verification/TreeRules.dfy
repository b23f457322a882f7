// What a finished tree shows of the rules it was built by (3rd/ANN/kd_split.cpp,
// 3rd/ANN/bd_tree.cpp): where every splitting node is cut, when a node shrinks and to which box.
module TreeRules {
  import opened Geometry
  import opened BoundLists
  import opened SpatialTrees
  import opened PointPartition
  import opened ShrinkRules
  import opened Splitters

  datatype SplitRule = Standard | SlidingMidpoint

  datatype ShrinkRule = NoShrinking | Simple | Centroid

  // The coordinates of the listed points along axis d.
  function Coords(pts: seq<Point>, idx: seq<int>, d: nat, dim: nat): (v: seq<real>)
    requires Indexes(idx, pts, dim) && d < dim
    ensures |v| == |idx| && forall i :: 0 <= i < |v| ==> v[i] == pts[idx[i]][d]
  {
    Values(pts, idx, 0, |idx|, d, dim)
  }

  // ------------------------------------------------------------------
  // Cuts

  // The points of low and high were parted by the rule, at cv along axis cd of the cell.
  ghost predicate CutBy(rule: SplitRule, pts: seq<Point>, low: seq<int>, high: seq<int>, cell: Box, cd: nat, cv: real, dim: nat)
    requires Indexes(low, pts, dim) && Indexes(high, pts, dim) && low != [] && high != [] && BoxOf(cell, dim) && cd < dim
  {
    var all := low + high;
    var v, lowest, ideal := Coords(pts, all, cd, dim), Least(Coords(pts, all, cd, dim)), (cell.lo[cd] + cell.hi[cd]) / 2.0;
    match rule
    case Standard =>
      // half of the points, rounded down, along an axis of greatest spread, half way between the two middle ones
      && |low| == |all| / 2
      && (forall d :: 0 <= d < dim ==> Spread(Coords(pts, all, d, dim)) <= Spread(v))
      && cv == (Most(Coords(pts, low, cd, dim)) + Least(Coords(pts, high, cd, dim))) / 2.0
    case SlidingMidpoint =>
      // the middle of a nearly longest side, of greatest spread among these, or the nearest point's coordinate
      && NearLongest(cell, cd, dim)
      && (forall d :: 0 <= d < dim && NearLongest(cell, d, dim) ==> Spread(Coords(pts, all, d, dim)) <= Spread(v))
      && cv == (if ideal < lowest then lowest else if ideal > Most(v) then Most(v) else ideal)
      && (ideal < lowest ==> |low| == 1) && (ideal > Most(v) ==> |high| == 1)
      && (lowest <= ideal <= Most(v) ==>
            && (|low| > |all| / 2 ==> Most(Coords(pts, low, cd, dim)) < cv)
            && (|low| < |all| / 2 ==> Least(Coords(pts, high, cd, dim)) > cv))
  }

  lemma {:induction false} SameSize(a: seq<int>, b: seq<int>)
    requires multiset(a) == multiset(b)
    ensures |a| == |b|
  {
    assert |multiset(a)| == |a| && |multiset(b)| == |b|;
  }

  // The order of the points does not matter.
  lemma {:induction false} CoordsSame(pts: seq<Point>, a: seq<int>, b: seq<int>, d: nat, dim: nat)
    requires Indexes(a, pts, dim) && Indexes(b, pts, dim) && d < dim && a != [] && multiset(a) == multiset(b)
    ensures |a| == |b|
    ensures Least(Coords(pts, a, d, dim)) == Least(Coords(pts, b, d, dim)) && Most(Coords(pts, a, d, dim)) == Most(Coords(pts, b, d, dim))
    ensures Spread(Coords(pts, a, d, dim)) == Spread(Coords(pts, b, d, dim))
  {
    SameSize(a, b);
    assert a[0..0 + |a|] == a && b[0..0 + |b|] == b;
    hide Indexes, Least, Most;
    var va, vb := Coords(pts, a, d, dim), Coords(pts, b, d, dim);
    forall i | 0 <= i < |a|
      ensures va[i] in vb && vb[i] in va
    {
      SomeValue(pts, a, b, 0, |a|, d, dim, i);
      SomeValue(pts, b, a, 0, |a|, d, dim, i);
    }
    SameEntries(va, vb);
  }

  lemma {:induction false} SumSame(a: seq<int>, b: seq<int>, c: seq<int>, d: seq<int>, pts: seq<Point>, dim: nat)
    requires multiset(a) == multiset(c) && multiset(b) == multiset(d)
    ensures multiset(a + b) == multiset(c + d) && |a| == |c| && |b| == |d|
    ensures Indexes(a, pts, dim) && Indexes(b, pts, dim) ==> Indexes(a + b, pts, dim)
    ensures Indexes(c, pts, dim) && Indexes(d, pts, dim) ==> Indexes(c + d, pts, dim)
  {
    SameSize(a, c);
    SameSize(b, d);
  }

  lemma {:induction false} SpreadsSame(pts: seq<Point>, a: seq<int>, b: seq<int>, dim: nat)
    requires Indexes(a, pts, dim) && Indexes(b, pts, dim) && a != [] && multiset(a) == multiset(b)
    ensures |a| == |b| && forall d :: 0 <= d < dim ==> Spread(Coords(pts, a, d, dim)) == Spread(Coords(pts, b, d, dim))
  {
    SameSize(a, b);
    hide Coords, Indexes, Spread;
    forall d | 0 <= d < dim
      ensures Spread(Coords(pts, a, d, dim)) == Spread(Coords(pts, b, d, dim))
    {
      CoordsSame(pts, a, b, d, dim);
    }
  }

  lemma {:induction false} CutSame(rule: SplitRule, pts: seq<Point>, low: seq<int>, high: seq<int>, low2: seq<int>, high2: seq<int>,
                                   cell: Box, cd: nat, cv: real, dim: nat)
    requires Indexes(low, pts, dim) && Indexes(high, pts, dim) && low != [] && high != [] && BoxOf(cell, dim) && cd < dim
    requires Indexes(low2, pts, dim) && Indexes(high2, pts, dim) && multiset(low) == multiset(low2) && multiset(high) == multiset(high2)
    requires CutBy(rule, pts, low, high, cell, cd, cv, dim)
    ensures low2 != [] && high2 != [] && CutBy(rule, pts, low2, high2, cell, cd, cv, dim)
  {
    SumSame(low, high, low2, high2, pts, dim);
    hide Coords, Indexes, Least, Most, Spread, NearLongest;
    CoordsSame(pts, low, low2, cd, dim);
    CoordsSame(pts, high, high2, cd, dim);
    CoordsSame(pts, low + high, low2 + high2, cd, dim);
    SpreadsSame(pts, low + high, low2 + high2, dim);
  }

  // A segment of the index array and the list of its entries.
  lemma {:induction false} SegmentCoords(pts: seq<Point>, s: seq<int>, base: nat, n: nat, d: nat, dim: nat)
    requires Indexes(s, pts, dim) && base + n <= |s| && d < dim
    ensures Indexes(s[base..base + n], pts, dim) && Coords(pts, s[base..base + n], d, dim) == Values(pts, s, base, n, d, dim)
  {
  }

  lemma {:induction false} Parts(s: seq<int>, base: nat, n: nat, nLo: nat)
    requires base + n <= |s| && nLo <= n
    ensures s[base..base + nLo] == s[base..base + n][..nLo] && s[base + nLo..base + n] == s[base..base + n][nLo..]
    ensures s[base..base + nLo] + s[base + nLo..base + n] == s[base..base + n]
  {
  }

  lemma {:induction false} PartCoords(pts: seq<Point>, seg: seq<int>, nLo: nat, d: nat, dim: nat)
    requires Indexes(seg, pts, dim) && d < dim && nLo <= |seg|
    ensures Indexes(seg[..nLo], pts, dim) && Indexes(seg[nLo..], pts, dim)
    ensures Coords(pts, seg[..nLo], d, dim) == Coords(pts, seg, d, dim)[..nLo]
    ensures Coords(pts, seg[nLo..], d, dim) == Coords(pts, seg, d, dim)[nLo..]
  {
    assert Indexes(seg[..nLo], pts, dim) && Indexes(seg[nLo..], pts, dim);
    hide Indexes;
    var v := Coords(pts, seg, d, dim);
    hide Coords;
    var low, high := Coords(pts, seg[..nLo], d, dim), Coords(pts, seg[nLo..], d, dim);
    assert forall i :: 0 <= i < nLo ==> low[i] == v[i];
    assert forall i :: 0 <= i < |seg| - nLo ==> high[i] == v[nLo + i];
  }

  // The spreads of a segment in either form.
  lemma {:induction false} SegmentSpreads(pts: seq<Point>, s0: seq<int>, s: seq<int>, base: nat, n: nat, dim: nat)
    requires Indexes(s0, pts, dim) && Indexes(s, pts, dim) && base + n <= |s0| && base + n <= |s| && n > 0
    requires Rearranged(s, s0, base, base + n)
    ensures Indexes(s[base..base + n], pts, dim)
    ensures forall d :: 0 <= d < dim ==> Spread(Coords(pts, s[base..base + n], d, dim)) == Spread(Values(pts, s0, base, n, d, dim))
    ensures forall d :: 0 <= d < dim ==> Coords(pts, s[base..base + n], d, dim) == Values(pts, s, base, n, d, dim)
  {
    assert Indexes(s[base..base + n], pts, dim);
    hide Indexes, Rearranged, Values, Coords, Least, Most;
    forall d | 0 <= d < dim
      ensures Spread(Coords(pts, s[base..base + n], d, dim)) == Spread(Values(pts, s0, base, n, d, dim))
      ensures Coords(pts, s[base..base + n], d, dim) == Values(pts, s, base, n, d, dim)
    {
      SegmentCoords(pts, s, base, n, d, dim);
      SameExtremes(pts, s, s0, base, n, d, dim);
    }
  }

  // What the two splitters promise, in these terms: after the split s the first nLo points are low.
  lemma {:induction false} StandardCut(pts: seq<Point>, s0: seq<int>, s: seq<int>, base: nat, n: nat, box: Box, dim: nat, cd: nat, cv: real, nLo: nat)
    requires Indexes(s0, pts, dim) && Indexes(s, pts, dim) && base + n <= |s0| && base + n <= |s| && BoxOf(box, dim)
    requires Rearranged(s, s0, base, base + n) && cd < dim && 1 <= nLo < n && nLo == n / 2
    requires var v := Values(pts, s, base, n, cd, dim); cv == (Most(v[..nLo]) + Least(v[nLo..])) / 2.0
    requires forall d :: 0 <= d < dim ==> Spread(Values(pts, s0, base, n, d, dim)) <= Spread(Values(pts, s0, base, n, cd, dim))
    ensures Indexes(s[base..base + nLo], pts, dim) && Indexes(s[base + nLo..base + n], pts, dim)
    ensures CutBy(Standard, pts, s[base..base + nLo], s[base + nLo..base + n], box, cd, cv, dim)
  {
    hide Indexes, Rearranged, Values, Coords, Least, Most, Spread;
    SegmentSpreads(pts, s0, s, base, n, dim);
    Parts(s, base, n, nLo);
    PartCoords(pts, s[base..base + n], nLo, cd, dim);
    var low, high := s[base..base + nLo], s[base + nLo..base + n];
    assert low + high == s[base..base + n];
    forall d | 0 <= d < dim
      ensures Spread(Coords(pts, low + high, d, dim)) <= Spread(Coords(pts, low + high, cd, dim))
    {
      assert Spread(Values(pts, s0, base, n, d, dim)) <= Spread(Values(pts, s0, base, n, cd, dim));
    }
  }

  lemma {:induction false} SlidingCut(pts: seq<Point>, s0: seq<int>, s: seq<int>, base: nat, n: nat, box: Box, dim: nat, cd: nat, cv: real, nLo: nat)
    requires Indexes(s0, pts, dim) && Indexes(s, pts, dim) && base + n <= |s0| && base + n <= |s| && BoxOf(box, dim)
    requires Rearranged(s, s0, base, base + n) && cd < dim && 1 <= nLo < n && NearLongest(box, cd, dim)
    requires forall d :: 0 <= d < dim && NearLongest(box, d, dim) ==>
               Spread(Values(pts, s0, base, n, d, dim)) <= Spread(Values(pts, s0, base, n, cd, dim))
    requires var v := Values(pts, s0, base, n, cd, dim); var mid := (box.lo[cd] + box.hi[cd]) / 2.0;
             cv == if mid < Least(v) then Least(v) else if mid > Most(v) then Most(v) else mid
    requires Balanced(Values(pts, s, base, n, cd, dim), (box.lo[cd] + box.hi[cd]) / 2.0, cv, nLo)
    ensures Indexes(s[base..base + nLo], pts, dim) && Indexes(s[base + nLo..base + n], pts, dim)
    ensures CutBy(SlidingMidpoint, pts, s[base..base + nLo], s[base + nLo..base + n], box, cd, cv, dim)
  {
    hide Indexes, Rearranged, Values, Coords, Least, Most, NearLongest;
    SegmentSpreads(pts, s0, s, base, n, dim);
    SameExtremes(pts, s, s0, base, n, cd, dim);
    Parts(s, base, n, nLo);
    PartCoords(pts, s[base..base + n], nLo, cd, dim);
  }

  // The segment has just been split by the rule, with its first nLo points on the low side.
  ghost predicate SplitBy(rule: SplitRule, pts: seq<Point>, s: seq<int>, base: nat, n: nat, nLo: nat, box: Box, cd: nat, cv: real, dim: nat) {
    && base + n <= |s| && 1 <= nLo < n && BoxOf(box, dim) && cd < dim
    && Indexes(s[base..base + nLo], pts, dim) && Indexes(s[base + nLo..base + n], pts, dim)
    && CutBy(rule, pts, s[base..base + nLo], s[base + nLo..base + n], box, cd, cv, dim)
  }

  // The smallest box that holds all points.
  ghost predicate SmallestBox(b: Box, pts: seq<Point>, dim: nat) {
    && BoxOf(b, dim) && (forall i :: 0 <= i < |pts| ==> |pts[i]| == dim && Inside(b, pts[i]))
    && (forall d :: 0 <= d < dim ==> Touches(pts, d, b.lo[d]) && Touches(pts, d, b.hi[d]))
  }

  ghost predicate Touches(pts: seq<Point>, d: nat, x: real) {
    exists i :: 0 <= i < |pts| && d < |pts[i]| && pts[i][d] == x
  }

  lemma {:induction false} TightSmallest(pts: seq<Point>, s: seq<int>, box: Box, dim: nat)
    requires Indexes(s, pts, dim) && 0 < |s| && BoxOf(box, dim) && Tight(pts, s, 0, |s|, box.lo, box.hi, dim)
    requires |s| == |pts| && forall i :: 0 <= i < |pts| ==> s[i] == i
    ensures SmallestBox(box, pts, dim)
  {
    hide Least, Most;
    forall d | 0 <= d < dim
      ensures Touches(pts, d, box.lo[d]) && Touches(pts, d, box.hi[d])
      ensures forall i :: 0 <= i < |pts| ==> box.lo[d] <= pts[i][d] <= box.hi[d]
    {
      var v := Values(pts, s, 0, |s|, d, dim);
      var j :| 0 <= j < |v| && v[j] == Least(v);
      var k :| 0 <= k < |v| && v[k] == Most(v);
      assert pts[s[j]][d] == box.lo[d] && pts[s[k]][d] == box.hi[d];
      forall i | 0 <= i < |pts|
        ensures box.lo[d] <= pts[i][d] <= box.hi[d]
      {
        assert v[i] == pts[i][d];
      }
    }
  }

  // ------------------------------------------------------------------
  // Shrinks

  // Side k leaves a gap of at least half the length m: the high side of axis k / 2 for even k, its
  // low side for odd k.
  predicate WideSide(tight: Box, cell: Box, m: real, k: nat)
    requires BoxOf(tight, |cell.lo|) && BoxOf(cell, |cell.lo|) && k < 2 * |cell.lo|
  {
    if k % 2 == 0 then cell.hi[k / 2] - tight.hi[k / 2] >= 0.5 * m else tight.lo[k / 2] - cell.lo[k / 2] >= 0.5 * m
  }

  ghost predicate TwoWide(tight: Box, cell: Box, m: real, d: nat)
    requires BoxOf(tight, |cell.lo|) && BoxOf(cell, |cell.lo|) && d <= |cell.lo|
  {
    exists j, k :: 0 <= j < k < 2 * d && WideSide(tight, cell, m, j) && WideSide(tight, cell, m, k)
  }

  ghost predicate OneWide(tight: Box, cell: Box, m: real, d: nat)
    requires BoxOf(tight, |cell.lo|) && BoxOf(cell, |cell.lo|) && d <= |cell.lo|
  {
    exists k :: 0 <= k < 2 * d && WideSide(tight, cell, m, k)
  }

  lemma {:induction false} CountsWide(tight: Box, cell: Box, m: real, d: nat)
    requires BoxOf(tight, |cell.lo|) && BoxOf(cell, |cell.lo|) && d <= |cell.lo|
    ensures Gaps(tight, cell, m, d) >= 1 <==> OneWide(tight, cell, m, d)
    ensures Gaps(tight, cell, m, d) >= 2 <==> TwoWide(tight, cell, m, d)
  {
    if d > 0 {
      CountsWide(tight, cell, m, d - 1);
      var h, l := 2 * (d - 1), 2 * (d - 1) + 1;
      assert h / 2 == d - 1 && h % 2 == 0 && l / 2 == d - 1 && l % 2 == 1;
      var wh, wl := WideSide(tight, cell, m, h), WideSide(tight, cell, m, l);
      assert Gaps(tight, cell, m, d) == Gaps(tight, cell, m, d - 1) + (if wh then 1 else 0) + (if wl then 1 else 0);
      hide Gaps, WideSide;
      OneMore(tight, cell, m, d, h, l);
      TwoMore(tight, cell, m, d, h, l);
    }
  }

  lemma {:induction false} OneMore(tight: Box, cell: Box, m: real, d: nat, h: nat, l: nat)
    requires BoxOf(tight, |cell.lo|) && BoxOf(cell, |cell.lo|) && 0 < d <= |cell.lo| && h == 2 * d - 2 && l == 2 * d - 1
    ensures OneWide(tight, cell, m, d) <==> OneWide(tight, cell, m, d - 1) || WideSide(tight, cell, m, h) || WideSide(tight, cell, m, l)
  {
    hide WideSide;
  }

  lemma {:induction false} TwoMore(tight: Box, cell: Box, m: real, d: nat, h: nat, l: nat)
    requires BoxOf(tight, |cell.lo|) && BoxOf(cell, |cell.lo|) && 0 < d <= |cell.lo| && h == 2 * d - 2 && l == 2 * d - 1
    ensures TwoWide(tight, cell, m, d) <==>
            || TwoWide(tight, cell, m, d - 1)
            || (WideSide(tight, cell, m, h) && WideSide(tight, cell, m, l))
            || (OneWide(tight, cell, m, d - 1) && (WideSide(tight, cell, m, h) || WideSide(tight, cell, m, l)))
  {
    hide WideSide;
  }

  // The smallest box around the listed points, and its longest side.
  function Around(pts: seq<Point>, all: seq<int>, dim: nat): (b: Box)
    requires Indexes(all, pts, dim) && all != []
    ensures BoxOf(b, dim)
    ensures forall d :: 0 <= d < dim ==> b.lo[d] == Least(Coords(pts, all, d, dim)) && b.hi[d] == Most(Coords(pts, all, d, dim))
  {
    TightBox(pts, all, 0, |all|, dim)
  }

  lemma {:induction false} AroundSame(pts: seq<Point>, a: seq<int>, b: seq<int>, dim: nat)
    requires Indexes(a, pts, dim) && Indexes(b, pts, dim) && a != [] && multiset(a) == multiset(b)
    ensures b != [] && Around(pts, a, dim) == Around(pts, b, dim)
  {
    SameSize(a, b);
    hide Indexes, Coords, Least, Most;
    var x, y := Around(pts, a, dim), Around(pts, b, dim);
    forall d | 0 <= d < dim
      ensures x.lo[d] == y.lo[d] && x.hi[d] == y.hi[d]
    {
      CoordsSame(pts, a, b, d, dim);
    }
    assert x.lo == y.lo && x.hi == y.hi;
  }

  // The box of the points with every side moved back out to the cell whose gap is less than half
  // the box's longest side.
  ghost predicate SimplyDrawn(tight: Box, cell: Box, inner: Box, dim: nat)
    requires BoxOf(tight, dim) && BoxOf(cell, dim)
  {
    BoxOf(inner, dim) &&
    var m := Longest(tight, dim);
    forall d :: 0 <= d < dim ==>
      && inner.lo[d] == (if tight.lo[d] - cell.lo[d] >= 0.5 * m then tight.lo[d] else cell.lo[d])
      && inner.hi[d] == (if cell.hi[d] - tight.hi[d] >= 0.5 * m then tight.hi[d] else cell.hi[d])
  }

  lemma {:induction false} SimpleIs(pts: seq<Point>, all: seq<int>, cell: Box, dim: nat)
    requires Indexes(all, pts, dim) && all != [] && BoxOf(cell, dim)
    ensures var tight := Around(pts, all, dim);
            && (SimpleChoice(pts, all, 0, |all|, cell, dim) == ShrinkCell <==> TwoWide(tight, cell, Longest(tight, dim), dim))
            && SimplyDrawn(tight, cell, SimpleBox(pts, all, 0, |all|, cell, dim), dim)
  {
    var tight := Around(pts, all, dim);
    CountsWide(tight, cell, Longest(tight, dim), dim);
    DrawnIs(tight, cell, dim);
    hide Indexes, Gaps, Longest, TightBox, TwoWide, Drawn, SimplyDrawn;
    AroundIs(pts, all, dim);
  }

  lemma {:induction false} AroundIs(pts: seq<Point>, all: seq<int>, dim: nat)
    requires Indexes(all, pts, dim) && all != []
    ensures Around(pts, all, dim) == TightBox(pts, all, 0, |all|, dim)
  {
    hide Indexes, TightBox;
  }

  lemma {:induction false} DrawnIs(tight: Box, cell: Box, dim: nat)
    requires BoxOf(tight, dim) && BoxOf(cell, dim)
    ensures SimplyDrawn(tight, cell, Drawn(tight, cell, Longest(tight, dim)), dim)
  {
    hide Longest;
  }

  // ------------------------------------------------------------------
  // The centroid rule's repeated cuts

  datatype Stage = Stage(rest: seq<int>, box: Box)

  // The stage p is cut by the rule, and the larger side goes on.
  ghost predicate TakesLarger(rule: SplitRule, pts: seq<Point>, p: Stage, st: Stage, low: seq<int>, high: seq<int>, cd: nat, cv: real, dim: nat) {
    && Indexes(low, pts, dim) && Indexes(high, pts, dim) && low != [] && high != [] && BoxOf(p.box, dim) && cd < dim
    && multiset(low) + multiset(high) == multiset(p.rest)
    && CutBy(rule, pts, low, high, p.box, cd, cv, dim)
    && st == if |low| >= |p.rest| / 2 then Stage(low, LowCell(p.box, cd, cv)) else Stage(high, HighCell(p.box, cd, cv))
  }

  ghost predicate Halved(rule: SplitRule, pts: seq<Point>, p: Stage, st: Stage, dim: nat) {
    exists low, high, cd: nat, cv :: TakesLarger(rule, pts, p, st, low, high, cd, cv, dim)
  }

  // The stage st is reached from all points of the cell by k cuts, each of more than half of them.
  ghost predicate Reached(rule: SplitRule, pts: seq<Point>, all: seq<int>, cell: Box, k: nat, st: Stage, dim: nat)
    decreases k
  {
    if k == 0 then multiset(st.rest) == multiset(all) && st.box == cell
    else exists p: Stage :: Reached(rule, pts, all, cell, k - 1, p, dim) && |p.rest| > |all| / 2 && Halved(rule, pts, p, st, dim)
  }

  // So many cuts it takes until half of the points are left, within the inner box.
  ghost predicate Centred(rule: SplitRule, pts: seq<Point>, all: seq<int>, cell: Box, k: nat, st: Stage, dim: nat) {
    Reached(rule, pts, all, cell, k, st, dim) && |st.rest| <= |all| / 2
  }

  lemma {:induction false} ReachedSame(rule: SplitRule, pts: seq<Point>, a: seq<int>, b: seq<int>, cell: Box, k: nat, st: Stage, dim: nat)
    requires Reached(rule, pts, a, cell, k, st, dim) && multiset(a) == multiset(b)
    ensures Reached(rule, pts, b, cell, k, st, dim)
    decreases k
  {
    hide Halved;
    SameSize(a, b);
    if k > 0 {
      var p: Stage :| Reached(rule, pts, a, cell, k - 1, p, dim) && |p.rest| > |a| / 2 && Halved(rule, pts, p, st, dim);
      ReachedSame(rule, pts, a, b, cell, k - 1, p, dim);
    }
  }

  lemma {:induction false} ReachedNext(rule: SplitRule, pts: seq<Point>, all: seq<int>, cell: Box, k: nat, p: Stage, st: Stage, dim: nat)
    requires Reached(rule, pts, all, cell, k, p, dim) && |p.rest| > |all| / 2 && Halved(rule, pts, p, st, dim)
    ensures Reached(rule, pts, all, cell, k + 1, st, dim)
  {
    hide Halved;
  }

  // ------------------------------------------------------------------
  // The decision at a node

  // With these points a node of the cell is not to shrink.
  ghost predicate MaySplit(shrink: ShrinkRule, rule: SplitRule, pts: seq<Point>, all: seq<int>, cell: Box, dim: nat)
    requires Indexes(all, pts, dim) && all != [] && BoxOf(cell, dim)
  {
    match shrink
    case NoShrinking => true
    case Simple => var tight := Around(pts, all, dim); !TwoWide(tight, cell, Longest(tight, dim), dim)
    case Centroid => exists k: nat, st :: Centred(rule, pts, all, cell, k, st, dim) && 2 * k <= dim
  }

  // With these points a node of the cell is to shrink, to this box.
  ghost predicate MayShrink(shrink: ShrinkRule, rule: SplitRule, pts: seq<Point>, all: seq<int>, cell: Box, inner: Box, dim: nat)
    requires Indexes(all, pts, dim) && all != [] && BoxOf(cell, dim)
  {
    match shrink
    case NoShrinking => false
    case Simple =>
      var tight := Around(pts, all, dim); TwoWide(tight, cell, Longest(tight, dim), dim) && SimplyDrawn(tight, cell, inner, dim)
    case Centroid => exists k: nat, rest :: Centred(rule, pts, all, cell, k, Stage(rest, inner), dim) && 2 * k > dim
  }

  lemma {:induction false} DecisionSame(shrink: ShrinkRule, rule: SplitRule, pts: seq<Point>, a: seq<int>, b: seq<int>, cell: Box, inner: Box, dim: nat)
    requires Indexes(a, pts, dim) && Indexes(b, pts, dim) && a != [] && multiset(a) == multiset(b) && BoxOf(cell, dim)
    ensures b != [] && (MaySplit(shrink, rule, pts, a, cell, dim) ==> MaySplit(shrink, rule, pts, b, cell, dim))
    ensures MayShrink(shrink, rule, pts, a, cell, inner, dim) ==> MayShrink(shrink, rule, pts, b, cell, inner, dim)
  {
    SameSize(a, b);
    AroundSame(pts, a, b, dim);
    hide Indexes, Around, Reached;
    if shrink == Centroid && MaySplit(shrink, rule, pts, a, cell, dim) {
      var k: nat, st :| Centred(rule, pts, a, cell, k, st, dim) && 2 * k <= dim;
      ReachedSame(rule, pts, a, b, cell, k, st, dim);
      assert Centred(rule, pts, b, cell, k, st, dim);
    }
    if shrink == Centroid && MayShrink(shrink, rule, pts, a, cell, inner, dim) {
      var k: nat, rest :| Centred(rule, pts, a, cell, k, Stage(rest, inner), dim) && 2 * k > dim;
      ReachedSame(rule, pts, a, b, cell, k, Stage(rest, inner), dim);
      assert Centred(rule, pts, b, cell, k, Stage(rest, inner), dim);
    }
  }

  // The decision for the points of a segment, with the inner box of a shrink.
  ghost predicate Decided(decomp: Decomp, shrink: ShrinkRule, rule: SplitRule, pts: seq<Point>, all: seq<int>, cell: Box, inner: Box, dim: nat) {
    && Indexes(all, pts, dim) && all != [] && BoxOf(cell, dim)
    && if decomp == SplitCell then MaySplit(shrink, rule, pts, all, cell, dim) else MayShrink(shrink, rule, pts, all, cell, inner, dim)
  }

  lemma {:induction false} DecidedSame(decomp: Decomp, shrink: ShrinkRule, rule: SplitRule, pts: seq<Point>, a: seq<int>, b: seq<int>, cell: Box, inner: Box, dim: nat)
    requires Decided(decomp, shrink, rule, pts, a, cell, inner, dim) && Indexes(b, pts, dim) && multiset(a) == multiset(b)
    ensures Decided(decomp, shrink, rule, pts, b, cell, inner, dim)
  {
    hide MaySplit, MayShrink, Indexes;
    DecisionSame(shrink, rule, pts, a, b, cell, inner, dim);
  }

  // A segment of the index array and the list of its entries have the same smallest box.
  lemma {:induction false} SegmentAround(pts: seq<Point>, s: seq<int>, base: nat, n: nat, dim: nat)
    requires Indexes(s, pts, dim) && base + n <= |s| && n > 0
    ensures Indexes(s[base..base + n], pts, dim) && Around(pts, s[base..base + n], dim) == TightBox(pts, s, base, n, dim)
  {
    var seg := s[base..base + n];
    assert Indexes(seg, pts, dim);
    var x, y := Around(pts, seg, dim), TightBox(pts, s, base, n, dim);
    hide Indexes, Values, Coords, Least, Most, TightBox;
    forall d | 0 <= d < dim
      ensures x.lo[d] == y.lo[d] && x.hi[d] == y.hi[d]
    {
      SegmentCoords(pts, s, base, n, d, dim);
    }
    assert x.lo == y.lo && x.hi == y.hi;
  }

  lemma {:induction false} SimpleDecided(rule: SplitRule, pts: seq<Point>, s: seq<int>, base: nat, n: nat, cell: Box, dim: nat)
    requires Indexes(s, pts, dim) && base + n <= |s| && n > 0 && BoxOf(cell, dim)
    ensures Decided(SimpleChoice(pts, s, base, n, cell, dim), Simple, rule, pts, s[base..base + n], cell, SimpleBox(pts, s, base, n, cell, dim), dim)
  {
    SegmentAround(pts, s, base, n, dim);
    SimpleIs(pts, s[base..base + n], cell, dim);
    AroundIs(pts, s[base..base + n], dim);
    hide Indexes, TightBox, Gaps, Longest, Drawn, TwoWide, SimplyDrawn;
  }

  // The split of a stage.
  lemma {:induction false} StageCut(rule: SplitRule, pts: seq<Point>, s0: seq<int>, s: seq<int>, sub: nat, nSub: nat, nLo: nat, box: Box, cd: nat, cv: real, dim: nat)
    requires SplitBy(rule, pts, s, sub, nSub, nLo, box, cd, cv, dim) && Rearranged(s, s0, sub, sub + nSub)
    ensures |s0| == |s| && Halved(rule, pts, Stage(s0[sub..sub + nSub], box),
                   if nLo >= nSub / 2 then Stage(s[sub..sub + nLo], LowCell(box, cd, cv)) else Stage(s[sub + nLo..sub + nSub], HighCell(box, cd, cv)), dim)
  {
    hide CutBy, Indexes, Rearranged;
    SameLength(s, s0, sub, sub + nSub);
    SegmentKept(s, s0, sub, sub + nSub);
    Parts(s, sub, nSub, nLo);
    var low, high := s[sub..sub + nLo], s[sub + nLo..sub + nSub];
    assert multiset(low + high) == multiset(low) + multiset(high);
    assert TakesLarger(rule, pts, Stage(s0[sub..sub + nSub], box),
                   if nLo >= nSub / 2 then Stage(low, LowCell(box, cd, cv)) else Stage(high, HighCell(box, cd, cv)), low, high, cd, cv, dim);
  }

  // ------------------------------------------------------------------
  // The tree

  // Every node that is no leaf has more points than a bucket holds; the rules say whether it splits
  // or shrinks, where it is cut and which box it shrinks to.
  ghost predicate Ruled(t: Node, cell: Box, pts: seq<Point>, rule: SplitRule, shrink: ShrinkRule, bsp: nat)
    requires BoxOf(cell, |cell.lo|)
  {
    var dim := |cell.lo|;
    match t
    case Leaf(_) => true
    case Split(cd, cv, _, _, low, high) =>
      && |Buckets(t)| > bsp && Indexes(Buckets(low), pts, dim) && Indexes(Buckets(high), pts, dim)
      && 0 <= cd < dim && Buckets(low) != [] && Buckets(high) != []
      && CutBy(rule, pts, Buckets(low), Buckets(high), cell, cd, cv, dim)
      && MaySplit(shrink, rule, pts, Buckets(low) + Buckets(high), cell, dim)
      && Ruled(low, LowCell(cell, cd, cv), pts, rule, shrink, bsp) && Ruled(high, HighCell(cell, cd, cv), pts, rule, shrink, bsp)
    case Shrink(bnds, inner, outer) =>
      && |Buckets(t)| > bsp && Indexes(Buckets(inner), pts, dim) && Indexes(Buckets(outer), pts, dim) && Axes(bnds, dim)
      && MayShrink(shrink, rule, pts, Buckets(inner) + Buckets(outer), cell, Projected(cell, bnds), dim)
      && (forall i :: i in Buckets(outer) ==> !Inside(Projected(cell, bnds), pts[i]))
      && Ruled(inner, Projected(cell, bnds), pts, rule, shrink, bsp) && Ruled(outer, cell, pts, rule, shrink, bsp)
  }

  lemma {:induction false} RuledSplit(low: Node, high: Node, pts: seq<Point>, cell: Box, dim: nat, cd: nat, cv: real,
                                      rule: SplitRule, shrink: ShrinkRule, bsp: nat)
    requires BoxOf(cell, dim) && cd < dim && Indexes(Buckets(low), pts, dim) && Indexes(Buckets(high), pts, dim)
    requires Indexes(Buckets(low) + Buckets(high), pts, dim)
    requires Buckets(low) != [] && Buckets(high) != [] && |Buckets(low)| + |Buckets(high)| > bsp
    requires CutBy(rule, pts, Buckets(low), Buckets(high), cell, cd, cv, dim)
    requires MaySplit(shrink, rule, pts, Buckets(low) + Buckets(high), cell, dim)
    requires Ruled(low, LowCell(cell, cd, cv), pts, rule, shrink, bsp) && Ruled(high, HighCell(cell, cd, cv), pts, rule, shrink, bsp)
    ensures Ruled(Split(cd, cv, cell.lo[cd], cell.hi[cd], low, high), cell, pts, rule, shrink, bsp)
  {
    hide CutBy, MaySplit, Indexes;
  }

  lemma {:induction false} JoinRuled(low: Node, high: Node, pts: seq<Point>, a: seq<int>, b: seq<int>, cell: Box, dim: nat, cd: nat, cv: real,
                                     rule: SplitRule, shrink: ShrinkRule, bsp: nat)
    requires BoxOf(cell, dim) && cd < dim && Indexes(a, pts, dim) && Indexes(b, pts, dim) && a != [] && b != [] && |a| + |b| > bsp
    requires multiset(Buckets(low)) == multiset(a) && multiset(Buckets(high)) == multiset(b)
    requires Indexes(Buckets(low), pts, dim) && Indexes(Buckets(high), pts, dim) && Indexes(a + b, pts, dim)
    requires CutBy(rule, pts, a, b, cell, cd, cv, dim) && MaySplit(shrink, rule, pts, a + b, cell, dim)
    requires Ruled(low, LowCell(cell, cd, cv), pts, rule, shrink, bsp) && Ruled(high, HighCell(cell, cd, cv), pts, rule, shrink, bsp)
    ensures Ruled(Split(cd, cv, cell.lo[cd], cell.hi[cd], low, high), cell, pts, rule, shrink, bsp)
  {
    hide CutBy, MaySplit, MayShrink, Indexes, Ruled, Buckets;
    var x, y := Buckets(low), Buckets(high);
    SumSame(a, b, x, y, pts, dim);
    CutSame(rule, pts, a, b, x, y, cell, cd, cv, dim);
    DecisionSame(shrink, rule, pts, a + b, x + y, cell, cell, dim);
    RuledSplit(low, high, pts, cell, dim, cd, cv, rule, shrink, bsp);
  }

  lemma {:induction false} RuledShrink(inn: Node, out: Node, pts: seq<Point>, cell: Box, bnds: seq<HalfSpace>, dim: nat,
                                       rule: SplitRule, shrink: ShrinkRule, bsp: nat)
    requires BoxOf(cell, dim) && Axes(bnds, dim) && Indexes(Buckets(inn), pts, dim) && Indexes(Buckets(out), pts, dim)
    requires Indexes(Buckets(inn) + Buckets(out), pts, dim) && |Buckets(inn) + Buckets(out)| > bsp
    requires MayShrink(shrink, rule, pts, Buckets(inn) + Buckets(out), cell, Projected(cell, bnds), dim)
    requires forall i :: i in Buckets(out) ==> |pts[i]| == dim && !Inside(Projected(cell, bnds), pts[i])
    requires Ruled(inn, Projected(cell, bnds), pts, rule, shrink, bsp) && Ruled(out, cell, pts, rule, shrink, bsp)
    ensures Ruled(Shrink(bnds, inn, out), cell, pts, rule, shrink, bsp)
  {
    hide MayShrink, Indexes, Inside, Projected;
  }

  lemma {:induction false} JoinShrunk(inn: Node, out: Node, pts: seq<Point>, a: seq<int>, cell: Box, inner: Box, dim: nat,
                                      rule: SplitRule, shrink: ShrinkRule, bsp: nat)
    requires BoxOf(cell, dim) && InnerOk(inner, cell, dim) && Indexes(a, pts, dim) && a != [] && |a| > bsp
    requires Indexes(Buckets(inn), pts, dim) && Indexes(Buckets(out), pts, dim) && multiset(Buckets(inn) + Buckets(out)) == multiset(a)
    requires MayShrink(shrink, rule, pts, a, cell, inner, dim)
    requires forall i :: i in Buckets(out) ==> 0 <= i < |pts| && |pts[i]| == dim && !Inside(inner, pts[i])
    requires Ruled(inn, inner, pts, rule, shrink, bsp) && Ruled(out, cell, pts, rule, shrink, bsp)
    ensures Ruled(Shrink(Bounds(inner, cell, dim), inn, out), cell, pts, rule, shrink, bsp)
  {
    BoundsRoundTrip(inner, cell);
    hide MayShrink, MaySplit, Indexes, Inside, Ruled, Buckets, Projected, Bounds, InnerOk, Proper, Within;
    var x := Buckets(inn) + Buckets(out);
    SameSize(a, x);
    SumSame(Buckets(inn), Buckets(out), Buckets(inn), Buckets(out), pts, dim);
    DecisionSame(shrink, rule, pts, a, x, cell, inner, dim);
    RuledShrink(inn, out, pts, cell, Bounds(inner, cell, dim), dim, rule, shrink, bsp);
  }

  // A tree of which no node was to shrink has no shrinking node.
  lemma {:induction false} NeverShrunk(t: Node, cell: Box, pts: seq<Point>, rule: SplitRule, bsp: nat)
    requires BoxOf(cell, |cell.lo|) && Ruled(t, cell, pts, rule, NoShrinking, bsp)
    ensures NoShrink(t)
    decreases t
  {
    hide CutBy, Indexes;
    if t.Split? {
      NeverShrunk(t.low, LowCell(cell, t.cd, t.cv), pts, rule, bsp);
      NeverShrunk(t.high, HighCell(cell, t.cd, t.cv), pts, rule, bsp);
    }
  }
}
