// Two splitting rules for kd-trees (3rd/ANN/kd_split.cpp) and the spread computations they use
// (3rd/ANN/kd_util.cpp). With these rules both sides of a split hold points.
module Splitters {
  import opened Geometry
  import opened PointPartition

  function Least(v: seq<real>): (r: real)
    requires |v| > 0
    ensures r in v && forall i :: 0 <= i < |v| ==> r <= v[i]
  {
    if |v| == 1 then v[0]
    else
      var m := Least(v[..|v| - 1]);
      if v[|v| - 1] < m then v[|v| - 1] else m
  }

  function Most(v: seq<real>): (r: real)
    requires |v| > 0
    ensures r in v && forall i :: 0 <= i < |v| ==> v[i] <= r
  {
    if |v| == 1 then v[0]
    else
      var m := Most(v[..|v| - 1]);
      if v[|v| - 1] > m then v[|v| - 1] else m
  }

  function Spread(v: seq<real>): (r: real)
    requires |v| > 0
    ensures r >= 0.0
  {
    Most(v) - Least(v)
  }

  lemma {:induction false} LeastMost(v: seq<real>, a: real, b: real)
    requires |v| > 0 && a in v && b in v
    requires forall i :: 0 <= i < |v| ==> a <= v[i] <= b
    ensures a == Least(v) && b == Most(v)
  {
  }

  // Two lists with the same entries have the same extremes.
  lemma {:induction false} SameEntries(a: seq<real>, b: seq<real>)
    requires |a| > 0 && |b| > 0
    requires forall i :: 0 <= i < |a| ==> a[i] in b
    requires forall i :: 0 <= i < |b| ==> b[i] in a
    ensures Least(a) == Least(b) && Most(a) == Most(b)
  {
    var l, m := Least(b), Most(b);
    assert forall x :: x in b ==> l <= x <= m;
    LeastMost(a, l, m);
  }

  method MinMax(pts: seq<Point>, pidx: array<int>, base: nat, n: nat, d: nat, ghost dim: nat)
    returns (min: real, max: real)
    requires Indexes(pidx[..], pts, dim) && d < dim && base + n <= pidx.Length && n > 0
    ensures min == Least(Values(pts, pidx[..], base, n, d, dim))
    ensures max == Most(Values(pts, pidx[..], base, n, d, dim))
  {
    hide Values, Indexes;
    ghost var v := Values(pts, pidx[..], base, n, d, dim);
    min := At(pts, pidx, base, n, 0, d, dim);
    max := min;
    for i := 1 to n
      invariant min in v && max in v
      invariant forall j :: 0 <= j < i ==> min <= v[j] <= max
    {
      var c := At(pts, pidx, base, n, i, d, dim);
      if c < min {
        min := c;
      } else if c > max {
        max := c;
      }
    }
    LeastMost(v, min, max);
  }

  method SpreadOf(pts: seq<Point>, pidx: array<int>, base: nat, n: nat, d: nat, ghost dim: nat) returns (r: real)
    requires Indexes(pidx[..], pts, dim) && d < dim && base + n <= pidx.Length && n > 0
    ensures r == Spread(Values(pts, pidx[..], base, n, d, dim))
  {
    var min, max := MinMax(pts, pidx, base, n, d, dim);
    r := max - min;
  }

  // An axis along which the points are spread the most.
  method MaxSpread(pts: seq<Point>, pidx: array<int>, base: nat, n: nat, dim: nat) returns (maxDim: nat)
    requires Indexes(pidx[..], pts, dim) && base + n <= pidx.Length && dim > 0
    ensures maxDim < dim
    ensures n > 0 ==> forall d :: 0 <= d < dim ==>
              Spread(Values(pts, pidx[..], base, n, d, dim)) <= Spread(Values(pts, pidx[..], base, n, maxDim, dim))
  {
    hide Values, Indexes, Spread;
    maxDim := 0;
    var maxSpr := 0.0;
    if n == 0 {
      return;
    }
    for d := 0 to dim
      invariant maxDim < dim
      invariant maxSpr <= Spread(Values(pts, pidx[..], base, n, maxDim, dim))
      invariant forall e :: 0 <= e < d ==> Spread(Values(pts, pidx[..], base, n, e, dim)) <= maxSpr
    {
      var spr := SpreadOf(pts, pidx, base, n, d, dim);
      if spr > maxSpr {
        maxSpr := spr;
        maxDim := d;
      }
    }
  }

  // lo and hi are the smallest box around the n points listed from base on.
  ghost predicate Tight(pts: seq<Point>, s: seq<int>, base: nat, n: nat, lo: seq<real>, hi: seq<real>, dim: nat)
    requires Indexes(s, pts, dim) && base + n <= |s| && n > 0 && |lo| == dim && |hi| == dim
  {
    forall d :: 0 <= d < dim ==>
      lo[d] == Least(Values(pts, s, base, n, d, dim)) && hi[d] == Most(Values(pts, s, base, n, d, dim))
  }

  method EnclRect(pts: seq<Point>, pidx: array<int>, base: nat, n: nat, dim: nat, lo: array<real>, hi: array<real>)
    requires Indexes(pidx[..], pts, dim) && n > 0 && base + n <= pidx.Length
    requires lo.Length == dim && hi.Length == dim && lo != hi
    modifies lo, hi
    ensures Tight(pts, pidx[..], base, n, lo[..], hi[..], dim)
  {
    hide Values, Indexes, Least, Most;
    ghost var s := pidx[..];
    for d := 0 to dim
      invariant pidx[..] == s
      invariant forall e :: 0 <= e < d ==>
                  lo[e] == Least(Values(pts, s, base, n, e, dim)) && hi[e] == Most(Values(pts, s, base, n, e, dim))
    {
      lo[d], hi[d] := EnclAxis(pts, pidx, base, n, d, dim);
    }
  }

  method EnclAxis(pts: seq<Point>, pidx: array<int>, base: nat, n: nat, d: nat, ghost dim: nat)
    returns (loBnd: real, hiBnd: real)
    requires Indexes(pidx[..], pts, dim) && n > 0 && base + n <= pidx.Length && d < dim
    ensures loBnd == Least(Values(pts, pidx[..], base, n, d, dim)) && hiBnd == Most(Values(pts, pidx[..], base, n, d, dim))
  {
    hide Values, Indexes;
    ghost var v := Values(pts, pidx[..], base, n, d, dim);
    loBnd := At(pts, pidx, base, n, 0, d, dim);
    hiBnd := loBnd;
    for i := 0 to n
      invariant loBnd in v && hiBnd in v && loBnd <= hiBnd
      invariant forall j :: 0 <= j < i ==> loBnd <= v[j] <= hiBnd
    {
      var c := At(pts, pidx, base, n, i, d, dim);
      if c < loBnd {
        loBnd := c;
      } else if c > hiBnd {
        hiBnd := c;
      }
    }
    LeastMost(v, loBnd, hiBnd);
  }

  // ------------------------------------------------------------------

  // The listed points all lie in the box.
  ghost predicate Enclosed(pts: seq<Point>, s: seq<int>, base: nat, n: nat, box: Box, dim: nat)
    requires Indexes(s, pts, dim) && base + n <= |s| && BoxOf(box, dim)
  {
    All(Marks(pts, s, base, n, InBox(box), dim), 0, n, true)
  }

  lemma {:induction false} EnclosedValue(pts: seq<Point>, s: seq<int>, base: nat, n: nat, box: Box, d: nat, dim: nat, i: nat)
    requires Indexes(s, pts, dim) && base + n <= |s| && BoxOf(box, dim) && d < dim && i < n
    requires Enclosed(pts, s, base, n, box, dim)
    ensures box.lo[d] <= Values(pts, s, base, n, d, dim)[i] <= box.hi[d]
  {
    assert Marks(pts, s, base, n, InBox(box), dim)[i];
  }

  // A cut through the box that leaves points on both sides, each on its side of the plane.
  ghost predicate GoodSplit(pts: seq<Point>, s: seq<int>, base: nat, n: nat, box: Box, dim: nat, cd: nat, cv: real, nLo: nat)
    requires Indexes(s, pts, dim) && base + n <= |s| && BoxOf(box, dim)
  {
    && cd < dim && 1 <= nLo < n && box.lo[cd] <= cv <= box.hi[cd]
    && SplitAt(Values(pts, s, base, n, cd, dim), nLo, cv)
  }

  // The standard rule: the median along the axis of the greatest spread.
  method KdSplit(pts: seq<Point>, pidx: array<int>, base: nat, box: Box, n: nat, dim: nat)
    returns (cd: nat, cv: real, nLo: nat)
    requires Indexes(pidx[..], pts, dim) && base + n <= pidx.Length && BoxOf(box, dim) && n >= 2 && dim > 0
    requires Enclosed(pts, pidx[..], base, n, box, dim)
    modifies pidx
    ensures Indexes(pidx[..], pts, dim) && Rearranged(pidx[..], old(pidx[..]), base, base + n)
    ensures GoodSplit(pts, pidx[..], base, n, box, dim, cd, cv, nLo) && nLo == n / 2
    ensures var v := Values(pts, pidx[..], base, n, cd, dim); cv == (Most(v[..nLo]) + Least(v[nLo..])) / 2.0
    ensures forall d :: 0 <= d < dim ==>
              Spread(Values(pts, old(pidx[..]), base, n, d, dim)) <= Spread(Values(pts, old(pidx[..]), base, n, cd, dim))
  {
    hide Values, Indexes, Rearranged, Spread, Marks, Under, Over;
    ghost var s0 := pidx[..];
    cd := MaxSpread(pts, pidx, base, n, dim);
    nLo := n / 2;
    cv := MedianSplit(pts, pidx, base, n, cd, nLo, dim);
    MarksKept(pts, pidx[..], s0, base, n, 0, InBox(box), true, dim);
    EnclosedValue(pts, pidx[..], base, n, box, cd, dim, nLo - 1);
    EnclosedValue(pts, pidx[..], base, n, box, cd, dim, nLo);
    MiddleRanks(Values(pts, pidx[..], base, n, cd, dim), nLo);
  }

  // About the median the greatest of the low values and the least of the high ones meet.
  lemma {:induction false} MiddleRanks(v: seq<real>, nLo: nat)
    requires 1 <= nLo < |v| && Under(v, 0, nLo, v[nLo - 1]) && Over(v, nLo, |v|, v[nLo])
    ensures Most(v[..nLo]) == v[nLo - 1] && Least(v[nLo..]) == v[nLo]
  {
    assert v[..nLo][nLo - 1] == v[nLo - 1] && v[nLo..][0] == v[nLo];
  }

  const ERR := 0.001

  ghost predicate LongSide(box: Box, d: nat, maxLength: real, dim: nat)
    requires BoxOf(box, dim) && d < dim
  {
    box.hi[d] - box.lo[d] >= (1.0 - 0.001) * maxLength
  }

  method LongestSide(box: Box, dim: nat) returns (maxLength: real)
    requires BoxOf(box, dim) && dim > 0
    ensures exists d :: 0 <= d < dim && box.hi[d] - box.lo[d] == maxLength
    ensures forall d :: 0 <= d < dim ==> box.hi[d] - box.lo[d] <= maxLength
  {
    maxLength := box.hi[0] - box.lo[0];
    for d := 1 to dim
      invariant exists e :: 0 <= e < dim && box.hi[e] - box.lo[e] == maxLength
      invariant forall e :: 0 <= e < d ==> box.hi[e] - box.lo[e] <= maxLength
    {
      var length := box.hi[d] - box.lo[d];
      if length > maxLength {
        maxLength := length;
      }
    }
  }

  // Among the sides that are nearly the longest, the one with the greatest spread.
  method ChooseSide(pts: seq<Point>, pidx: array<int>, base: nat, box: Box, n: nat, dim: nat, maxLength: real)
    returns (cd: nat)
    requires Indexes(pidx[..], pts, dim) && base + n <= pidx.Length && BoxOf(box, dim) && n > 0
    requires exists d :: 0 <= d < dim && LongSide(box, d, maxLength, dim)
    ensures cd < dim && LongSide(box, cd, maxLength, dim)
    ensures forall d :: 0 <= d < dim && LongSide(box, d, maxLength, dim) ==>
              Spread(Values(pts, pidx[..], base, n, d, dim)) <= Spread(Values(pts, pidx[..], base, n, cd, dim))
  {
    hide Values, Indexes, Spread;
    var maxSpread := -1.0;
    cd := 0;
    for d := 0 to dim
      invariant maxSpread == -1.0 ==> forall e :: 0 <= e < d ==> !LongSide(box, e, maxLength, dim)
      invariant maxSpread != -1.0 ==>
                  cd < dim && LongSide(box, cd, maxLength, dim)
                  && maxSpread == Spread(Values(pts, pidx[..], base, n, cd, dim))
      invariant forall e :: 0 <= e < d && LongSide(box, e, maxLength, dim) ==>
                  Spread(Values(pts, pidx[..], base, n, e, dim)) <= maxSpread
    {
      if box.hi[d] - box.lo[d] >= (1.0 - ERR) * maxLength {
        var spr := SpreadOf(pts, pidx, base, n, d, dim);
        if spr > maxSpread {
          maxSpread := spr;
          cd := d;
        }
      }
    }
  }

  // The sliding-midpoint rule: the middle of a long side, moved to the nearest point when all
  // points lie on one side of it.
  method SlMidptSplit(pts: seq<Point>, pidx: array<int>, base: nat, box: Box, n: nat, dim: nat)
    returns (cd: nat, cv: real, nLo: nat)
    requires Indexes(pidx[..], pts, dim) && base + n <= pidx.Length && BoxOf(box, dim) && n >= 2 && dim > 0
    requires Enclosed(pts, pidx[..], base, n, box, dim)
    modifies pidx
    ensures Indexes(pidx[..], pts, dim) && Rearranged(pidx[..], old(pidx[..]), base, base + n)
    ensures GoodSplit(pts, pidx[..], base, n, box, dim, cd, cv, nLo)
    ensures var v := Values(pts, old(pidx[..]), base, n, cd, dim); var mid := (box.lo[cd] + box.hi[cd]) / 2.0;
            cv == if mid < Least(v) then Least(v) else if mid > Most(v) then Most(v) else mid
    ensures forall d :: 0 <= d < dim ==> box.hi[d] - box.lo[d] <= (box.hi[cd] - box.lo[cd]) / (1.0 - 0.001)
    ensures NearLongest(box, cd, dim)
    ensures forall d :: 0 <= d < dim && NearLongest(box, d, dim) ==>
              Spread(Values(pts, old(pidx[..]), base, n, d, dim)) <= Spread(Values(pts, old(pidx[..]), base, n, cd, dim))
    ensures Balanced(Values(pts, pidx[..], base, n, cd, dim), (box.lo[cd] + box.hi[cd]) / 2.0, cv, nLo)
  {
    hide Values, Indexes, Rearranged, Spread, Marks, Least, Most;
    ghost var s0 := pidx[..];
    var maxLength := LongestSide(box, dim);
    LongExists(pts, s0, base, n, box, dim, maxLength);
    cd := ChooseSide(pts, pidx, base, box, n, dim, maxLength);
    var ideal := (box.lo[cd] + box.hi[cd]) / 2.0;
    var min, max := MinMax(pts, pidx, base, n, cd, dim);
    cv := if ideal < min then min else if ideal > max then max else ideal;
    ghost var v0 := Values(pts, s0, base, n, cd, dim);
    ExtremesInside(pts, s0, base, n, box, cd, dim);
    var br1, br2 := PlaneSplit(pts, pidx, base, n, cd, cv, dim);
    SameExtremes(pts, pidx[..], s0, base, n, cd, dim);
    if ideal < min {
      nLo := 1;
    } else if ideal > max {
      nLo := n - 1;
    } else if br1 > n / 2 {
      nLo := br1;
    } else if br2 < n / 2 {
      nLo := br2;
    } else {
      nLo := n / 2;
    }
    BothSides(Values(pts, pidx[..], base, n, cd, dim), cv, br1, br2, nLo, ideal);
    NearlyLongest(box, cd, maxLength, dim);
  }

  // A side that is at least 0.999 times as long as every other.
  ghost predicate NearLongest(box: Box, d: nat, dim: nat)
    requires BoxOf(box, dim) && d < dim
  {
    forall e :: 0 <= e < dim ==> box.hi[d] - box.lo[d] >= 0.999 * (box.hi[e] - box.lo[e])
  }

  // One point goes beyond a plane that had to slide. Otherwise the halves differ only as far as
  // the points on the plane cannot make them equal.
  ghost predicate Balanced(v: seq<real>, ideal: real, cv: real, nLo: nat) {
    && 1 <= nLo < |v|
    && (ideal < Least(v) ==> nLo == 1) && (ideal > Most(v) ==> nLo == |v| - 1)
    && (Least(v) <= ideal <= Most(v) ==>
          && (nLo > |v| / 2 ==> Most(v[..nLo]) < cv)
          && (nLo < |v| / 2 ==> Least(v[nLo..]) > cv))
  }

  lemma {:induction false} NearlyLongest(box: Box, cd: nat, maxLength: real, dim: nat)
    requires BoxOf(box, dim) && cd < dim && LongSide(box, cd, maxLength, dim)
    requires forall d :: 0 <= d < dim ==> box.hi[d] - box.lo[d] <= maxLength
    requires exists d :: 0 <= d < dim && box.hi[d] - box.lo[d] == maxLength
    ensures forall d :: 0 <= d < dim ==> box.hi[d] - box.lo[d] <= (box.hi[cd] - box.lo[cd]) / (1.0 - 0.001)
    ensures forall d :: 0 <= d < dim && NearLongest(box, d, dim) ==> LongSide(box, d, maxLength, dim)
    ensures NearLongest(box, cd, dim)
  {
    assert maxLength <= (box.hi[cd] - box.lo[cd]) / (1.0 - ERR);
  }

  // A rearranged segment has the same coordinates.
  lemma {:induction false} SomeValue(pts: seq<Point>, a: seq<int>, b: seq<int>, base: nat, n: nat, d: nat, dim: nat, i: nat)
    requires Indexes(a, pts, dim) && Indexes(b, pts, dim) && d < dim && base + n <= |a| && base + n <= |b| && i < n
    requires multiset(a[base..base + n]) == multiset(b[base..base + n])
    ensures Values(pts, a, base, n, d, dim)[i] in Values(pts, b, base, n, d, dim)
  {
    var x := a[base..base + n][i];
    assert x in multiset(a[base..base + n]);
    assert x in multiset(b[base..base + n]);
    assert x in b[base..base + n];
    var j :| 0 <= j < n && b[base..base + n][j] == x;
    assert Values(pts, b, base, n, d, dim)[j] == Values(pts, a, base, n, d, dim)[i];
  }

  lemma {:induction false} SameExtremes(pts: seq<Point>, a: seq<int>, b: seq<int>, base: nat, n: nat, d: nat, dim: nat)
    requires Indexes(a, pts, dim) && Indexes(b, pts, dim) && d < dim && base + n <= |a| && base + n <= |b| && n > 0
    requires Rearranged(a, b, base, base + n)
    ensures Least(Values(pts, a, base, n, d, dim)) == Least(Values(pts, b, base, n, d, dim))
    ensures Most(Values(pts, a, base, n, d, dim)) == Most(Values(pts, b, base, n, d, dim))
  {
    SegmentKept(a, b, base, base + n);
    hide Rearranged, Indexes, Least, Most;
    var va, vb := Values(pts, a, base, n, d, dim), Values(pts, b, base, n, d, dim);
    forall i | 0 <= i < n
      ensures va[i] in vb && vb[i] in va
    {
      SomeValue(pts, a, b, base, n, d, dim, i);
      SomeValue(pts, b, a, base, n, d, dim, i);
    }
    SameEntries(va, vb);
  }

  // Sliding leaves a point on each side; otherwise the middle lies between two points.
  lemma {:induction false} BothSides(v: seq<real>, cv: real, br1: nat, br2: nat, nLo: nat, ideal: real)
    requires |v| >= 2 && br1 <= br2 <= |v|
    requires forall i :: 0 <= i < br1 ==> v[i] < cv
    requires forall i :: br1 <= i < br2 ==> v[i] == cv
    requires forall i :: br2 <= i < |v| ==> v[i] > cv
    requires cv == if ideal < Least(v) then Least(v) else if ideal > Most(v) then Most(v) else ideal
    requires nLo == (if ideal < Least(v) then 1 else if ideal > Most(v) then |v| - 1
                     else if br1 > |v| / 2 then br1 else if br2 < |v| / 2 then br2 else |v| / 2)
    ensures 1 <= nLo < |v| && SplitAt(v, nLo, cv) && Balanced(v, ideal, cv, nLo)
  {
    var i :| 0 <= i < |v| && v[i] == Least(v);
    var j :| 0 <= j < |v| && v[j] == Most(v);
    assert i < br2;
    assert j >= br1;
  }

  // The longest side is nearly the longest, and no side is much longer than a nearly longest one.
  lemma {:induction false} LongExists(pts: seq<Point>, s: seq<int>, base: nat, n: nat, box: Box, dim: nat, maxLength: real)
    requires Indexes(s, pts, dim) && base + n <= |s| && BoxOf(box, dim) && n > 0 && dim > 0
    requires Enclosed(pts, s, base, n, box, dim)
    requires exists d :: 0 <= d < dim && box.hi[d] - box.lo[d] == maxLength
    ensures exists d :: 0 <= d < dim && LongSide(box, d, maxLength, dim)
  {
    var d :| 0 <= d < dim && box.hi[d] - box.lo[d] == maxLength;
    EnclosedValue(pts, s, base, n, box, d, dim, 0);
    assert LongSide(box, d, maxLength, dim);
  }

  // The cutting value stays in the cell.
  lemma {:induction false} ExtremesInside(pts: seq<Point>, s: seq<int>, base: nat, n: nat, box: Box, d: nat, dim: nat)
    requires Indexes(s, pts, dim) && base + n <= |s| && BoxOf(box, dim) && d < dim && n > 0
    requires Enclosed(pts, s, base, n, box, dim)
    ensures box.lo[d] <= Least(Values(pts, s, base, n, d, dim)) <= Most(Values(pts, s, base, n, d, dim)) <= box.hi[d]
  {
    var v := Values(pts, s, base, n, d, dim);
    var i :| 0 <= i < |v| && v[i] == Least(v);
    var j :| 0 <= j < |v| && v[j] == Most(v);
    EnclosedValue(pts, s, base, n, box, d, dim, i);
    EnclosedValue(pts, s, base, n, box, d, dim, j);
  }
}
