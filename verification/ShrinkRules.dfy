// The shrinking rules of bd-trees (3rd/ANN/bd_tree.cpp) and when the simple rule lets the
// recursion end.
module ShrinkRules {
  import opened Geometry
  import opened BoundLists
  import opened PointPartition
  import opened Splitters

  datatype Decomp = SplitCell | ShrinkCell

  const BD_GAP_THRESH := 0.5
  const BD_CT_THRESH := 2

  // An inner box fit for a shrinking node of the cell.
  ghost predicate InnerOk(inner: Box, cell: Box, dim: nat)
    requires BoxOf(cell, dim)
  {
    BoxOf(inner, dim) && Proper(inner) && Within(inner, cell)
  }

  lemma {:induction false} TightInner(pts: seq<Point>, s: seq<int>, base: nat, n: nat, cell: Box, tight: Box, dim: nat)
    requires Indexes(s, pts, dim) && base + n <= |s| && 0 < n && BoxOf(cell, dim) && BoxOf(tight, dim)
    requires Enclosed(pts, s, base, n, cell, dim)
    requires Tight(pts, s, base, n, tight.lo, tight.hi, dim)
    ensures InnerOk(tight, cell, dim)
  {
    hide Values, Least, Most, Enclosed, Indexes;
    forall d | 0 <= d < dim
      ensures cell.lo[d] <= tight.lo[d] <= tight.hi[d] <= cell.hi[d]
    {
      ExtremesInside(pts, s, base, n, cell, d, dim);
    }
  }

  // ------------------------------------------------------------------
  // The simple rule: the tight box, with every side moved back out whose gap is small

  // The smallest box around the n points listed from base on.
  function TightBox(pts: seq<Point>, s: seq<int>, base: nat, n: nat, dim: nat): (b: Box)
    requires Indexes(s, pts, dim) && base + n <= |s| && n > 0
    ensures BoxOf(b, dim) && Tight(pts, s, base, n, b.lo, b.hi, dim)
  {
    Box(seq(dim, d requires 0 <= d < dim => Least(Values(pts, s, base, n, d, dim))),
        seq(dim, d requires 0 <= d < dim => Most(Values(pts, s, base, n, d, dim))))
  }

  lemma {:induction false} TightIs(pts: seq<Point>, s: seq<int>, base: nat, n: nat, box: Box, dim: nat)
    requires Indexes(s, pts, dim) && base + n <= |s| && n > 0 && BoxOf(box, dim)
    requires Tight(pts, s, base, n, box.lo, box.hi, dim)
    ensures box == TightBox(pts, s, base, n, dim)
  {
    hide Values, Least, Most, Indexes;
    var b := TightBox(pts, s, base, n, dim);
    assert b.lo == box.lo && b.hi == box.hi;
  }

  lemma {:induction false} SameTight(pts: seq<Point>, a: seq<int>, b: seq<int>, base: nat, n: nat, dim: nat)
    requires Indexes(a, pts, dim) && Indexes(b, pts, dim) && base + n <= |a| && base + n <= |b| && n > 0
    requires Rearranged(a, b, base, base + n)
    ensures TightBox(pts, a, base, n, dim) == TightBox(pts, b, base, n, dim)
  {
    hide Values, Least, Most, Indexes, Rearranged;
    forall d | 0 <= d < dim
      ensures TightBox(pts, a, base, n, dim).lo[d] == TightBox(pts, b, base, n, dim).lo[d]
      ensures TightBox(pts, a, base, n, dim).hi[d] == TightBox(pts, b, base, n, dim).hi[d]
    {
      SameExtremes(pts, a, b, base, n, d, dim);
    }
  }

  // The longest of the first d sides.
  function Longest(b: Box, d: nat): (m: real)
    requires BoxOf(b, |b.lo|) && d <= |b.lo|
    ensures m >= 0.0 && forall e :: 0 <= e < d ==> b.hi[e] - b.lo[e] <= m
    ensures m > 0.0 ==> exists e :: 0 <= e < d && b.hi[e] - b.lo[e] == m
  {
    if d == 0 then 0.0
    else
      var m := Longest(b, d - 1);
      if b.hi[d - 1] - b.lo[d - 1] > m then b.hi[d - 1] - b.lo[d - 1] else m
  }

  predicate Wide(gap: real, m: real) {
    gap >= m * 0.5
  }

  // How many of the sides along the first d axes leave a wide gap.
  function Gaps(tight: Box, cell: Box, m: real, d: nat): nat
    requires BoxOf(tight, |cell.lo|) && BoxOf(cell, |cell.lo|) && d <= |cell.lo|
  {
    if d == 0 then 0
    else
      Gaps(tight, cell, m, d - 1)
      + (if Wide(cell.hi[d - 1] - tight.hi[d - 1], m) then 1 else 0)
      + (if Wide(tight.lo[d - 1] - cell.lo[d - 1], m) then 1 else 0)
  }

  // The tight box, except for the sides whose gap is not wide.
  function Drawn(tight: Box, cell: Box, m: real): (b: Box)
    requires BoxOf(tight, |cell.lo|) && BoxOf(cell, |cell.lo|)
    ensures BoxOf(b, |cell.lo|)
  {
    Box(seq(|cell.lo|, d requires 0 <= d < |cell.lo| => if Wide(tight.lo[d] - cell.lo[d], m) then tight.lo[d] else cell.lo[d]),
        seq(|cell.lo|, d requires 0 <= d < |cell.lo| => if Wide(cell.hi[d] - tight.hi[d], m) then tight.hi[d] else cell.hi[d]))
  }

  // The simple rule as a whole.
  function SimpleBox(pts: seq<Point>, s: seq<int>, base: nat, n: nat, cell: Box, dim: nat): (b: Box)
    requires Indexes(s, pts, dim) && base + n <= |s| && n > 0 && BoxOf(cell, dim)
    ensures BoxOf(b, dim)
  {
    var tight := TightBox(pts, s, base, n, dim);
    Drawn(tight, cell, Longest(tight, dim))
  }

  function SimpleChoice(pts: seq<Point>, s: seq<int>, base: nat, n: nat, cell: Box, dim: nat): Decomp
    requires Indexes(s, pts, dim) && base + n <= |s| && n > 0 && BoxOf(cell, dim)
  {
    var tight := TightBox(pts, s, base, n, dim);
    if Gaps(tight, cell, Longest(tight, dim), dim) >= 2 then ShrinkCell else SplitCell
  }

  lemma {:induction false} DrawnBetween(tight: Box, cell: Box, m: real, dim: nat)
    requires BoxOf(cell, dim) && InnerOk(tight, cell, dim)
    ensures InnerOk(Drawn(tight, cell, m), cell, dim) && Within(tight, Drawn(tight, cell, m))
  {
  }

  // After a shrink no gap is wide any more, unless the points coincide.
  lemma {:induction false} NoWideGap(tight: Box, cell: Box, m: real, d: nat)
    requires BoxOf(tight, |cell.lo|) && BoxOf(cell, |cell.lo|) && d <= |cell.lo| && m > 0.0
    ensures Gaps(tight, Drawn(tight, cell, m), m, d) == 0
    decreases d
  {
    if d > 0 {
      NoWideGap(tight, cell, m, d - 1);
    }
  }

  // When the points coincide every gap counts.
  lemma {:induction false} EveryGap(tight: Box, cell: Box, d: nat, dim: nat)
    requires BoxOf(cell, dim) && InnerOk(tight, cell, dim) && d <= dim
    ensures Gaps(tight, cell, 0.0, d) == 2 * d && Drawn(tight, cell, 0.0) == tight
    decreases d
  {
    if d > 0 {
      EveryGap(tight, cell, d - 1, dim);
    }
    assert Drawn(tight, cell, 0.0).lo == tight.lo && Drawn(tight, cell, 0.0).hi == tight.hi;
  }

  // ------------------------------------------------------------------
  // Coincident points

  ghost predicate SameSpot(pts: seq<Point>, c: set<int>) {
    && (forall i :: i in c ==> 0 <= i < |pts|)
    && (forall i, j :: i in c && j in c ==> pts[i] == pts[j])
  }

  // No more than k of the points coincide.
  ghost predicate Spaced(pts: seq<Point>, k: nat) {
    forall c: set<int> :: SameSpot(pts, c) ==> |c| <= k
  }

  ghost predicate Once(s: seq<int>) {
    forall i :: multiset(s)[i] <= 1
  }

  ghost function Listed(s: seq<int>, base: nat, n: nat): set<int>
    requires base + n <= |s|
  {
    set k | base <= k < base + n :: s[k]
  }

  lemma {:induction false} Different(s: seq<int>, i: nat, j: nat)
    requires Once(s) && i < j < |s|
    ensures s[i] != s[j]
  {
    var a, b := s[..j], s[j..];
    assert s == a + b;
    assert s[i] == a[i] && s[j] == b[0];
    assert multiset(s)[s[j]] == multiset(a)[s[j]] + multiset(b)[s[j]];
    assert b[0] in multiset(b) && a[i] in multiset(a);
  }

  lemma {:induction false} ListedSize(s: seq<int>, base: nat, n: nat)
    requires Once(s) && base + n <= |s|
    ensures |Listed(s, base, n)| == n
    decreases n
  {
    if n > 0 {
      var x := s[base + n - 1];
      ListedSize(s, base, n - 1);
      assert Listed(s, base, n) == Listed(s, base, n - 1) + {x};
      if x in Listed(s, base, n - 1) {
        var k :| base <= k < base + n - 1 && s[k] == x;
        Different(s, k, base + n - 1);
      }
    }
  }

  ghost predicate Coincide(pts: seq<Point>, s: seq<int>, base: nat, n: nat, dim: nat)
    requires Indexes(s, pts, dim) && base + n <= |s|
  {
    forall i, j :: base <= i < base + n && base <= j < base + n ==> pts[s[i]] == pts[s[j]]
  }

  // The longest side is 0 exactly when the points coincide.
  lemma {:induction false} FlatIsSame(pts: seq<Point>, s: seq<int>, base: nat, n: nat, dim: nat)
    requires Indexes(s, pts, dim) && base + n <= |s| && n > 0
    ensures Longest(TightBox(pts, s, base, n, dim), dim) == 0.0 <==> Coincide(pts, s, base, n, dim)
  {
    hide Least, Most;
    var tight := TightBox(pts, s, base, n, dim);
    var m := Longest(tight, dim);
    if m == 0.0 {
      forall i, j | base <= i < base + n && base <= j < base + n
        ensures pts[s[i]] == pts[s[j]]
      {
        forall d | 0 <= d < dim
          ensures pts[s[i]][d] == pts[s[j]][d]
        {
          var v := Values(pts, s, base, n, d, dim);
          assert v[i - base] == pts[s[i]][d] && v[j - base] == pts[s[j]][d];
          assert tight.hi[d] - tight.lo[d] <= 0.0;
        }
      }
    }
    if Coincide(pts, s, base, n, dim) {
      forall d | 0 <= d < dim
        ensures tight.hi[d] - tight.lo[d] == 0.0
      {
        SameExtreme(pts, s, base, n, d, dim);
      }
    }
  }

  lemma {:induction false} SameExtreme(pts: seq<Point>, s: seq<int>, base: nat, n: nat, d: nat, dim: nat)
    requires Indexes(s, pts, dim) && base + n <= |s| && n > 0 && d < dim && Coincide(pts, s, base, n, dim)
    ensures Least(Values(pts, s, base, n, d, dim)) == Most(Values(pts, s, base, n, d, dim))
  {
    hide Least, Most;
    var v := Values(pts, s, base, n, d, dim);
    var i :| 0 <= i < n && v[i] == Least(v);
    var j :| 0 <= j < n && v[j] == Most(v);
    assert pts[s[base + i]] == pts[s[base + j]];
  }

  lemma {:induction false} FewCoincide(pts: seq<Point>, s: seq<int>, base: nat, n: nat, dim: nat, k: nat)
    requires Indexes(s, pts, dim) && base + n <= |s| && Once(s) && Spaced(pts, k)
    ensures Coincide(pts, s, base, n, dim) ==> n <= k
  {
    if Coincide(pts, s, base, n, dim) {
      ListedSize(s, base, n);
      assert SameSpot(pts, Listed(s, base, n));
    }
  }

  // More points than may coincide do not all coincide.
  lemma {:induction false} NotFlat(pts: seq<Point>, s: seq<int>, base: nat, n: nat, dim: nat, k: nat)
    requires Indexes(s, pts, dim) && base + n <= |s| && n > k && Once(s) && Spaced(pts, k)
    ensures Longest(TightBox(pts, s, base, n, dim), dim) > 0.0
  {
    FlatIsSame(pts, s, base, n, dim);
    FewCoincide(pts, s, base, n, dim, k);
    hide TightBox, Coincide, Spaced, Once;
  }

  // Every listed point lies in a box around the tight box.
  lemma {:induction false} WiderEncloses(pts: seq<Point>, s: seq<int>, base: nat, n: nat, box: Box, dim: nat)
    requires Indexes(s, pts, dim) && base + n <= |s| && n > 0 && BoxOf(box, dim)
    requires Within(TightBox(pts, s, base, n, dim), box)
    ensures Enclosed(pts, s, base, n, box, dim)
  {
    hide Least, Most;
    var tight := TightBox(pts, s, base, n, dim);
    forall i | 0 <= i < n
      ensures Marks(pts, s, base, n, InBox(box), dim)[i]
    {
      forall d | 0 <= d < dim
        ensures box.lo[d] <= pts[s[base + i]][d] <= box.hi[d]
      {
        assert Values(pts, s, base, n, d, dim)[i] == pts[s[base + i]][d];
      }
    }
  }
}
