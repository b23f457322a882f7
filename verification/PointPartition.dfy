// In-place partitioning of a segment of the point index array (3rd/ANN/kd_util.cpp). Point i of
// the segment that starts at base is pts[pidx[base + i]].
module PointPartition {
  import opened Geometry
  import opened SpatialTrees

  ghost predicate Indexes(s: seq<int>, pts: seq<Point>, dim: nat) {
    Points(pts, dim) && forall i :: 0 <= i < |s| ==> 0 <= s[i] < |pts|
  }

  // The coordinates along axis d of the n points listed from base on.
  function Values(pts: seq<Point>, s: seq<int>, base: nat, n: nat, d: nat, dim: nat): (r: seq<real>)
    requires Indexes(s, pts, dim) && d < dim && base + n <= |s|
    ensures |r| == n
    ensures forall i :: 0 <= i < n ==> r[i] == pts[s[base + i]][d]
  {
    seq(n, i requires 0 <= i < n => pts[s[base + i]][d])
  }

  function Swapped<T>(s: seq<T>, i: nat, j: nat): seq<T>
    requires i < |s| && j < |s|
  {
    s[i := s[j]][j := s[i]]
  }

  // a and b hold the same items, and the same ones in the same places outside lo..hi.
  ghost predicate Rearranged(a: seq<int>, b: seq<int>, lo: nat, hi: nat) {
    && |a| == |b| && lo <= hi <= |a|
    && a[..lo] == b[..lo] && a[hi..] == b[hi..]
    && multiset(a) == multiset(b)
  }

  lemma {:induction false} RearrangedTrans(a: seq<int>, b: seq<int>, c: seq<int>, lo: nat, hi: nat)
    requires Rearranged(a, b, lo, hi) && Rearranged(b, c, lo, hi)
    ensures Rearranged(a, c, lo, hi)
  {
  }

  lemma {:induction false} SwapRearranges(s: seq<int>, i: nat, j: nat, lo: nat, hi: nat)
    requires lo <= i < hi <= |s| && lo <= j < hi
    ensures Rearranged(Swapped(s, i, j), s, lo, hi)
  {
    var t := Swapped(s, i, j);
    assert t[..lo] == s[..lo];
    assert t[hi..] == s[hi..];
  }

  lemma {:induction false} Cancel(p: multiset<int>, x: multiset<int>, y: multiset<int>, s: multiset<int>)
    requires p + x + s == p + y + s
    ensures x == y
  {
    assert x == (p + x + s) - p - s;
    assert y == (p + y + s) - p - s;
  }

  // The segments of a rearranged list hold the same items.
  lemma {:induction false} SegmentKept(a: seq<int>, b: seq<int>, lo: nat, hi: nat)
    requires Rearranged(a, b, lo, hi)
    ensures multiset(a[lo..hi]) == multiset(b[lo..hi])
  {
    assert a == a[..lo] + a[lo..hi] + a[hi..];
    assert b == b[..lo] + b[lo..hi] + b[hi..];
    assert multiset(a) == multiset(a[..lo]) + multiset(a[lo..hi]) + multiset(a[hi..]);
    assert multiset(b) == multiset(b[..lo]) + multiset(b[lo..hi]) + multiset(b[hi..]);
    Cancel(multiset(a[..lo]), multiset(a[lo..hi]), multiset(b[lo..hi]), multiset(a[hi..]));
  }

  // All of v[a..b] are at most all of v[c..e].
  ghost predicate AtMost(v: seq<real>, a: int, b: int, c: int, e: int) {
    forall i, j :: 0 <= a <= i < b && 0 <= c <= j < e && i < |v| && j < |v| ==> v[i] <= v[j]
  }

  lemma {:induction false} SwapValues(pts: seq<Point>, s: seq<int>, base: nat, n: nat, d: nat, dim: nat, i: nat, j: nat)
    requires Indexes(s, pts, dim) && d < dim && base + n <= |s| && i < n && j < n
    ensures Indexes(Swapped(s, base + i, base + j), pts, dim)
    ensures Values(pts, Swapped(s, base + i, base + j), base, n, d, dim) ==
            Swapped(Values(pts, s, base, n, d, dim), i, j)
  {
  }

  method Swap(pts: seq<Point>, pidx: array<int>, base: nat, n: nat, i: nat, j: nat, ghost d: nat, ghost dim: nat)
    requires Indexes(pidx[..], pts, dim) && d < dim && base + n <= pidx.Length && i < n && j < n
    modifies pidx
    ensures Indexes(pidx[..], pts, dim) && Rearranged(pidx[..], old(pidx[..]), base, base + n)
    ensures Values(pts, pidx[..], base, n, d, dim) == Swapped(Values(pts, old(pidx[..]), base, n, d, dim), i, j)
  {
    hide Values, Indexes, Rearranged;
    ghost var was := pidx[..];
    SwapRearranges(was, base + i, base + j, base, base + n);
    SwapValues(pts, was, base, n, d, dim, i, j);
    var tmp := pidx[base + i];
    pidx[base + i] := pidx[base + j];
    pidx[base + j] := tmp;
    assert pidx[..] == Swapped(was, base + i, base + j);
  }

  method At(pts: seq<Point>, pidx: array<int>, base: nat, n: nat, i: nat, d: nat, ghost dim: nat) returns (c: real)
    requires Indexes(pidx[..], pts, dim) && d < dim && base + n <= pidx.Length && i < n
    ensures c == Values(pts, pidx[..], base, n, d, dim)[i]
  {
    assert pidx[..][base + i] == pidx[base + i];
    c := pts[pidx[base + i]][d];
  }

  // ------------------------------------------------------------------
  // Selection

  lemma {:induction false} SwapKeepsAtMost(v: seq<real>, i: nat, j: nat, a: int, b: int, c: int, e: int)
    requires i < |v| && j < |v| && AtMost(v, a, b, c, e)
    requires (a <= i < b && a <= j < b) || (!(a <= i < b) && !(a <= j < b))
    requires (c <= i < e && c <= j < e) || (!(c <= i < e) && !(c <= j < e))
    ensures AtMost(Swapped(v, i, j), a, b, c, e)
  {
  }

  // Every entry of v[a..b] is at most c, or at least c.
  ghost predicate Under(v: seq<real>, a: int, b: int, c: real) {
    forall i :: 0 <= a <= i < b && i < |v| ==> v[i] <= c
  }

  ghost predicate Over(v: seq<real>, a: int, b: int, c: real) {
    forall i :: 0 <= a <= i < b && i < |v| ==> v[i] >= c
  }

  // What selection has established about the outside of [l, r].
  ghost predicate Outside(v: seq<real>, l: int, r: int) {
    AtMost(v, 0, l, l, |v|) && AtMost(v, 0, r + 1, r + 1, |v|)
  }

  lemma {:induction false} SwapKeepsOutside(v: seq<real>, l: int, r: int, i: nat, j: nat)
    requires Outside(v, l, r) && 0 <= l <= i <= r < |v| && l <= j <= r
    ensures Outside(Swapped(v, i, j), l, r)
  {
    SwapKeepsAtMost(v, i, j, 0, l, l, |v|);
    SwapKeepsAtMost(v, i, j, 0, r + 1, r + 1, |v|);
  }

  // Moves a pivot c to the front of [l, r] so that the last entry is not below it.
  method ChoosePivot(pts: seq<Point>, pidx: array<int>, base: nat, n: nat, d: nat, l: nat, r: nat, ghost dim: nat)
    requires Indexes(pidx[..], pts, dim) && d < dim && base + n <= pidx.Length && l < r < n
    requires Outside(Values(pts, pidx[..], base, n, d, dim), l, r)
    modifies pidx
    ensures Indexes(pidx[..], pts, dim) && Rearranged(pidx[..], old(pidx[..]), base, base + n)
    ensures Outside(Values(pts, pidx[..], base, n, d, dim), l, r)
    ensures Values(pts, pidx[..], base, n, d, dim)[r] >= Values(pts, pidx[..], base, n, d, dim)[l]
  {
    hide Values, Indexes, Rearranged, Outside;
    ghost var s0 := pidx[..];
    ghost var v := Values(pts, s0, base, n, d, dim);
    var i := (r + l) / 2;
    var ci := At(pts, pidx, base, n, i, d, dim);
    var cr := At(pts, pidx, base, n, r, d, dim);
    if ci > cr {
      SwapKeepsOutside(v, l, r, i, r);
      Swap(pts, pidx, base, n, i, r, d, dim);
      v := Swapped(v, i, r);
    } else {
      RearrangedRefl(s0, base, base + n);
    }
    ghost var s1 := pidx[..];
    SwapKeepsOutside(v, l, r, l, i);
    Swap(pts, pidx, base, n, l, i, d, dim);
    RearrangedTrans(pidx[..], s1, s0, base, base + n);
  }

  lemma {:induction false} RearrangedRefl(s: seq<int>, lo: nat, hi: nat)
    requires lo <= hi <= |s|
    ensures Rearranged(s, s, lo, hi)
  {
  }

  // The scans stop at entries that are known to be there, so they never leave [i, k].
  method Scan(pts: seq<Point>, pidx: array<int>, base: nat, n: nat, d: nat, c: real, i0: nat, k0: nat, ghost dim: nat)
    returns (i: nat, k: nat)
    requires Indexes(pidx[..], pts, dim) && d < dim && base + n <= pidx.Length && i0 < k0 < n
    requires Values(pts, pidx[..], base, n, d, dim)[i0] <= c <= Values(pts, pidx[..], base, n, d, dim)[k0]
    ensures i0 < i <= k0 && i0 <= k < k0
    ensures var v := Values(pts, pidx[..], base, n, d, dim);
            Under(v, i0 + 1, i, c) && Over(v, k + 1, k0, c) && v[k] <= c <= v[i]
  {
    hide Values, Indexes;
    ghost var v := Values(pts, pidx[..], base, n, d, dim);
    i := i0 + 1;
    var x := At(pts, pidx, base, n, i, d, dim);
    while x < c
      invariant i0 < i <= k0 && x == v[i] && Under(v, i0 + 1, i, c)
      decreases k0 - i
    {
      i := i + 1;
      x := At(pts, pidx, base, n, i, d, dim);
    }
    k := k0 - 1;
    x := At(pts, pidx, base, n, k, d, dim);
    while x > c
      invariant i0 <= k < k0 && x == v[k] && Over(v, k + 1, k0, c)
      decreases k
    {
      k := k - 1;
      x := At(pts, pidx, base, n, k, d, dim);
    }
  }

  lemma {:induction false} SwapKeepsUnder(v: seq<real>, i: nat, k: nat, l: nat, i0: nat, k0: nat, r: nat, c: real)
    requires l <= i0 < i < k < k0 <= r < |v|
    requires Under(v, l, i0 + 1, c) && Over(v, k0, r + 1, c)
    requires Under(v, i0 + 1, i, c) && Over(v, k + 1, k0, c) && v[k] <= c <= v[i]
    ensures Under(Swapped(v, i, k), l, i + 1, c) && Over(Swapped(v, i, k), k, r + 1, c)
    ensures Swapped(v, i, k)[l] == v[l]
  {
  }

  // Splits [l, r] about the pivot, which ends at place k.
  method PivotAbout(pts: seq<Point>, pidx: array<int>, base: nat, n: nat, d: nat, l: nat, r: nat, ghost dim: nat)
    returns (k: nat)
    requires Indexes(pidx[..], pts, dim) && d < dim && base + n <= pidx.Length && l < r < n
    requires Outside(Values(pts, pidx[..], base, n, d, dim), l, r)
    requires Values(pts, pidx[..], base, n, d, dim)[r] >= Values(pts, pidx[..], base, n, d, dim)[l]
    modifies pidx
    ensures Indexes(pidx[..], pts, dim) && Rearranged(pidx[..], old(pidx[..]), base, base + n)
    ensures l <= k <= r && Outside(Values(pts, pidx[..], base, n, d, dim), l, r)
    ensures var v := Values(pts, pidx[..], base, n, d, dim); Under(v, l, k, v[k]) && Over(v, k + 1, r + 1, v[k])
  {
    hide Values, Indexes, Rearranged, Outside;
    ghost var s0 := pidx[..];
    RearrangedRefl(s0, base, base + n);
    ghost var v := Values(pts, s0, base, n, d, dim);
    var c := At(pts, pidx, base, n, l, d, dim);
    var i := l;
    k := r;
    while true
      invariant Indexes(pidx[..], pts, dim) && Rearranged(pidx[..], s0, base, base + n)
      invariant v == Values(pts, pidx[..], base, n, d, dim) && Outside(v, l, r)
      invariant l <= i < k <= r && v[l] == c && Under(v, l, i + 1, c) && Over(v, k, r + 1, c)
      decreases k - i
    {
      ghost var i0, k0 := i, k;
      i, k := Scan(pts, pidx, base, n, d, c, i, k, dim);
      if i < k {
        ghost var s1 := pidx[..];
        SwapKeepsOutside(v, l, r, i, k);
        SwapKeepsUnder(v, i, k, l, i0, k0, r, c);
        Swap(pts, pidx, base, n, i, k, d, dim);
        RearrangedTrans(pidx[..], s1, s0, base, base + n);
        v := Swapped(v, i, k);
      } else {
        MeetAt(v, l, i0, i, k, k0, r, c);
        break;
      }
    }
    ghost var s2 := pidx[..];
    SwapKeepsOutside(v, l, r, l, k);
    Swap(pts, pidx, base, n, l, k, d, dim);
    RearrangedTrans(pidx[..], s2, s0, base, base + n);
  }

  lemma {:induction false} MeetAt(v: seq<real>, l: nat, i0: nat, i: nat, k: nat, k0: nat, r: nat, c: real)
    requires l <= i0 < i <= k0 <= r < |v| && i0 <= k < k0 && k <= i
    requires Under(v, l, i0 + 1, c) && Over(v, k0, r + 1, c)
    requires Under(v, i0 + 1, i, c) && Over(v, k + 1, k0, c) && v[k] <= c <= v[i]
    ensures Under(v, l, k + 1, c) && Over(v, k + 1, r + 1, c)
  {
  }

  lemma {:induction false} Narrow(v: seq<real>, l: nat, r: nat, k: nat)
    requires l <= k <= r < |v| && Outside(v, l, r) && Under(v, l, k, v[k]) && Over(v, k + 1, r + 1, v[k])
    ensures Outside(v, l, k - 1) && Outside(v, k + 1, r) && Outside(v, k, k)
  {
    forall i, j | 0 <= i <= k <= j < |v|
      ensures v[i] <= v[k] <= v[j]
    {
      Between(v, l, r, k, i);
      Between(v, l, r, k, j);
    }
  }

  lemma {:induction false} Between(v: seq<real>, l: nat, r: nat, k: nat, i: nat)
    requires l <= k <= r < |v| && Outside(v, l, r) && Under(v, l, k, v[k]) && Over(v, k + 1, r + 1, v[k])
    requires i < |v|
    ensures i <= k ==> v[i] <= v[k]
    ensures i >= k ==> v[i] >= v[k]
  {
  }

  // Hoare's selection: afterwards the entry of rank nLo is in its place.
  method Select(pts: seq<Point>, pidx: array<int>, base: nat, n: nat, d: nat, nLo: nat, ghost dim: nat)
    requires Indexes(pidx[..], pts, dim) && d < dim && base + n <= pidx.Length && nLo < n
    modifies pidx
    ensures Indexes(pidx[..], pts, dim) && Rearranged(pidx[..], old(pidx[..]), base, base + n)
    ensures Outside(Values(pts, pidx[..], base, n, d, dim), nLo, nLo)
  {
    hide Values, Indexes, Rearranged, Outside, Under, Over;
    ghost var s0 := pidx[..];
    RearrangedRefl(s0, base, base + n);
    var l := 0;
    var r := n - 1;
    OutsideAll(Values(pts, s0, base, n, d, dim), n);
    while l < r
      invariant 0 <= l <= nLo <= r < n
      invariant Indexes(pidx[..], pts, dim) && Rearranged(pidx[..], s0, base, base + n)
      invariant Outside(Values(pts, pidx[..], base, n, d, dim), l, r)
      decreases r - l
    {
      ghost var s1 := pidx[..];
      ChoosePivot(pts, pidx, base, n, d, l, r, dim);
      RearrangedTrans(pidx[..], s1, s0, base, base + n);
      s1 := pidx[..];
      var k := PivotAbout(pts, pidx, base, n, d, l, r, dim);
      RearrangedTrans(pidx[..], s1, s0, base, base + n);
      Narrow(Values(pts, pidx[..], base, n, d, dim), l, r, k);
      if k > nLo {
        r := k - 1;
      } else if k < nLo {
        l := k + 1;
      } else {
        break;
      }
    }
  }

  lemma {:induction false} OutsideAll(v: seq<real>, n: nat)
    requires |v| == n > 0
    ensures Outside(v, 0, n - 1)
  {
  }

  // The largest of the first m entries.
  method LargestOf(pts: seq<Point>, pidx: array<int>, base: nat, n: nat, d: nat, m: nat, ghost dim: nat) returns (k: nat)
    requires Indexes(pidx[..], pts, dim) && d < dim && base + n <= pidx.Length && 0 < m <= n
    ensures k < m && Under(Values(pts, pidx[..], base, n, d, dim), 0, m, Values(pts, pidx[..], base, n, d, dim)[k])
  {
    hide Values, Indexes;
    ghost var v := Values(pts, pidx[..], base, n, d, dim);
    var c := At(pts, pidx, base, n, 0, d, dim);
    k := 0;
    for i := 1 to m
      invariant k < i && c == v[k] && Under(v, 0, i, c)
    {
      var x := At(pts, pidx, base, n, i, d, dim);
      if x > c {
        c := x;
        k := i;
      }
    }
  }

  // The first nLo points of the segment lie at or below cv and the others at or above it.
  ghost predicate SplitAt(v: seq<real>, nLo: nat, cv: real) {
    Under(v, 0, nLo, cv) && Over(v, nLo, |v|, cv)
  }

  // Splits the segment about its median along axis d: the entries of ranks nLo - 1 and nLo are in
  // their places and cv is their mean.
  method MedianSplit(pts: seq<Point>, pidx: array<int>, base: nat, n: nat, d: nat, nLo: nat, ghost dim: nat)
    returns (cv: real)
    requires Indexes(pidx[..], pts, dim) && d < dim && base + n <= pidx.Length && 1 <= nLo < n
    modifies pidx
    ensures Indexes(pidx[..], pts, dim) && Rearranged(pidx[..], old(pidx[..]), base, base + n)
    ensures var v := Values(pts, pidx[..], base, n, d, dim);
            && Under(v, 0, nLo, v[nLo - 1]) && Over(v, nLo, n, v[nLo])
            && v[nLo - 1] <= cv <= v[nLo] && cv == (v[nLo - 1] + v[nLo]) / 2.0
            && SplitAt(v, nLo, cv)
  {
    hide Values, Indexes, Rearranged;
    ghost var s0 := pidx[..];
    Select(pts, pidx, base, n, d, nLo, dim);
    ghost var s1 := pidx[..];
    ghost var v := Values(pts, s1, base, n, d, dim);
    var k := LargestOf(pts, pidx, base, n, d, nLo, dim);
    Swap(pts, pidx, base, n, nLo - 1, k, d, dim);
    RearrangedTrans(pidx[..], s1, s0, base, base + n);
    MedianPlaced(v, nLo, k);
    var a := At(pts, pidx, base, n, nLo - 1, d, dim);
    var b := At(pts, pidx, base, n, nLo, d, dim);
    cv := (a + b) / 2.0;
  }

  lemma {:induction false} MedianPlaced(v: seq<real>, nLo: nat, k: nat)
    requires 1 <= nLo < |v| && k < nLo && Outside(v, nLo, nLo) && Under(v, 0, nLo, v[k])
    ensures var w := Swapped(v, nLo - 1, k);
            Under(w, 0, nLo, w[nLo - 1]) && Over(w, nLo, |v|, w[nLo]) && w[nLo - 1] <= w[nLo]
  {
  }

  // ------------------------------------------------------------------
  // Splitting about a plane or a box. The three loops of the program differ only in their test.

  datatype Test = Below(d: nat, cv: real) | UpTo(d: nat, cv: real) | InBox(box: Box)

  ghost predicate Applies(test: Test, dim: nat) {
    match test
    case Below(d, _) => d < dim
    case UpTo(d, _) => d < dim
    case InBox(box) => BoxOf(box, dim)
  }

  ghost predicate Passes(test: Test, p: Point)
    requires Applies(test, |p|)
  {
    match test
    case Below(d, cv) => p[d] < cv
    case UpTo(d, cv) => p[d] <= cv
    case InBox(box) => Inside(box, p)
  }

  // Which of the n points listed from base on pass the test.
  ghost function Marks(pts: seq<Point>, s: seq<int>, base: nat, n: nat, test: Test, dim: nat): (r: seq<bool>)
    requires Indexes(s, pts, dim) && Applies(test, dim) && base + n <= |s|
    ensures |r| == n
    ensures forall i :: 0 <= i < n ==> r[i] == Passes(test, pts[s[base + i]])
  {
    seq(n, i requires 0 <= i < n => Passes(test, pts[s[base + i]]))
  }

  ghost predicate All(v: seq<bool>, a: int, b: int, m: bool) {
    forall i :: 0 <= a <= i < b && i < |v| ==> v[i] == m
  }

  method Check(pts: seq<Point>, pidx: array<int>, base: nat, n: nat, i: nat, test: Test, dim: nat) returns (pass: bool)
    requires Indexes(pidx[..], pts, dim) && Applies(test, dim) && base + n <= pidx.Length && i < n
    ensures pass == Marks(pts, pidx[..], base, n, test, dim)[i]
  {
    assert pidx[..][base + i] == pidx[base + i];
    var p := pts[pidx[base + i]];
    match test
    case Below(d, cv) => pass := p[d] < cv;
    case UpTo(d, cv) => pass := p[d] <= cv;
    case InBox(box) => pass := InsideBox(dim, box, p);
  }

  lemma {:induction false} SwapMarks(pts: seq<Point>, s: seq<int>, base: nat, n: nat, test: Test, dim: nat, i: nat, j: nat)
    requires Indexes(s, pts, dim) && Applies(test, dim) && base + n <= |s| && i < n && j < n
    ensures Indexes(Swapped(s, base + i, base + j), pts, dim)
    ensures Marks(pts, Swapped(s, base + i, base + j), base, n, test, dim) ==
            Swapped(Marks(pts, s, base, n, test, dim), i, j)
  {
  }

  method SwapMarked(pts: seq<Point>, pidx: array<int>, base: nat, n: nat, i: nat, j: nat, ghost floor: nat,
                    ghost test: Test, ghost dim: nat)
    requires Indexes(pidx[..], pts, dim) && Applies(test, dim) && base + n <= pidx.Length
    requires floor <= i < n && floor <= j < n
    modifies pidx
    ensures Indexes(pidx[..], pts, dim) && Rearranged(pidx[..], old(pidx[..]), base + floor, base + n)
    ensures Marks(pts, pidx[..], base, n, test, dim) == Swapped(Marks(pts, old(pidx[..]), base, n, test, dim), i, j)
  {
    hide Marks, Indexes, Rearranged;
    ghost var was := pidx[..];
    SwapRearranges(was, base + i, base + j, base + floor, base + n);
    SwapMarks(pts, was, base, n, test, dim, i, j);
    var tmp := pidx[base + i];
    pidx[base + i] := pidx[base + j];
    pidx[base + j] := tmp;
    assert pidx[..] == Swapped(was, base + i, base + j);
  }

  method ScanUp(pts: seq<Point>, pidx: array<int>, base: nat, n: nat, start: nat, test: Test, dim: nat) returns (l: nat)
    requires Indexes(pidx[..], pts, dim) && Applies(test, dim) && base + n <= pidx.Length && start <= n
    ensures start <= l <= n
    ensures var v := Marks(pts, pidx[..], base, n, test, dim); All(v, start, l, true) && (l < n ==> !v[l])
  {
    hide Marks, Indexes, Applies;
    l := start;
    while l < n
      invariant start <= l <= n && All(Marks(pts, pidx[..], base, n, test, dim), start, l, true)
    {
      var pass := Check(pts, pidx, base, n, l, test, dim);
      if !pass {
        break;
      }
      l := l + 1;
    }
  }

  method ScanDown(pts: seq<Point>, pidx: array<int>, base: nat, n: nat, start: int, floor: nat, test: Test, dim: nat)
    returns (r: int)
    requires Indexes(pidx[..], pts, dim) && Applies(test, dim) && base + n <= pidx.Length
    requires floor - 1 <= start < n
    ensures floor - 1 <= r <= start
    ensures var v := Marks(pts, pidx[..], base, n, test, dim); All(v, r + 1, start + 1, false) && (r >= floor ==> v[r])
  {
    hide Marks, Indexes, Applies;
    r := start;
    while r >= floor
      invariant floor - 1 <= r <= start && All(Marks(pts, pidx[..], base, n, test, dim), r + 1, start + 1, false)
      decreases r
    {
      var pass := Check(pts, pidx, base, n, r, test, dim);
      if pass {
        break;
      }
      r := r - 1;
    }
  }

  // Moves the points that pass the test before the others, from place floor on.
  method PartitionBy(pts: seq<Point>, pidx: array<int>, base: nat, n: nat, floor: nat, test: Test, dim: nat)
    returns (l: nat)
    requires Indexes(pidx[..], pts, dim) && Applies(test, dim) && base + n <= pidx.Length && floor <= n
    modifies pidx
    ensures Indexes(pidx[..], pts, dim) && Rearranged(pidx[..], old(pidx[..]), base + floor, base + n)
    ensures floor <= l <= n
    ensures var v := Marks(pts, pidx[..], base, n, test, dim); All(v, floor, l, true) && All(v, l, n, false)
  {
    hide Marks, Indexes, Rearranged, Applies;
    ghost var s0 := pidx[..];
    RearrangedRefl(s0, base + floor, base + n);
    l := floor;
    var r := (n as int) - 1;
    while true
      invariant floor <= l <= n && floor - 1 <= r < n && l <= r + 1
      invariant Indexes(pidx[..], pts, dim) && Rearranged(pidx[..], s0, base + floor, base + n)
      invariant All(Marks(pts, pidx[..], base, n, test, dim), floor, l, true)
      invariant All(Marks(pts, pidx[..], base, n, test, dim), r + 1, n, false)
      decreases r + 1 - l
    {
      l := ScanUp(pts, pidx, base, n, l, test, dim);
      r := ScanDown(pts, pidx, base, n, r, floor, test, dim);
      if l > r {
        break;
      }
      ghost var s1 := pidx[..];
      SwapMarked(pts, pidx, base, n, l, r, floor, test, dim);
      RearrangedTrans(pidx[..], s1, s0, base + floor, base + n);
      l := l + 1;
      r := r - 1;
    }
  }

  // What holds of every listed point of a part still holds after the part is rearranged.
  lemma {:induction false} MarksKept(pts: seq<Point>, a: seq<int>, b: seq<int>, base: nat, n: nat, floor: nat, test: Test, m: bool, dim: nat)
    requires Indexes(a, pts, dim) && Indexes(b, pts, dim) && Applies(test, dim) && base + n <= |a| && floor <= n
    requires Rearranged(a, b, base + floor, base + n)
    requires All(Marks(pts, b, base, n, test, dim), floor, n, m)
    ensures All(Marks(pts, a, base, n, test, dim), floor, n, m)
    ensures |a| == |b| && a[..base + floor] == b[..base + floor]
  {
    hide Rearranged, Passes;
    SegmentKept(a, b, base + floor, base + n);
    SameLength(a, b, base + floor, base + n);
    forall i | floor <= i < n
      ensures Marks(pts, a, base, n, test, dim)[i] == m
    {
      var x := a[base + i];
      assert x == a[base + floor..base + n][i - floor];
      assert x in multiset(a[base + floor..base + n]);
      assert x in multiset(b[base + floor..base + n]);
      assert x in b[base + floor..base + n];
      var j :| 0 <= j < n - floor && b[base + floor..base + n][j] == x;
      assert b[base + (floor + j)] == x;
      assert Marks(pts, b, base, n, test, dim)[floor + j] == m;
    }
  }

  lemma {:induction false} SameLength(a: seq<int>, b: seq<int>, lo: nat, hi: nat)
    requires Rearranged(a, b, lo, hi)
    ensures |a| == |b| && lo <= |a| && a[..lo] == b[..lo]
  {
  }

  lemma {:induction false} RearrangedWider(a: seq<int>, b: seq<int>, lo: nat, hi: nat, low: nat, high: nat)
    requires Rearranged(a, b, lo, hi) && low <= lo && hi <= high <= |a|
    ensures Rearranged(a, b, low, high)
  {
    assert a[..low] == a[..lo][..low];
    assert b[..low] == b[..lo][..low];
    assert a[high..] == a[hi..][high - hi..];
    assert b[high..] == b[hi..][high - hi..];
  }

  // Splits the segment into the points before, on and behind a cutting plane.
  method PlaneSplit(pts: seq<Point>, pidx: array<int>, base: nat, n: nat, d: nat, cv: real, dim: nat)
    returns (br1: nat, br2: nat)
    requires Indexes(pidx[..], pts, dim) && d < dim && base + n <= pidx.Length
    modifies pidx
    ensures Indexes(pidx[..], pts, dim) && Rearranged(pidx[..], old(pidx[..]), base, base + n)
    ensures br1 <= br2 <= n
    ensures var v := Values(pts, pidx[..], base, n, d, dim);
            && (forall i :: 0 <= i < br1 ==> v[i] < cv)
            && (forall i :: br1 <= i < br2 ==> v[i] == cv)
            && (forall i :: br2 <= i < n ==> v[i] > cv)
  {
    hide Indexes, Rearranged;
    ghost var s0 := pidx[..];
    br1 := PartitionBy(pts, pidx, base, n, 0, Below(d, cv), dim);
    ghost var s1 := pidx[..];
    br2 := PartitionBy(pts, pidx, base, n, br1, UpTo(d, cv), dim);
    MarksKept(pts, pidx[..], s1, base, n, br1, Below(d, cv), false, dim);
    RearrangedWider(pidx[..], s1, base + br1, base + n, base, base + n);
    RearrangedTrans(pidx[..], s1, s0, base, base + n);
    PlanePlaced(pts, s1, pidx[..], base, n, d, cv, br1, br2, dim);
  }

  lemma {:induction false} PlanePlaced(pts: seq<Point>, b: seq<int>, a: seq<int>, base: nat, n: nat, d: nat, cv: real, br1: nat, br2: nat, dim: nat)
    requires Indexes(a, pts, dim) && Indexes(b, pts, dim) && d < dim && base + n <= |a| && base + n <= |b|
    requires br1 <= br2 <= n
    requires a[..base + br1] == b[..base + br1]
    requires All(Marks(pts, b, base, n, Below(d, cv), dim), 0, br1, true)
    requires All(Marks(pts, a, base, n, Below(d, cv), dim), br1, n, false)
    requires All(Marks(pts, a, base, n, UpTo(d, cv), dim), br1, br2, true)
    requires All(Marks(pts, a, base, n, UpTo(d, cv), dim), br2, n, false)
    ensures var v := Values(pts, a, base, n, d, dim);
            && (forall i :: 0 <= i < br1 ==> v[i] < cv)
            && (forall i :: br1 <= i < br2 ==> v[i] == cv)
            && (forall i :: br2 <= i < n ==> v[i] > cv)
  {
    forall i | 0 <= i < br1
      ensures Values(pts, a, base, n, d, dim)[i] < cv
    {
      assert Marks(pts, b, base, n, Below(d, cv), dim)[i];
      assert a[..base + br1][base + i] == b[..base + br1][base + i];
    }
    forall i | br1 <= i < n
      ensures Values(pts, a, base, n, d, dim)[i] >= cv
    {
      assert !Marks(pts, a, base, n, Below(d, cv), dim)[i];
    }
    forall i | br1 <= i < br2
      ensures Values(pts, a, base, n, d, dim)[i] <= cv
    {
      assert Marks(pts, a, base, n, UpTo(d, cv), dim)[i];
    }
    forall i | br2 <= i < n
      ensures Values(pts, a, base, n, d, dim)[i] > cv
    {
      assert !Marks(pts, a, base, n, UpTo(d, cv), dim)[i];
    }
  }

  // Exactly the first nIn of the listed points lie in the box.
  ghost predicate InsideFirst(box: Box, pts: seq<Point>, seg: seq<int>, nIn: nat, dim: nat)
    requires BoxOf(box, dim) && Points(pts, dim)
  {
    forall i :: 0 <= i < |seg| ==> 0 <= seg[i] < |pts| && (Inside(box, pts[seg[i]]) <==> i < nIn)
  }

  // Splits the segment into the points inside or on a box and the others.
  method BoxSplit(pts: seq<Point>, pidx: array<int>, base: nat, n: nat, box: Box, dim: nat) returns (nIn: nat)
    requires Indexes(pidx[..], pts, dim) && BoxOf(box, dim) && base + n <= pidx.Length
    modifies pidx
    ensures Indexes(pidx[..], pts, dim) && Rearranged(pidx[..], old(pidx[..]), base, base + n)
    ensures nIn <= n && InsideFirst(box, pts, pidx[base..base + n], nIn, dim)
  {
    nIn := PartitionBy(pts, pidx, base, n, 0, InBox(box), dim);
    BoxPlaced(pts, pidx[..], base, n, box, nIn, dim);
    assert pidx[..][base..base + n] == pidx[base..base + n];
  }

  lemma {:induction false} BoxPlaced(pts: seq<Point>, s: seq<int>, base: nat, n: nat, box: Box, nIn: nat, dim: nat)
    requires Indexes(s, pts, dim) && BoxOf(box, dim) && base + n <= |s| && nIn <= n
    requires All(Marks(pts, s, base, n, InBox(box), dim), 0, nIn, true)
    requires All(Marks(pts, s, base, n, InBox(box), dim), nIn, n, false)
    ensures InsideFirst(box, pts, s[base..base + n], nIn, dim)
  {
    var seg := s[base..base + n];
    forall i | 0 <= i < n
      ensures 0 <= seg[i] < |pts| && (Inside(box, pts[seg[i]]) <==> i < nIn)
    {
      assert seg[i] == s[base + i];
      assert Marks(pts, s, base, n, InBox(box), dim)[i] == (i < nIn);
    }
  }
}
