// The bound lists of shrinking nodes (3rd/ANN/kd_util.cpp, 3rd/ANN/ANNx.h, 3rd/ANN/bd_search.cpp):
// an inner box is stored as the half-spaces of those of its sides that lie strictly inside the
// enclosing box.
module BoundLists {
  import opened Geometry

  // sd is +1 for a lower bound and -1 for an upper bound.
  datatype HalfSpace = HalfSpace(cd: int, cv: real, sd: int)

  predicate Out(h: HalfSpace, q: Point)
    requires 0 <= h.cd < |q|
  {
    (q[h.cd] - h.cv) * (h.sd as real) < 0.0
  }

  function Project(h: HalfSpace, q: Point): Point
    requires 0 <= h.cd < |q|
  {
    if Out(h, q) then q[h.cd := h.cv] else q
  }

  ghost predicate Axes(bnds: seq<HalfSpace>, dim: nat) {
    forall i :: 0 <= i < |bnds| ==> 0 <= bnds[i].cd < dim
  }

  // What the first i half-spaces that exclude q add to the inner distance.
  function InnerTo(bnds: seq<HalfSpace>, q: Point, i: nat): real
    requires i <= |bnds| && Axes(bnds, |q|)
  {
    if i == 0 then 0.0
    else InnerTo(bnds, q, i - 1) + (if Out(bnds[i - 1], q) then Sq(q[bnds[i - 1].cd] - bnds[i - 1].cv) else 0.0)
  }

  method InnerDistance(bnds: seq<HalfSpace>, q: Point) returns (dist: real)
    requires Axes(bnds, |q|)
    ensures dist == InnerTo(bnds, q, |bnds|)
  {
    dist := 0.0;
    for i := 0 to |bnds|
      invariant dist == InnerTo(bnds, q, i)
    {
      if Out(bnds[i], q) {
        var t := q[bnds[i].cd] - bnds[i].cv;
        dist := dist + t * t;
      }
    }
  }

  // ------------------------------------------------------------------
  // From a box to its bounds and back

  function Sides(inner: Box, outer: Box, d: nat): seq<HalfSpace>
    requires BoxOf(inner, |inner.lo|) && BoxOf(outer, |inner.lo|) && d < |inner.lo|
  {
    (if inner.lo[d] > outer.lo[d] then [HalfSpace(d, inner.lo[d], 1)] else [])
    + (if inner.hi[d] < outer.hi[d] then [HalfSpace(d, inner.hi[d], -1)] else [])
  }

  function Bounds(inner: Box, outer: Box, d: nat): seq<HalfSpace>
    requires BoxOf(inner, |inner.lo|) && BoxOf(outer, |inner.lo|) && d <= |inner.lo|
  {
    if d == 0 then [] else Bounds(inner, outer, d - 1) + Sides(inner, outer, d - 1)
  }

  lemma {:induction false} BoundsAxes(inner: Box, outer: Box, d: nat)
    requires BoxOf(inner, |inner.lo|) && BoxOf(outer, |inner.lo|) && d <= |inner.lo|
    ensures Axes(Bounds(inner, outer, d), d)
  {
    if d > 0 {
      BoundsAxes(inner, outer, d - 1);
    }
  }

  function Projected(b: Box, bnds: seq<HalfSpace>): (r: Box)
    requires BoxOf(b, |b.lo|) && Axes(bnds, |b.lo|)
    ensures BoxOf(r, |b.lo|)
    decreases |bnds|
  {
    if |bnds| == 0 then b
    else
      var last := bnds[|bnds| - 1];
      var r := Projected(b, bnds[..|bnds| - 1]);
      Box(Project(last, r.lo), Project(last, r.hi))
  }

  ghost predicate Within(inner: Box, outer: Box)
    requires BoxOf(inner, |inner.lo|) && BoxOf(outer, |inner.lo|)
  {
    forall d :: 0 <= d < |inner.lo| ==> outer.lo[d] <= inner.lo[d] && inner.hi[d] <= outer.hi[d]
  }

  lemma {:induction false} ProjectedMore(b: Box, xs: seq<HalfSpace>, h: HalfSpace)
    requires BoxOf(b, |b.lo|) && Axes(xs, |b.lo|) && 0 <= h.cd < |b.lo|
    ensures Axes(xs + [h], |b.lo|)
    ensures Projected(b, xs + [h]) == Box(Project(h, Projected(b, xs).lo), Project(h, Projected(b, xs).hi))
  {
    assert (xs + [h])[..|xs|] == xs;
  }

  // A box whose first d axes come from inner and the others from outer.
  function Mixed(inner: Box, outer: Box, d: nat): Box
    requires BoxOf(inner, |inner.lo|) && BoxOf(outer, |inner.lo|) && d <= |inner.lo|
  {
    Box(inner.lo[..d] + outer.lo[d..], inner.hi[..d] + outer.hi[d..])
  }

  lemma {:induction false} ProjectBuildsBox(inner: Box, outer: Box, d: nat)
    requires BoxOf(inner, |inner.lo|) && BoxOf(outer, |inner.lo|) && d <= |inner.lo|
    requires Within(inner, outer) && Proper(inner)
    ensures Axes(Bounds(inner, outer, d), |inner.lo|)
    ensures Projected(outer, Bounds(inner, outer, d)) == Mixed(inner, outer, d)
  {
    BoundsAxes(inner, outer, d);
    if d > 0 {
      var e := d - 1;
      ProjectBuildsBox(inner, outer, e);
      OneSide(inner, outer, e);
      var xs := Bounds(inner, outer, e);
      var low := if inner.lo[e] > outer.lo[e] then [HalfSpace(e, inner.lo[e], 1)] else [];
      var high := if inner.hi[e] < outer.hi[e] then [HalfSpace(e, inner.hi[e], -1)] else [];
      assert Bounds(inner, outer, d) == (xs + low) + high;
      if low != [] {
        ProjectedMore(outer, xs, low[0]);
      } else {
        assert xs + low == xs;
      }
      if high != [] {
        ProjectedMore(outer, xs + low, high[0]);
      } else {
        assert (xs + low) + high == xs + low;
      }
    } else {
      assert Mixed(inner, outer, 0) == outer;
    }
  }

  lemma {:induction false} OneSide(inner: Box, outer: Box, e: nat)
    requires BoxOf(inner, |inner.lo|) && BoxOf(outer, |inner.lo|) && e < |inner.lo|
    requires Within(inner, outer) && Proper(inner)
    ensures var m := Mixed(inner, outer, e);
            var l := HalfSpace(e, inner.lo[e], 1);
            var h := HalfSpace(e, inner.hi[e], -1);
            var a := if inner.lo[e] > outer.lo[e] then Box(Project(l, m.lo), Project(l, m.hi)) else m;
            (if inner.hi[e] < outer.hi[e] then Box(Project(h, a.lo), Project(h, a.hi)) else a)
            == Mixed(inner, outer, e + 1)
  {
    var m := Mixed(inner, outer, e);
    var l := HalfSpace(e, inner.lo[e], 1);
    var h := HalfSpace(e, inner.hi[e], -1);
    var a := if inner.lo[e] > outer.lo[e] then Box(Project(l, m.lo), Project(l, m.hi)) else m;
    assert a.hi == m.hi;
    assert a.lo[e] == inner.lo[e];
    var r := if inner.hi[e] < outer.hi[e] then Box(Project(h, a.lo), Project(h, a.hi)) else a;
    assert r.lo == a.lo;
    assert r.hi[e] == inner.hi[e];
    assert r.lo == Mixed(inner, outer, e + 1).lo;
    assert r.hi == Mixed(inner, outer, e + 1).hi;
  }

  // Converting a proper inner box to bounds and the bounds back to a box gives the inner box.
  lemma {:induction false} BoundsRoundTrip(inner: Box, outer: Box)
    requires BoxOf(inner, |inner.lo|) && BoxOf(outer, |inner.lo|)
    requires Within(inner, outer) && Proper(inner)
    ensures Axes(Bounds(inner, outer, |inner.lo|), |inner.lo|)
    ensures Projected(outer, Bounds(inner, outer, |inner.lo|)) == inner
  {
    ProjectBuildsBox(inner, outer, |inner.lo|);
    assert Mixed(inner, outer, |inner.lo|) == inner;
  }

  // ------------------------------------------------------------------
  // The inner distance is a lower bound

  lemma {:induction false} InnerPrefix(xs: seq<HalfSpace>, ys: seq<HalfSpace>, q: Point, i: nat)
    requires Axes(xs + ys, |q|) && Axes(xs, |q|) && i <= |xs|
    ensures InnerTo(xs + ys, q, i) == InnerTo(xs, q, i)
  {
    if i > 0 {
      InnerPrefix(xs, ys, q, i - 1);
      assert (xs + ys)[i - 1] == xs[i - 1];
    }
  }

  lemma {:induction false} InnerSuffix(xs: seq<HalfSpace>, ys: seq<HalfSpace>, q: Point)
    requires Axes(xs + ys, |q|) && Axes(xs, |q|) && Axes(ys, |q|) && |ys| <= 2
    ensures InnerTo(xs + ys, q, |xs + ys|) ==
            InnerTo(xs, q, |xs|)
            + (if |ys| > 0 && Out(ys[0], q) then Sq(q[ys[0].cd] - ys[0].cv) else 0.0)
            + (if |ys| > 1 && Out(ys[1], q) then Sq(q[ys[1].cd] - ys[1].cv) else 0.0)
  {
    InnerPrefix(xs, ys, q, |xs|);
    if |ys| > 0 {
      assert (xs + ys)[|xs|] == ys[0];
      assert InnerTo(xs + ys, q, |xs| + 1) ==
             InnerTo(xs + ys, q, |xs|) + (if Out(ys[0], q) then Sq(q[ys[0].cd] - ys[0].cv) else 0.0);
    }
    if |ys| > 1 {
      assert (xs + ys)[|xs| + 1] == ys[1];
      assert InnerTo(xs + ys, q, |xs| + 2) ==
             InnerTo(xs + ys, q, |xs| + 1) + (if Out(ys[1], q) then Sq(q[ys[1].cd] - ys[1].cv) else 0.0);
    }
  }

  // What one more axis adds to the inner distance.
  function AxisTerm(inner: Box, outer: Box, q: Point, d: nat): real
    requires BoxOf(inner, |q|) && BoxOf(outer, |q|) && d < |q|
  {
    (if inner.lo[d] > outer.lo[d] && q[d] < inner.lo[d] then Sq(q[d] - inner.lo[d]) else 0.0)
    + (if inner.hi[d] < outer.hi[d] && q[d] > inner.hi[d] then Sq(q[d] - inner.hi[d]) else 0.0)
  }

  lemma {:induction false} InnerOneAxis(inner: Box, outer: Box, q: Point, d: nat)
    requires BoxOf(inner, |q|) && BoxOf(outer, |q|) && d < |q|
    ensures Axes(Bounds(inner, outer, d), |q|) && Axes(Bounds(inner, outer, d + 1), |q|)
    ensures InnerTo(Bounds(inner, outer, d + 1), q, |Bounds(inner, outer, d + 1)|) ==
            InnerTo(Bounds(inner, outer, d), q, |Bounds(inner, outer, d)|) + AxisTerm(inner, outer, q, d)
  {
    BoundsAxes(inner, outer, d);
    BoundsAxes(inner, outer, d + 1);
    var xs := Bounds(inner, outer, d);
    var ys := Sides(inner, outer, d);
    assert Bounds(inner, outer, d + 1) == xs + ys;
    assert Axes(ys, |q|);
    InnerSuffix(xs, ys, q);
  }

  lemma {:induction false} AxisTermBelow(inner: Box, outer: Box, q: Point, d: nat)
    requires BoxOf(inner, |q|) && BoxOf(outer, |q|) && d < |q|
    requires inner.lo[d] <= inner.hi[d]
    ensures AxisTerm(inner, outer, q, d) <= Sq(Gap(q[d], inner.lo[d], inner.hi[d]))
    ensures outer.lo[d] <= q[d] <= outer.hi[d] ==>
              AxisTerm(inner, outer, q, d) == Sq(Gap(q[d], inner.lo[d], inner.hi[d]))
  {
    SqEven(q[d], inner.lo[d]);
    SqEven(q[d], inner.hi[d]);
  }

  // The inner distance computed from the bounds never exceeds the distance to the inner box, and
  // equals it whenever the query lies in the enclosing box.
  lemma {:induction false} InnerBelow(inner: Box, outer: Box, q: Point, d: nat)
    requires BoxOf(inner, |q|) && BoxOf(outer, |q|) && d <= |q|
    requires Proper(inner)
    ensures Axes(Bounds(inner, outer, d), |q|)
    ensures InnerTo(Bounds(inner, outer, d), q, |Bounds(inner, outer, d)|) <= BoxDistTo(q, inner, d)
    ensures Inside(outer, q) ==>
              InnerTo(Bounds(inner, outer, d), q, |Bounds(inner, outer, d)|) == BoxDistTo(q, inner, d)
  {
    BoundsAxes(inner, outer, d);
    if d > 0 {
      InnerBelow(inner, outer, q, d - 1);
      InnerOneAxis(inner, outer, q, d - 1);
      AxisTermBelow(inner, outer, q, d - 1);
    }
  }

  // ------------------------------------------------------------------
  // The two conversions as the program runs them

  lemma {:induction false} BoundsSize(inner: Box, outer: Box, d: nat, e: nat)
    requires BoxOf(inner, |inner.lo|) && BoxOf(outer, |inner.lo|) && d <= e <= |inner.lo|
    ensures |Bounds(inner, outer, d)| <= |Bounds(inner, outer, e)|
    decreases e
  {
    if d < e {
      BoundsSize(inner, outer, d, e - 1);
    }
  }

  method AddSides(inner: Box, outer: Box, dim: nat, i: nat, bnds: array<HalfSpace>, start: nat) returns (j: nat)
    requires BoxOf(inner, dim) && BoxOf(outer, dim) && i < dim
    requires start + |Sides(inner, outer, i)| <= bnds.Length
    modifies bnds
    ensures j == start + |Sides(inner, outer, i)|
    ensures bnds[..j] == old(bnds[..start]) + Sides(inner, outer, i)
  {
    j := start;
    if inner.lo[i] > outer.lo[i] {
      bnds[j] := HalfSpace(i, inner.lo[i], 1);
      j := j + 1;
    }
    if inner.hi[i] < outer.hi[i] {
      bnds[j] := HalfSpace(i, inner.hi[i], -1);
      j := j + 1;
    }
  }

  // Counts the listed sides, allocates the list and fills it.
  method BoxToBounds(inner: Box, outer: Box, dim: nat) returns (bnds: array<HalfSpace>)
    requires BoxOf(inner, dim) && BoxOf(outer, dim)
    ensures fresh(bnds)
    ensures bnds[..] == Bounds(inner, outer, dim)
  {
    var n: nat := 0;
    for i := 0 to dim
      invariant n == |Bounds(inner, outer, i)|
    {
      if inner.lo[i] > outer.lo[i] {
        n := n + 1;
      }
      if inner.hi[i] < outer.hi[i] {
        n := n + 1;
      }
    }
    bnds := new HalfSpace[n];
    var j: nat := 0;
    for i := 0 to dim
      invariant j == |Bounds(inner, outer, i)| <= n
      invariant bnds[..j] == Bounds(inner, outer, i)
    {
      BoundsSize(inner, outer, i + 1, dim);
      j := AddSides(inner, outer, dim, i, bnds, j);
    }
    assert bnds[..] == bnds[..n];
  }

  method ProjectPoint(h: HalfSpace, q: array<real>)
    requires 0 <= h.cd < q.Length
    modifies q
    ensures q[..] == Project(h, old(q[..]))
  {
    if (q[h.cd] - h.cv) * (h.sd as real) < 0.0 {
      q[h.cd] := h.cv;
    }
  }

  method AssignRect(dim: nat, lo: array<real>, hi: array<real>, b: Box)
    requires BoxOf(b, dim) && lo.Length == dim && hi.Length == dim && lo != hi
    modifies lo, hi
    ensures lo[..] == b.lo && hi[..] == b.hi
  {
    for i := 0 to dim
      invariant forall j :: 0 <= j < i ==> lo[j] == b.lo[j] && hi[j] == b.hi[j]
    {
      lo[i] := b.lo[i];
      hi[i] := b.hi[i];
    }
  }

  method BoundsToBox(outer: Box, dim: nat, bnds: array<HalfSpace>, lo: array<real>, hi: array<real>)
    requires BoxOf(outer, dim) && lo.Length == dim && hi.Length == dim && lo != hi
    requires Axes(bnds[..], dim)
    modifies lo, hi
    ensures Box(lo[..], hi[..]) == Projected(outer, old(bnds[..]))
  {
    ghost var hs := bnds[..];
    AssignRect(dim, lo, hi, outer);
    for i := 0 to bnds.Length
      invariant Axes(hs[..i], dim)
      invariant Box(lo[..], hi[..]) == Projected(outer, hs[..i])
    {
      ProjectPoint(bnds[i], lo);
      ProjectPoint(bnds[i], hi);
      assert hs[..i + 1] == hs[..i] + [hs[i]];
      ProjectedMore(outer, hs[..i], hs[i]);
    }
    assert hs[..bnds.Length] == hs;
  }
}
