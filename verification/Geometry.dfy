// Points, orthogonal boxes and half-spaces with squared Euclidean distances
// (3rd/ANN/ANN.cpp, 3rd/ANN/ANNx.h, 3rd/ANN/kd_util.cpp). Coordinates are exact reals.
module Geometry {
  type Point = seq<real>

  datatype Box = Box(lo: Point, hi: Point)

  function Sq(v: real): (r: real)
    ensures r >= 0.0
  {
    assert v < 0.0 ==> v * v == (-v) * (-v);
    v * v
  }

  // The squared distance over the first d coordinates, in the order the loops add them.
  function DistTo(p: Point, q: Point, d: nat): (r: real)
    requires d <= |p| && d <= |q|
    ensures r >= 0.0
  {
    if d == 0 then 0.0 else DistTo(p, q, d - 1) + Sq(p[d - 1] - q[d - 1])
  }

  function Dist(p: Point, q: Point): real
    requires |p| == |q|
  {
    DistTo(p, q, |q|)
  }

  predicate BoxOf(b: Box, dim: nat) {
    |b.lo| == dim && |b.hi| == dim
  }

  // Every side has its low end at or below its high end.
  ghost predicate Proper(b: Box)
    requires |b.lo| == |b.hi|
  {
    forall d :: 0 <= d < |b.lo| ==> b.lo[d] <= b.hi[d]
  }

  ghost predicate Inside(b: Box, p: Point)
    requires BoxOf(b, |p|)
  {
    forall d :: 0 <= d < |p| ==> b.lo[d] <= p[d] <= b.hi[d]
  }

  // How far x lies outside the interval.
  function Gap(x: real, lo: real, hi: real): real {
    if x < lo then lo - x else if x > hi then x - hi else 0.0
  }

  function BoxDistTo(q: Point, b: Box, d: nat): (r: real)
    requires BoxOf(b, |q|) && d <= |q|
    ensures r >= 0.0
  {
    if d == 0 then 0.0 else BoxDistTo(q, b, d - 1) + Sq(Gap(q[d - 1], b.lo[d - 1], b.hi[d - 1]))
  }

  function BoxDist(q: Point, b: Box): real
    requires BoxOf(b, |q|)
  {
    BoxDistTo(q, b, |q|)
  }

  lemma {:induction false} SqMonotone(a: real, b: real)
    requires 0.0 <= a <= b
    ensures a * a <= b * b
  {
    assert a * a <= a * b;
    assert a * b <= b * b;
  }

  lemma {:induction false} SqEven(a: real, b: real)
    ensures Sq(a - b) == Sq(b - a)
  {
  }

  // What the squared distance is: along a line the square of the difference, and for more
  // coordinates the sum over any division of them.
  lemma {:induction false} DistOnLine(x: real, y: real)
    ensures Dist([x], [y]) == (x - y) * (x - y)
  {
    assert DistTo([x], [y], 0) == 0.0;
  }

  lemma {:induction false} DistOfParts(a: Point, b: Point, c: Point, d: Point)
    requires |a| == |c| && |b| == |d|
    ensures Dist(a + b, c + d) == Dist(a, c) + Dist(b, d)
  {
    PartsTo(a, b, c, d, |b|);
  }

  lemma {:induction false} PartsTo(a: Point, b: Point, c: Point, d: Point, n: nat)
    requires |a| == |c| && |b| == |d| && n <= |b|
    ensures DistTo(a + b, c + d, |a| + n) == DistTo(a, c, |a|) + DistTo(b, d, n)
    decreases n
  {
    if n == 0 {
      FrontTo(a, b, c, d, |a|);
    } else {
      PartsTo(a, b, c, d, n - 1);
    }
  }

  lemma {:induction false} FrontTo(a: Point, b: Point, c: Point, d: Point, n: nat)
    requires |a| == |c| && |b| == |d| && n <= |a|
    ensures DistTo(a + b, c + d, n) == DistTo(a, c, n)
  {
    if n > 0 {
      FrontTo(a, b, c, d, n - 1);
    }
  }

  // The same for a box: along a line the square of the way to the nearest point of the interval.
  lemma {:induction false} BoxDistOnLine(x: real, lo: real, hi: real)
    requires lo <= hi
    ensures BoxDist([x], Box([lo], [hi])) == if x < lo then (lo - x) * (lo - x) else if x > hi then (x - hi) * (x - hi) else 0.0
  {
    assert BoxDistTo([x], Box([lo], [hi]), 0) == 0.0;
  }

  lemma {:induction false} BoxDistOfParts(p: Point, q: Point, b: Box, c: Box)
    requires BoxOf(b, |p|) && BoxOf(c, |q|)
    ensures BoxDist(p + q, Box(b.lo + c.lo, b.hi + c.hi)) == BoxDist(p, b) + BoxDist(q, c)
  {
    BoxPartsTo(p, q, b, c, |q|);
  }

  lemma {:induction false} BoxPartsTo(p: Point, q: Point, b: Box, c: Box, n: nat)
    requires BoxOf(b, |p|) && BoxOf(c, |q|) && n <= |q|
    ensures BoxDistTo(p + q, Box(b.lo + c.lo, b.hi + c.hi), |p| + n) == BoxDistTo(p, b, |p|) + BoxDistTo(q, c, n)
    decreases n
  {
    hide Sq, Gap;
    if n == 0 {
      BoxFrontTo(p, q, b, c, |p|);
    } else {
      BoxPartsTo(p, q, b, c, n - 1);
    }
  }

  lemma {:induction false} BoxFrontTo(p: Point, q: Point, b: Box, c: Box, n: nat)
    requires BoxOf(b, |p|) && BoxOf(c, |q|) && n <= |p|
    ensures BoxDistTo(p + q, Box(b.lo + c.lo, b.hi + c.hi), n) == BoxDistTo(p, b, n)
  {
    hide Sq, Gap;
    if n > 0 {
      BoxFrontTo(p, q, b, c, n - 1);
    }
  }

  lemma {:induction false} DistGrows(p: Point, q: Point, d: nat, e: nat)
    requires d <= e <= |p| && e <= |q|
    ensures 0.0 <= DistTo(p, q, d) <= DistTo(p, q, e)
    decreases e
  {
    if e > 0 {
      DistGrows(p, q, if d == e then d - 1 else d, e - 1);
    }
  }

  lemma {:induction false} GapBelow(x: real, lo: real, hi: real, p: real)
    requires lo <= p <= hi
    ensures Sq(Gap(x, lo, hi)) <= Sq(p - x)
  {
    var g := Gap(x, lo, hi);
    if p >= x {
      SqMonotone(g, p - x);
    } else {
      SqMonotone(g, x - p);
      SqEven(p, x);
    }
  }

  // The distance to a box never exceeds the distance to a point in it.
  lemma {:induction false} BoxDistBelow(q: Point, b: Box, p: Point, d: nat)
    requires |p| == |q| && BoxOf(b, |q|) && d <= |q|
    requires Inside(b, p)
    ensures BoxDistTo(q, b, d) <= DistTo(p, q, d)
  {
    if d > 0 {
      GapBelow(q[d - 1], b.lo[d - 1], b.hi[d - 1], p[d - 1]);
      BoxDistBelow(q, b, p, d - 1);
    }
  }

  // ------------------------------------------------------------------
  // Cutting a box by a plane orthogonal to one axis

  function LowCell(b: Box, cd: nat, cv: real): Box
    requires cd < |b.hi|
  {
    Box(b.lo, b.hi[cd := cv])
  }

  function HighCell(b: Box, cd: nat, cv: real): Box
    requires cd < |b.lo|
  {
    Box(b.lo[cd := cv], b.hi)
  }

  // Two boxes that differ along one axis differ by the terms of that axis.
  lemma {:induction false} OneAxis(q: Point, a: Box, b: Box, cd: nat, d: nat)
    requires BoxOf(a, |q|) && BoxOf(b, |q|) && cd < |q| && d <= |q|
    requires forall e :: 0 <= e < |q| && e != cd ==> a.lo[e] == b.lo[e] && a.hi[e] == b.hi[e]
    ensures BoxDistTo(q, b, d) ==
            BoxDistTo(q, a, d)
            + (if d > cd then Sq(Gap(q[cd], b.lo[cd], b.hi[cd])) - Sq(Gap(q[cd], a.lo[cd], a.hi[cd])) else 0.0)
  {
    if d > 0 {
      OneAxis(q, a, b, cd, d - 1);
    }
  }

  // The incremental update a search makes when it crosses a cutting plane: the nearer child's box
  // is as far as its parent's, and the further child's distance is the parent's plus the
  // difference of two squares.
  function FarDist(boxDist: real, q: real, cv: real, lo: real, hi: real): real {
    var cutDiff := q - cv;
    var raw := if cutDiff < 0.0 then lo - q else q - hi;
    var boxDiff := if raw < 0.0 then 0.0 else raw;
    boxDist + (Sq(cutDiff) - Sq(boxDiff))
  }

  method FarDistance(boxDist: real, x: real, cv: real, lo: real, hi: real) returns (far: real)
    ensures far == FarDist(boxDist, x, cv, lo, hi)
  {
    var cutDiff := x - cv;
    var boxDiff := if cutDiff < 0.0 then lo - x else x - hi;
    hide Sq;
    if boxDiff < 0.0 {
      boxDiff := 0.0;
    }
    far := boxDist + (Sq(cutDiff) - Sq(boxDiff));
  }

  lemma {:induction false} CutInterval(x: real, lo: real, cv: real, hi: real, boxDist: real)
    requires lo <= cv <= hi
    ensures x < cv ==> Sq(Gap(x, lo, cv)) == Sq(Gap(x, lo, hi))
    ensures x < cv ==> FarDist(boxDist, x, cv, lo, hi) - boxDist == Sq(Gap(x, cv, hi)) - Sq(Gap(x, lo, hi))
    ensures x >= cv ==> Sq(Gap(x, cv, hi)) == Sq(Gap(x, lo, hi))
    ensures x >= cv ==> FarDist(boxDist, x, cv, lo, hi) - boxDist == Sq(Gap(x, lo, cv)) - Sq(Gap(x, lo, hi))
  {
    SqEven(x, cv);
  }

  lemma {:induction false} CrossPlane(q: Point, b: Box, cd: nat, cv: real, boxDist: real)
    requires BoxOf(b, |q|) && cd < |q|
    requires b.lo[cd] <= cv <= b.hi[cd]
    ensures q[cd] < cv ==> BoxDist(q, LowCell(b, cd, cv)) == BoxDist(q, b)
    ensures q[cd] < cv ==> FarDist(boxDist, q[cd], cv, b.lo[cd], b.hi[cd]) - boxDist ==
                           BoxDist(q, HighCell(b, cd, cv)) - BoxDist(q, b)
    ensures q[cd] >= cv ==> BoxDist(q, HighCell(b, cd, cv)) == BoxDist(q, b)
    ensures q[cd] >= cv ==> FarDist(boxDist, q[cd], cv, b.lo[cd], b.hi[cd]) - boxDist ==
                            BoxDist(q, LowCell(b, cd, cv)) - BoxDist(q, b)
  {
    hide BoxDistTo, FarDist, Gap, Sq;
    OneAxis(q, b, LowCell(b, cd, cv), cd, |q|);
    OneAxis(q, b, HighCell(b, cd, cv), cd, |q|);
    CutInterval(q[cd], b.lo[cd], cv, b.hi[cd], boxDist);
  }

  // ------------------------------------------------------------------
  // Loops over coordinates

  method PointDist(dim: nat, p: Point, q: Point) returns (dist: real)
    requires |p| == dim && |q| == dim
    ensures dist == Dist(p, q)
  {
    dist := 0.0;
    for d := 0 to dim
      invariant dist == DistTo(p, q, d)
    {
      var diff := p[d] - q[d];
      dist := dist + diff * diff;
    }
  }

  // The bucket loop's distance: it stops at the first partial sum that exceeds the limit.
  method BoundedDist(dim: nat, p: Point, q: Point, limit: real) returns (dist: real, within: bool)
    requires |p| == dim && |q| == dim
    requires dim > 0 || limit >= 0.0
    ensures within <==> Dist(p, q) <= limit
    ensures within ==> dist == Dist(p, q)
  {
    dist := 0.0;
    var d := 0;
    while d < dim
      invariant 0 <= d <= dim
      invariant dist == DistTo(p, q, d) && (d > 0 || dim == 0 ==> dist <= limit)
    {
      var t := q[d] - p[d];
      SqEven(q[d], p[d]);
      dist := dist + t * t;
      if dist > limit {
        assert dist == DistTo(p, q, d + 1);
        DistGrows(p, q, d + 1, dim);
        return dist, false;
      }
      d := d + 1;
    }
    within := true;
  }

  method BoxDistance(q: Point, b: Box, dim: nat) returns (dist: real)
    requires |q| == dim && BoxOf(b, dim)
    ensures dist == BoxDist(q, b)
  {
    dist := 0.0;
    for d := 0 to dim
      invariant dist == BoxDistTo(q, b, d)
    {
      if q[d] < b.lo[d] {
        var t := b.lo[d] - q[d];
        dist := dist + t * t;
      } else if q[d] > b.hi[d] {
        var t := q[d] - b.hi[d];
        dist := dist + t * t;
      }
    }
  }

  method InsideBox(dim: nat, b: Box, p: Point) returns (inside: bool)
    requires |p| == dim && BoxOf(b, dim)
    ensures inside <==> Inside(b, p)
  {
    for d := 0 to dim
      invariant forall e :: 0 <= e < d ==> b.lo[e] <= p[e] <= b.hi[e]
    {
      if p[d] < b.lo[d] || p[d] > b.hi[d] {
        return false;
      }
    }
    return true;
  }
}
