// The context-row buffer of the decompressor (3rd/jpeg/jdmainct.c), for one component. The
// workspace holds the sample rows of M + 2 row groups; two pointer lists show it in different
// orders, so that the rows above and below a row group always appear next to it.
module ContextRows {
  import opened Arith

  datatype State = PrepareForImcu | ProcessImcu | PostponedRow

  // A component's picture: rgroup sample rows to a row group, m row groups to an iMCU row, total
  // iMCU rows and height real sample rows. The decoder delivers whole iMCU rows, so the last one
  // may end with rows that do not belong to the image.
  datatype Image = Image(rgroup: nat, m: nat, total: nat, height: nat)

  // Sample rows of an iMCU row.
  function Span(im: Image): nat {
    im.rgroup * im.m
  }

  ghost predicate ImageOk(im: Image) {
    im.rgroup >= 1 && im.m >= 2 && im.total >= 1 && (im.total - 1) * Span(im) < im.height <= im.total * Span(im)
  }

  // Real sample rows of the last iMCU row, and the row groups they touch.
  function RowsLeft(im: Image): (r: nat)
    requires ImageOk(im)
    ensures 1 <= r <= Span(im) && r == im.height - (im.total - 1) * Span(im)
  {
    LastRows(im.height, im.total, Span(im));
    var left := im.height % Span(im);
    if left == 0 then Span(im) else left
  }

  lemma {:induction false} LastRows(height: nat, total: nat, h: nat)
    requires h > 0 && total >= 1 && (total - 1) * h < height <= total * h
    ensures var left := height % h; (if left == 0 then h else left) == height - (total - 1) * h
  {
    var left := height - (total - 1) * h;
    assert 1 <= left <= h by {
      assert total * h == (total - 1) * h + h;
    }
    if left == h {
      DivUnique(height, h, total, 0);
    } else {
      DivUnique(height, h, total - 1, left);
    }
  }

  function Groups(rows: nat, rgroup: nat): nat
    requires rows >= 1 && rgroup >= 1
  {
    (rows - 1) / rgroup + 1
  }

  // ------------------------------------------------------------------
  // What the postprocessor should see, and sees

  // Sample row x of the image, with the first and last rows repeated beyond the edges.
  function Clamp(x: int, height: nat): int {
    if x < 0 then 0 else if x >= height then (height as int) - 1 else x
  }

  // No row of the picture is nearer.
  lemma {:induction false} ClampNearest(x: int, height: nat, y: nat)
    requires y < height
    ensures 0 <= Clamp(x, height) < height
    ensures (if Clamp(x, height) < x then x - Clamp(x, height) else Clamp(x, height) - x) <= if y < x then x - y else y - x
  {
  }

  // The first row of the row group above row group g.
  function Above(im: Image, g: nat): int {
    (g as int - 1) * im.rgroup
  }

  // The row group g with a row group above and below it.
  function TrueView(im: Image, g: nat): seq<int> {
    var start := Above(im, g);
    seq(3 * im.rgroup, i => Clamp(start + i, im.height))
  }

  // The row group that is put off until the last iMCU row has been read.
  ghost predicate LastPutOff(im: Image, g: nat) {
    g + 1 == (im.total as int - 1) * im.m
  }

  // That row group is shown before the pointers at the bottom are set, so the rows below it are
  // those the decoder wrote.
  ghost function SeenRow(im: Image, g: nat, x: int): int {
    if LastPutOff(im, g) && x >= 0 then x else Clamp(x, im.height)
  }

  ghost function SeenView(im: Image, g: nat): seq<int> {
    var start := Above(im, g);
    seq(3 * im.rgroup, i => SeenRow(im, g, start + i))
  }

  // The first row group of iMCU row j.
  function First(im: Image, j: nat): nat {
    j * im.m
  }

  // All row groups with real rows.
  function GroupCount(im: Image): nat
    requires ImageOk(im)
  {
    First(im, im.total - 1) + Groups(RowsLeft(im), im.rgroup)
  }

  // The row groups hold all rows of the picture, and the last of them is needed.
  lemma {:induction false} GroupsHold(im: Image)
    requires ImageOk(im)
    ensures GroupCount(im) >= 1 && (GroupCount(im) - 1) * im.rgroup < im.height <= GroupCount(im) * im.rgroup
  {
    var left, r, f := RowsLeft(im), im.rgroup, First(im, im.total - 1);
    Reorder(im.total - 1, r, im.m);
    var n := (left - 1) / r + 1;
    DivBounds(left - 1, r);
    AddGroups(f, n, r);
    hide Span, First, RowsLeft;
  }

  lemma {:induction false} AddGroups(f: nat, n: nat, r: nat)
    requires n >= 1
    ensures (f + n) * r == f * r + n * r && (f + n - 1) * r == f * r + (n - 1) * r && n * r == (n - 1) * r + r
  {
  }

  // Fewer row groups do not hold the picture.
  lemma {:induction false} EnoughGroups(im: Image, n: nat)
    requires ImageOk(im)
    ensures n >= GroupCount(im) <==> n * im.rgroup >= im.height
  {
    GroupsHold(im);
    hide GroupCount;
    if n >= GroupCount(im) {
      MulMono(GroupCount(im), n, im.rgroup);
    } else {
      MulMono(n, GroupCount(im) - 1, im.rgroup);
    }
  }

  // Row x of the picture is shown in the middle of the row group it belongs to.
  lemma {:induction false} RowShown(im: Image, x: nat)
    requires ImageOk(im) && x < im.height
    ensures x % im.rgroup < im.rgroup && SeenView(im, x / im.rgroup)[im.rgroup + x % im.rgroup] == x
  {
    var r := im.rgroup;
    var g, i := x / r, x % r;
    assert x == g * r + i;
    ViewAt(im, g, r + i);
    assert (g as int - 1) * r == g * r - r;
    hide SeenView;
  }

  // Every row group is shown with its true neighbours exactly when there is one iMCU row only or
  // the last one has at least a full row group of real rows.
  lemma {:induction false} TrueNeighbours(im: Image)
    requires ImageOk(im)
    ensures (forall g :: 0 <= g < GroupCount(im) ==> SeenView(im, g) == TrueView(im, g)) <==>
            (im.total == 1 || RowsLeft(im) >= im.rgroup)
  {
    if im.total == 1 || RowsLeft(im) >= im.rgroup {
      forall g: nat | g < GroupCount(im)
        ensures SeenView(im, g) == TrueView(im, g)
      {
        SameView(im, g);
      }
    } else {
      OtherView(im);
    }
  }

  lemma {:induction false} ViewAt(im: Image, g: nat, i: nat)
    requires i < 3 * im.rgroup
    ensures |SeenView(im, g)| == |TrueView(im, g)| == 3 * im.rgroup
    ensures SeenView(im, g)[i] == SeenRow(im, g, Above(im, g) + i)
    ensures TrueView(im, g)[i] == Clamp(Above(im, g) + i, im.height)
  {
    hide Above, SeenRow, Clamp;
  }

  lemma {:induction false} SameView(im: Image, g: nat)
    requires ImageOk(im) && (im.total == 1 || RowsLeft(im) >= im.rgroup)
    ensures SeenView(im, g) == TrueView(im, g)
  {
    if LastPutOff(im, g) {
      BelowStart(im, g);
    }
    hide Above, LastPutOff, SeenView, TrueView, ImageOk;
    ViewAt(im, g, 0);
    forall i | 0 <= i < 3 * im.rgroup
      ensures SeenView(im, g)[i] == TrueView(im, g)[i]
    {
      ViewAt(im, g, i);
    }
  }

  lemma {:induction false} OtherView(im: Image)
    requires ImageOk(im) && im.total > 1 && RowsLeft(im) < im.rgroup
    ensures exists g :: 0 <= g < GroupCount(im) && SeenView(im, g) != TrueView(im, g)
  {
    MulAtLeast(im.total - 1, im.m);
    var g := (im.total - 1) * im.m - 1;
    assert LastPutOff(im, g) && g < GroupCount(im);
    BelowStart(im, g);
    hide Above, LastPutOff, SeenView, TrueView, GroupCount, RowsLeft;
    ViewAt(im, g, 3 * im.rgroup - 1);
  }

  // A picture of 17 sample rows, 16 of them in the first iMCU row: below row group 7 the second
  // row shown is not one of the picture's.
  lemma {:induction false} OneRowLeft()
    ensures var im := Image(2, 8, 2, 17);
            ImageOk(im) && SeenView(im, 7)[5] == 17 && TrueView(im, 7)[5] == 16 && SeenView(im, 7) != TrueView(im, 7)
  {
    var im := Image(2, 8, 2, 17);
    assert Span(im) == 16 && RowsLeft(im) == 1;
    ViewAt(im, 7, 5);
  }

  // The rows below the put-off row group are the first rows of the last iMCU row.
  lemma {:induction false} BelowStart(im: Image, g: nat)
    requires ImageOk(im) && LastPutOff(im, g)
    ensures Above(im, g) + 2 * im.rgroup == im.height - RowsLeft(im) && im.total >= 2 && Above(im, g) >= 0
    ensures RowsLeft(im) >= 1
  {
    Reorder(im.total - 1, im.rgroup, im.m);
    assert im.total >= 2;
    MulAtLeast(im.total - 1, im.m);
    Shift(g, im.rgroup);
  }

  lemma {:induction false} Shift(g: nat, r: nat)
    ensures (g as int - 1) * r + 2 * r == (g + 1) * r
    ensures g >= 1 ==> (g as int - 1) * r >= 0
  {
  }

  lemma {:induction false} Reorder(a: nat, r: nat, m: nat)
    ensures a * (r * m) == (a * m) * r
  {
    assert r * m == m * r;
    assert a * (m * r) == (a * m) * r;
  }

  // ------------------------------------------------------------------
  // The two lists of row pointers. Entry r + p of a list holds its offset p; offsets run from -r.

  // Where offset p of list w leads in the workspace, away from the edges of the list. In the
  // second list the last two pairs of row groups change places.
  function Phys(r: nat, h: nat, w: nat, p: int): int {
    if w == 0 || p < h - 2 * r then p else if p < h then p + 2 * r else p - 2 * r
  }

  // The same with the pointers wrapped around at both ends.
  function Offset(r: nat, h: nat, w: nat, p: int): int {
    Phys(r, h, w, if p < 0 then p + h + 2 * r else if p < h + 2 * r then p else p - h - 2 * r)
  }

  ghost predicate Based(x: seq<int>, r: nat, h: nat, w: nat) {
    |x| == h + 4 * r && forall k :: r <= k < h + 3 * r ==> x[k] == Phys(r, h, w, k - r)
  }

  // The first list at the top of the image: above its first row that row is repeated.
  ghost predicate Topped(x: seq<int>, r: nat, h: nat) {
    Based(x, r, h, 0) && forall k :: 0 <= k < r ==> x[k] == 0
  }

  // A list in the middle of the image.
  ghost predicate Normal(x: seq<int>, r: nat, h: nat, w: nat) {
    |x| == h + 4 * r && forall k :: 0 <= k < h + 4 * r ==> x[k] == Offset(r, h, w, k - r)
  }

  // A list after its last real row was repeated 2r times behind it.
  ghost predicate Bottomed(x: seq<int>, was: seq<int>, r: nat, left: nat) {
    && |x| == |was| && 1 <= left && left + 3 * r <= |x|
    && (forall k :: 0 <= k < r + left ==> x[k] == was[k])
    && (forall k :: r + left <= k < left + 3 * r ==> x[k] == was[r + left - 1])
  }

  method MakeFunnyPointers(x0: array<int>, x1: array<int>, r: nat, h: nat)
    requires x0.Length == h + 4 * r && x1.Length == h + 4 * r && x0 != x1 && 1 <= r && 2 * r <= h
    modifies x0, x1
    ensures Topped(x0[..], r, h) && Based(x1[..], r, h, 1)
  {
    for i := 0 to h + 2 * r
      invariant forall k :: r <= k < r + i ==> x0[k] == k - r && x1[k] == k - r
    {
      x0[r + i] := i;
      x1[r + i] := i;
    }
    for i := 0 to 2 * r
      invariant forall k :: r <= k < h + 3 * r ==> x0[k] == k - r
      invariant forall k :: r <= k < h - r || h - r + i <= k < h + r || h + r + i <= k < h + 3 * r ==> x1[k] == k - r
      invariant forall k :: h - r <= k < h - r + i ==> x1[k] == k + r
      invariant forall k :: h + r <= k < h + r + i ==> x1[k] == k - 3 * r
    {
      x1[r + (h - 2 * r) + i] := h + i;
      x1[r + h + i] := (h - 2 * r) + i;
    }
    for i := 0 to r
      invariant forall k :: r <= k < h + 3 * r ==> x0[k] == k - r
      invariant Based(x1[..], r, h, 1)
      invariant forall k :: 0 <= k < i ==> x0[k] == 0
    {
      x0[i] := x0[r];
    }
  }

  // A list with the pointers at its ends taken from its other end.
  function WrapAround(x: seq<int>, r: nat, h: nat): seq<int>
    requires |x| == h + 4 * r && 2 * r <= h
  {
    x[h + 2 * r..h + 3 * r] + x[r..h + 3 * r] + x[r..2 * r]
  }

  lemma {:induction false} WrapNormal(x: seq<int>, r: nat, h: nat, w: nat)
    requires 2 * r <= h && Based(x, r, h, w)
    ensures Normal(WrapAround(x, r, h), r, h, w)
  {
    var y := WrapAround(x, r, h);
    forall k | 0 <= k < h + 4 * r
      ensures y[k] == Offset(r, h, w, k - r)
    {
      if k < r {
        assert y[k] == x[h + 2 * r + k];
      } else if k < h + 3 * r {
        assert y[k] == x[k];
      } else {
        assert y[k] == x[k - h - 2 * r];
      }
    }
  }

  // The list s with i pointers at each end set.
  ghost predicate WrappedTo(x: seq<int>, s: seq<int>, r: nat, h: nat, i: nat) {
    && |x| == |s| == h + 4 * r && i <= r
    && (forall k :: 0 <= k < i ==> x[k] == s[k + h + 2 * r])
    && (forall k :: r <= k < h + 3 * r ==> x[k] == s[k])
    && (forall k :: h + 3 * r <= k < h + 3 * r + i ==> x[k] == s[k - h - 2 * r])
  }

  method WrapRow(x: array<int>, r: nat, h: nat, i: nat, ghost s: seq<int>)
    requires i < r && 2 * r <= h && WrappedTo(x[..], s, r, h, i)
    modifies x
    ensures WrappedTo(x[..], s, r, h, i + 1)
  {
    assert x[..][h + 2 * r + i] == s[i + h + 2 * r] && x[..][r + i] == s[r + i];
    x[i] := x[r + (h + r) + i];
    x[r + (h + 2 * r) + i] := x[r + i];
  }

  lemma {:induction false} WrappedWhole(x: seq<int>, s: seq<int>, r: nat, h: nat)
    requires 2 * r <= h && WrappedTo(x, s, r, h, r)
    ensures x == WrapAround(s, r, h)
  {
    var y := WrapAround(s, r, h);
    forall k | 0 <= k < |x|
      ensures x[k] == y[k]
    {
      if k < r {
        assert y[k] == s[h + 2 * r + k];
      } else if k < h + 3 * r {
        assert y[k] == s[k];
      } else {
        assert y[k] == s[k - h - 2 * r];
      }
    }
  }

  // Goes from the state at the top of the image to the normal one, in both lists.
  method SetWraparound(x0: array<int>, x1: array<int>, r: nat, h: nat)
    requires x0.Length == h + 4 * r && x1.Length == h + 4 * r && x0 != x1 && 2 * r <= h
    modifies x0, x1
    ensures x0[..] == WrapAround(old(x0[..]), r, h) && x1[..] == WrapAround(old(x1[..]), r, h)
  {
    ghost var s0, s1 := x0[..], x1[..];
    for i := 0 to r
      invariant WrappedTo(x0[..], s0, r, h, i) && WrappedTo(x1[..], s1, r, h, i)
    {
      hide WrappedTo;
      WrapRow(x0, r, h, i, s0);
      WrapRow(x1, r, h, i, s1);
    }
    WrappedWhole(x0[..], s0, r, h);
    WrappedWhole(x1[..], s1, r, h);
  }

  method SetBottom(x: array<int>, r: nat, left: nat)
    requires 1 <= left && left + 3 * r <= x.Length && 1 <= r
    modifies x
    ensures Bottomed(x[..], old(x[..]), r, left)
  {
    ghost var was := x[..];
    for i := 0 to 2 * r
      invariant forall k :: 0 <= k < r + left ==> x[k] == was[k]
      invariant forall k :: r + left <= k < r + left + i ==> x[k] == was[r + left - 1]
    {
      x[r + left + i] := x[r + left - 1];
    }
  }

  // ------------------------------------------------------------------
  // What the workspace holds. A sample row is known by its number in the decoded image.

  // The iMCU row that starts at row jh is in place for list w, and behind it, unless it is the
  // first, the last two row groups of the one before.
  ghost predicate Holds(ws: seq<int>, r: nat, h: nat, w: nat, jh: nat) {
    && |ws| == h + 2 * r && 2 * r <= h && w < 2
    && (forall p :: 0 <= p < h ==> ws[Phys(r, h, w, p)] == jh + p)
    && (jh > 0 ==> forall p :: h <= p < h + 2 * r ==> ws[Phys(r, h, w, p)] == jh - h + p - 2 * r)
  }

  // The same before the iMCU row is read.
  ghost predicate Kept(ws: seq<int>, r: nat, h: nat, w: nat, jh: nat) {
    && |ws| == h + 2 * r && 2 * r <= h && w < 2
    && (jh > 0 ==> forall p :: h <= p < h + 2 * r ==> ws[Phys(r, h, w, p)] == jh - h + p - 2 * r)
  }

  // What one list ends with is what the other keeps for the next iMCU row.
  lemma {:induction false} OtherKeeps(ws: seq<int>, r: nat, h: nat, w: nat, jh: nat)
    requires Holds(ws, r, h, w, jh)
    ensures Kept(ws, r, h, 1 - w, jh + h)
  {
    var v := 1 - w;
    forall p | h <= p < h + 2 * r
      ensures ws[Phys(r, h, v, p)] == jh + p - 2 * r
    {
      assert Phys(r, h, v, p) == Phys(r, h, w, p - 2 * r);
    }
  }

  // The decoder writes an iMCU row through a pointer list.
  method DecodeRow(ws: array<int>, x: array<int>, r: nat, h: nat, ghost w: nat, jh: nat)
    requires ws != x && x.Length == h + 4 * r && Based(x[..], r, h, w) && Kept(ws[..], r, h, w, jh)
    modifies ws
    ensures Holds(ws[..], r, h, w, jh)
  {
    ghost var list := x[..];
    for p := 0 to h
      invariant x[..] == list && Kept(ws[..], r, h, w, jh)
      invariant forall q :: 0 <= q < p ==> ws[..][Phys(r, h, w, q)] == jh + q
    {
      assert list[r + p] == Phys(r, h, w, p);
      ws[x[r + p]] := jh + p;
    }
  }

  function View(x: seq<int>, ws: seq<int>, start: nat, r: nat): seq<int>
    requires start + 3 * r <= |x| && forall k :: start <= k < start + 3 * r ==> 0 <= x[k] < |ws|
  {
    seq(3 * r, i requires 0 <= i < 3 * r => ws[x[start + i]])
  }

  // The row group at counter c shows what row group g of the image should show.
  ghost predicate Visible(x: seq<int>, ws: seq<int>, im: Image, c: nat, g: nat) {
    var start := c * im.rgroup;
    && start + 3 * im.rgroup <= |x|
    && (forall k :: start <= k < start + 3 * im.rgroup ==> 0 <= x[k] < |ws|)
    && View(x, ws, start, im.rgroup) == SeenView(im, g)
  }

  // The pointer at offset p leads to row jh + p, or to the first row above the top.
  lemma {:induction false} RowAt(x: seq<int>, ws: seq<int>, r: nat, h: nat, w: nat, jh: nat, p: int)
    requires Holds(ws, r, h, w, jh) && 1 <= r && 0 <= r + p && p < h && (jh == 0 || jh >= h)
    requires if jh == 0 then w == 0 && Topped(x, r, h) else Normal(x, r, h, w)
    ensures |x| == h + 4 * r && 0 <= x[r + p] < |ws| && ws[x[r + p]] == if jh + p < 0 then 0 else jh + p
  {
    var k := r + p;
    if jh == 0 {
      if p < 0 {
        assert x[k] == 0 == Phys(r, h, 0, 0);
      } else {
        assert x[k] == Phys(r, h, 0, p);
      }
    } else {
      assert x[k] == Offset(r, h, w, k - r);
      if p < 0 {
        assert x[k] == Phys(r, h, w, p + h + 2 * r);
      } else {
        assert x[k] == Phys(r, h, w, p);
      }
    }
  }

  // Behind the current iMCU row the list shows the end of the one before and the start of this one.
  lemma {:induction false} PutOffRowAt(x: seq<int>, ws: seq<int>, r: nat, h: nat, w: nat, jh: nat, p: int)
    requires Holds(ws, r, h, w, jh) && 1 <= r && h <= p < h + 3 * r && jh >= h && Normal(x, r, h, w)
    ensures 0 <= x[r + p] < |ws| && ws[x[r + p]] == jh - h + p - 2 * r
  {
    var k := r + p;
    assert x[k] == Offset(r, h, w, k - r);
    if p < h + 2 * r {
      assert x[k] == Phys(r, h, w, p);
    } else {
      assert x[k] == Phys(r, h, w, p - h - 2 * r);
    }
  }

  // The rows a view should show, one by one.
  ghost predicate RowsRight(x: seq<int>, ws: seq<int>, im: Image, g: nat, start: nat) {
    start + 3 * im.rgroup <= |x|
    && forall k :: start <= k < start + 3 * im.rgroup ==>
         0 <= x[k] < |ws| && ws[x[k]] == SeenRow(im, g, Above(im, g) + k - start)
  }

  // A view is right when every row of it is.
  lemma {:induction false} ViewRight(x: seq<int>, ws: seq<int>, im: Image, c: nat, g: nat, start: nat)
    requires start == c * im.rgroup && RowsRight(x, ws, im, g, start)
    ensures Visible(x, ws, im, c, g)
  {
    hide SeenRow, Above;
    var v := View(x, ws, start, im.rgroup);
    forall i | 0 <= i < 3 * im.rgroup
      ensures v[i] == SeenView(im, g)[i]
    {
      ViewAt(im, g, i);
      assert x[start + i] == x[start + i];
    }
    if im.rgroup > 0 {
      ViewAt(im, g, 0);
    }
    assert v == SeenView(im, g);
  }

  // ------------------------------------------------------------------
  // Which row groups a list shows

  // Where iMCU row j starts, in rows.
  function Base(im: Image, j: nat): nat {
    j * Span(im)
  }

  lemma {:induction false} Bases(im: Image, j: nat)
    requires ImageOk(im) && j < im.total
    ensures Span(im) >= 2 * im.rgroup && Base(im, j + 1) == Base(im, j) + Span(im)
    ensures (j == 0 ==> Base(im, j) == 0) && (j > 0 ==> Base(im, j) >= Span(im))
    ensures j + 1 < im.total ==> Base(im, j) + Span(im) < im.height
    ensures j + 1 == im.total ==> Base(im, j) + RowsLeft(im) == im.height
  {
    MulAtLeast2(im.m, im.rgroup);
    if j > 0 {
      MulAtLeast(j, Span(im));
    }
    if j + 1 < im.total {
      MulMono(j + 1, im.total - 1, Span(im));
    }
  }

  lemma {:induction false} MulAtLeast2(m: nat, r: nat)
    requires m >= 2
    ensures r * m >= 2 * r
  {
  }

  lemma {:induction false} MulMono(a: nat, b: nat, h: nat)
    requires a <= b
    ensures a * h <= b * h
  {
    assert (b - a) * h >= 0;
    assert (b - a) * h == b * h - a * h;
  }

  // Row group c of iMCU row j, counted over the image.
  lemma {:induction false} GroupStart(im: Image, j: nat, c: nat)
    ensures Above(im, First(im, j) + c) == Base(im, j) + c * im.rgroup - im.rgroup
  {
    Reorder(j, im.rgroup, im.m);
    var g := j * im.m + c;
    assert g * im.rgroup == (j * im.m) * im.rgroup + c * im.rgroup;
    assert (g as int - 1) * im.rgroup == g * im.rgroup - im.rgroup;
  }

  // No group but the last of an iMCU row is put off.
  lemma {:induction false} NotPutOff(im: Image, j: nat, c: nat)
    requires ImageOk(im) && j < im.total && (c + 1 < im.m || j + 1 == im.total)
    ensures !LastPutOff(im, First(im, j) + c)
  {
    if j + 1 == im.total {
    } else {
      MulMono(j + 1, im.total - 1, im.m);
      assert (j + 1) * im.m == j * im.m + im.m;
    }
  }

  // The lists that are in use for iMCU row j.
  ghost predicate ListFor(x: seq<int>, r: nat, h: nat, w: nat, j: nat) {
    if j == 0 then w == 0 && Topped(x, r, h) else Normal(x, r, h, w)
  }

  lemma {:induction false} CounterRows(c: nat, e: nat, r: nat)
    requires c + 1 <= e
    ensures c * r + r <= e * r
  {
    MulMono(c + 1, e, r);
    assert (c + 1) * r == c * r + r;
  }

  lemma {:induction false} MiddleRows(im: Image, x: seq<int>, ws: seq<int>, w: nat, h: nat, jh: nat, g: nat, start: nat, first: bool)
    requires im.rgroup >= 1 && Holds(ws, im.rgroup, h, w, jh) && (jh == 0 || jh >= h) && first == (jh == 0)
    requires if first then w == 0 && Topped(x, im.rgroup, h) else Normal(x, im.rgroup, h, w)
    requires start + 2 * im.rgroup <= h && Above(im, g) == jh + start - im.rgroup && !LastPutOff(im, g)
    requires jh + h <= im.height
    ensures RowsRight(x, ws, im, g, start)
  {
    hide Holds, Normal, Topped, Above, LastPutOff;
    RowAt(x, ws, im.rgroup, h, w, jh, 0);
    forall k | start <= k < start + 3 * im.rgroup
      ensures 0 <= x[k] < |ws| && ws[x[k]] == SeenRow(im, g, Above(im, g) + k - start)
    {
      RowAt(x, ws, im.rgroup, h, w, jh, k - im.rgroup);
    }
  }

  // At the bottom the rows behind the last real one repeat it.
  lemma {:induction false} LastRowsShown(im: Image, x: seq<int>, was: seq<int>, ws: seq<int>, w: nat, h: nat, jh: nat,
                                         g: nat, start: nat, left: nat, first: bool)
    requires im.rgroup >= 1 && Holds(ws, im.rgroup, h, w, jh) && (jh == 0 || jh >= h) && first == (jh == 0)
    requires if first then w == 0 && Topped(was, im.rgroup, h) else Normal(was, im.rgroup, h, w)
    requires Bottomed(x, was, im.rgroup, left) && left <= h && jh + left == im.height
    requires start < left && Above(im, g) == jh + start - im.rgroup && !LastPutOff(im, g)
    ensures RowsRight(x, ws, im, g, start)
  {
    hide Holds, Normal, Topped, Above, LastPutOff;
    var r := im.rgroup;
    RowAt(was, ws, r, h, w, jh, left - 1);
    forall k | start <= k < start + 3 * r
      ensures 0 <= x[k] < |ws| && ws[x[k]] == SeenRow(im, g, Above(im, g) + k - start)
    {
      if k < r + left {
        assert x[k] == was[k];
        RowAt(was, ws, r, h, w, jh, k - r);
      } else {
        assert x[k] == was[r + left - 1];
      }
    }
  }

  // The row group that was put off, in the list of the next iMCU row.
  lemma {:induction false} PutOffRows(im: Image, x: seq<int>, ws: seq<int>, w: nat, h: nat, jh: nat, g: nat, start: nat)
    requires im.rgroup >= 1 && Holds(ws, im.rgroup, h, w, jh) && jh >= h && Normal(x, im.rgroup, h, w)
    requires start == h + im.rgroup && Above(im, g) == jh - 2 * im.rgroup
    requires LastPutOff(im, g) || jh + h <= im.height
    ensures RowsRight(x, ws, im, g, start)
  {
    hide Above, LastPutOff;
    assert |x| == h + 4 * im.rgroup && 2 * im.rgroup <= h;
    hide Holds, Normal;
    forall k | start <= k < start + 3 * im.rgroup
      ensures 0 <= x[k] < |ws| && ws[x[k]] == SeenRow(im, g, Above(im, g) + k - start)
    {
      PutOffRowAt(x, ws, im.rgroup, h, w, jh, k - im.rgroup);
    }
  }

  // Before the bottom, all row groups of an iMCU row but its last are visible.
  lemma {:induction false} MiddleVisible(im: Image, x: seq<int>, ws: seq<int>, w: nat, j: nat, c: nat)
    requires ImageOk(im) && j + 1 < im.total && c + 1 < im.m
    requires Holds(ws, im.rgroup, Span(im), w, Base(im, j)) && ListFor(x, im.rgroup, Span(im), w, j)
    ensures Visible(x, ws, im, c, First(im, j) + c)
  {
    Bases(im, j);
    GroupStart(im, j, c);
    NotPutOff(im, j, c);
    GroupInside(im, c);
    hide Holds, Normal, Topped, Above, LastPutOff, Span, Base, RowsLeft, First, Visible, RowsRight;
    MiddleRows(im, x, ws, w, Span(im), Base(im, j), First(im, j) + c, c * im.rgroup, j == 0);
    ViewRight(x, ws, im, c, First(im, j) + c, c * im.rgroup);
  }

  lemma {:induction false} GroupInside(im: Image, c: nat)
    requires c + 1 < im.m
    ensures c * im.rgroup + 2 * im.rgroup <= Span(im)
  {
    CounterRows(c, im.m - 1, im.rgroup);
    CounterRows(im.m - 1, im.m, im.rgroup);
  }

  lemma {:induction false} BottomPlace(im: Image, c: nat)
    requires ImageOk(im) && c < Groups(RowsLeft(im), im.rgroup)
    ensures var j := im.total - 1; var g := First(im, j) + c;
            && 1 <= RowsLeft(im) <= Span(im) && Base(im, j) + RowsLeft(im) == im.height
            && (j == 0 <==> Base(im, j) == 0) && (j > 0 ==> Base(im, j) >= Span(im))
            && c * im.rgroup < RowsLeft(im)
            && Above(im, g) == Base(im, j) + c * im.rgroup - im.rgroup && !LastPutOff(im, g)
  {
    var j := im.total - 1;
    Bases(im, j);
    GroupStart(im, j, c);
    NotPutOff(im, j, c);
    hide Base, Above, LastPutOff, First;
    StartsBefore(RowsLeft(im), im.rgroup, c);
  }

  // At the bottom all row groups with real rows are visible.
  lemma {:induction false} BottomVisible(im: Image, x: seq<int>, was: seq<int>, ws: seq<int>, w: nat, c: nat)
    requires ImageOk(im) && c < Groups(RowsLeft(im), im.rgroup)
    requires Holds(ws, im.rgroup, Span(im), w, Base(im, im.total - 1))
    requires ListFor(was, im.rgroup, Span(im), w, im.total - 1) && Bottomed(x, was, im.rgroup, RowsLeft(im))
    ensures Visible(x, ws, im, c, First(im, im.total - 1) + c)
  {
    var j := im.total - 1;
    BottomPlace(im, c);
    assert im.rgroup >= 1;
    hide Holds, Normal, Topped, Bottomed, Above, LastPutOff, Span, Base, RowsLeft, Groups, First, Visible, RowsRight, ImageOk;
    LastRowsShown(im, x, was, ws, w, Span(im), Base(im, j), First(im, j) + c, c * im.rgroup, RowsLeft(im), j == 0);
    ViewRight(x, ws, im, c, First(im, j) + c, c * im.rgroup);
  }

  lemma {:induction false} StartsBefore(rows: nat, r: nat, c: nat)
    requires rows >= 1 && r >= 1 && c < Groups(rows, r)
    ensures c * r < rows
  {
    MulMono(c, (rows - 1) / r, r);
    DivBounds(rows - 1, r);
  }

  lemma {:induction false} PutOffPlace(im: Image, j: nat)
    requires ImageOk(im) && 1 <= j < im.total
    ensures First(im, j) >= 1 && (im.m + 1) * im.rgroup == Span(im) + im.rgroup
    ensures Base(im, j) >= Span(im) && Above(im, First(im, j) - 1) == Base(im, j) - 2 * im.rgroup
    ensures LastPutOff(im, First(im, j) - 1) || Base(im, j) + Span(im) <= im.height
  {
    Bases(im, j);
    MulAtLeast(j, im.m);
    NextGroup(im.m, im.rgroup);
    GroupStart(im, j, 0);
    Shift(First(im, j), im.rgroup);
    PreviousGroup(First(im, j), im.rgroup);
  }

  lemma {:induction false} NextGroup(m: nat, r: nat)
    ensures (m + 1) * r == r * m + r
  {
  }

  lemma {:induction false} PreviousGroup(g: nat, r: nat)
    requires g >= 1
    ensures (g as int - 2) * r == (g as int - 1) * r - r
  {
  }

  // The put-off row group is visible once the next iMCU row is there.
  lemma {:induction false} PutOffVisible(im: Image, x: seq<int>, ws: seq<int>, w: nat, j: nat)
    requires ImageOk(im) && 1 <= j < im.total
    requires Holds(ws, im.rgroup, Span(im), w, Base(im, j)) && Normal(x, im.rgroup, Span(im), w)
    ensures First(im, j) >= 1 && Visible(x, ws, im, im.m + 1, First(im, j) - 1)
  {
    PutOffPlace(im, j);
    assert im.rgroup >= 1;
    hide Holds, Normal, Above, LastPutOff, Span, Base, First, Visible, RowsRight, ImageOk;
    PutOffRows(im, x, ws, w, Span(im), Base(im, j), First(im, j) - 1, (im.m + 1) * im.rgroup);
    ViewRight(x, ws, im, im.m + 1, First(im, j) - 1, (im.m + 1) * im.rgroup);
  }

  // ------------------------------------------------------------------
  // The controller

  // The row groups handed over so far, in image order.
  ghost predicate Delivered(im: Image, out: seq<seq<int>>) {
    forall g :: 0 <= g < |out| ==> out[g] == SeenView(im, g)
  }

  // Row groups ctr..avail of the list are the next ones of the image, from g on.
  ghost predicate Shows(x: seq<int>, ws: seq<int>, im: Image, ctr: nat, avail: nat, g: nat) {
    forall c, k :: ctr <= c < avail && k == g + c - ctr ==> Visible(x, ws, im, c, k)
  }

  // How many row groups of iMCU row j are processed before the next one is read.
  function Ready(im: Image, j: nat): (n: nat)
    requires ImageOk(im)
    ensures n >= 1
  {
    if j + 1 == im.total then Groups(RowsLeft(im), im.rgroup) else im.m - 1
  }

  class Controller {
    const im: Image
    const ws: array<int>
    const x0: array<int>
    const x1: array<int>
    var whichptr: nat
    var state: State
    var bufferFull: bool
    var rowgroupCtr: nat
    var rowgroupsAvail: nat
    var imcuRowCtr: nat
    // What the postprocessor has taken: for every row group the rows it could see.
    var out: seq<seq<int>>

    ghost predicate Shape()
      reads this
    {
      && ImageOk(im) && 2 * im.rgroup <= Span(im)
      && x0 != x1 && ws != x0 && ws != x1
      && ws.Length == Span(im) + 2 * im.rgroup
      && x0.Length == Span(im) + 4 * im.rgroup && x1.Length == Span(im) + 4 * im.rgroup
      && whichptr < 2
    }

    ghost function List(): seq<int>
      reads this, x0, x1
    {
      if whichptr == 0 then x0[..] else x1[..]
    }

    // Both lists as they are while iMCU row j is in use.
    ghost predicate Lists(j: nat)
      reads x0, x1
    {
      var r, h := im.rgroup, Span(im);
      if j == 0 then Topped(x0[..], r, h) && Based(x1[..], r, h, 1)
      else Normal(x0[..], r, h, 0) && Normal(x1[..], r, h, 1)
    }

    // iMCU row j has been read and nothing of it delivered.
    ghost predicate Loaded(j: nat)
      reads this, ws, x0, x1
    {
      && imcuRowCtr == j + 1 && j < im.total && whichptr == j % 2
      && Lists(j) && Holds(ws[..], im.rgroup, Span(im), whichptr, Base(im, j))
    }

    // Before iMCU row j is read.
    ghost predicate Awaits(j: nat)
      reads this, ws, x0, x1
    {
      && imcuRowCtr == j && whichptr == j % 2
      && (j < im.total ==> Lists(j) && Kept(ws[..], im.rgroup, Span(im), whichptr, Base(im, j)))
    }

    // The last row group of the iMCU row before is still to come.
    ghost predicate PutOff(j: nat)
      requires ImageOk(im)
      reads this
    {
      && 1 <= j && rowgroupCtr == im.m + 1 && rowgroupsAvail == im.m + 2
      && |out| + 1 == First(im, j)
    }

    // iMCU row j is being delivered.
    ghost predicate Feeding(j: nat)
      requires ImageOk(im)
      reads this, ws, x0, x1
    {
      && imcuRowCtr == j + 1 && j < im.total && whichptr == j % 2
      && rowgroupCtr <= rowgroupsAvail == Ready(im, j) && |out| == First(im, j) + rowgroupCtr
      && Shows(List(), ws[..], im, rowgroupCtr, rowgroupsAvail, |out|)
      && (j + 1 < im.total ==> Lists(j) && Holds(ws[..], im.rgroup, Span(im), whichptr, Base(im, j)))
    }

    ghost predicate Valid()
      reads this, ws, x0, x1
    {
      && Shape() && Delivered(im, out)
      && match state
         case PrepareForImcu =>
           if bufferFull then imcuRowCtr >= 1 && Loaded(imcuRowCtr - 1) && |out| == First(im, imcuRowCtr - 1)
           else imcuRowCtr == 0 && Awaits(0) && out == []
         case ProcessImcu =>
           bufferFull && imcuRowCtr >= 1 && Feeding(imcuRowCtr - 1) && rowgroupCtr < rowgroupsAvail
         case PostponedRow =>
           if bufferFull then imcuRowCtr >= 1 && Loaded(imcuRowCtr - 1) && PutOff(imcuRowCtr - 1)
           else 1 <= imcuRowCtr <= im.total && Awaits(imcuRowCtr)
                && (if imcuRowCtr < im.total then PutOff(imcuRowCtr) else |out| == GroupCount(im))
    }

    // Every row group of the image has been delivered.
    ghost predicate Finished()
      reads this
    {
      state == PostponedRow && !bufferFull && imcuRowCtr == im.total
    }

    // Until the run is over there is an iMCU row left to read whenever one is wanted.
    lemma {:induction false} Supplied()
      requires Valid() && !Finished() && !bufferFull
      ensures imcuRowCtr < im.total
    {
    }

    // No more row groups are delivered than there are, and all are exactly when the run is over.
    lemma {:induction false} Counted()
      requires Valid()
      ensures |out| <= GroupCount(im) && (Finished() <==> |out| == GroupCount(im))
    {
      if !Finished() {
        var j := if imcuRowCtr > 0 && bufferFull then imcuRowCtr - 1 else imcuRowCtr;
        MulMono(j, im.total - 1, im.m);
        if j + 1 < im.total {
          MulMono(j + 1, im.total - 1, im.m);
          FirstNext(im, j);
        }
      }
    }

    constructor (im: Image)
      requires ImageOk(im)
      ensures Valid() && this.im == im && out == [] && !Finished()
      ensures fresh(ws) && fresh(x0) && fresh(x1)
    {
      this.im := im;
      var r, h := im.rgroup, im.rgroup * im.m;
      ws := new int[h + 2 * r];
      x0 := new int[h + 4 * r];
      x1 := new int[h + 4 * r];
      whichptr := 0;
      state := PrepareForImcu;
      bufferFull := false;
      rowgroupCtr := 0;
      rowgroupsAvail := 0;
      imcuRowCtr := 0;
      out := [];
      new;
      Bases(im, 0);
      MakeFunnyPointers(x0, x1, im.rgroup, Span(im));
    }

    // The postprocessor takes up to take of the row groups on offer.
    method Feed(take: nat)
      requires Shape() && rowgroupCtr <= rowgroupsAvail && Delivered(im, out)
      requires Shows(List(), ws[..], im, rowgroupCtr, rowgroupsAvail, |out|)
      modifies this`rowgroupCtr, this`out
      ensures rowgroupCtr <= rowgroupsAvail && Delivered(im, out)
      ensures rowgroupCtr == (if old(rowgroupCtr) + take < rowgroupsAvail then old(rowgroupCtr) + take else rowgroupsAvail)
      ensures |out| == |old(out)| + (rowgroupCtr - old(rowgroupCtr)) && old(out) <= out
      ensures Shows(List(), ws[..], im, rowgroupCtr, rowgroupsAvail, |out|)
    {
      hide ImageOk, Span, Visible, SeenView;
      ghost var ctr0, out0 := rowgroupCtr, out;
      var taken := 0;
      while taken < take && rowgroupCtr < rowgroupsAvail
        invariant ctr0 <= rowgroupCtr == ctr0 + taken <= rowgroupsAvail && taken <= take
        invariant |out| == |out0| + taken && out0 <= out && Delivered(im, out)
        invariant Shows(List(), ws[..], im, rowgroupCtr, rowgroupsAvail, |out|)
      {
        assert Visible(List(), ws[..], im, rowgroupCtr, |out|);
        var view := ReadView(rowgroupCtr, |out|);
        out := out + [view];
        rowgroupCtr := rowgroupCtr + 1;
        taken := taken + 1;
      }
    }

    // The rows at a row group's place in the current list, and a row group above and below.
    method ReadView(c: nat, ghost g: nat) returns (view: seq<int>)
      requires Shape() && Visible(List(), ws[..], im, c, g)
      ensures view == SeenView(im, g)
    {
      var r, start := im.rgroup, c * im.rgroup;
      view := [];
      for i := 0 to 3 * r
        invariant view == View(List(), ws[..], start, r)[..i]
      {
        var p := if whichptr == 0 then x0[start + i] else x1[start + i];
        assert List()[start + i] == p;
        view := view + [ws[p]];
      }
    }

    // The decoder delivers the next iMCU row.
    method ReadImcuRow()
      requires Shape() && Awaits(imcuRowCtr) && imcuRowCtr < im.total
      modifies this`bufferFull, this`imcuRowCtr, ws
      ensures bufferFull && imcuRowCtr == old(imcuRowCtr) + 1 && Loaded(old(imcuRowCtr))
    {
      hide Holds, Kept, Topped, Normal, Base;
      var w := whichptr;
      ListBased(if w == 0 then x0[..] else x1[..], im.rgroup, Span(im), w, imcuRowCtr, x0[..], x1[..]);
      if w == 0 {
        DecodeRow(ws, x0, im.rgroup, Span(im), 0, Base(im, imcuRowCtr));
      } else {
        DecodeRow(ws, x1, im.rgroup, Span(im), 1, Base(im, imcuRowCtr));
      }
      bufferFull := true;
      imcuRowCtr := imcuRowCtr + 1;
    }

    // Everything but the last row group of iMCU row j is put on offer; at the bottom of the image
    // the pointers behind the last real row are changed first.
    method Prepare()
      requires Shape() && imcuRowCtr >= 1 && Loaded(imcuRowCtr - 1) && |out| == First(im, imcuRowCtr - 1)
      modifies this`rowgroupCtr, this`rowgroupsAvail, this`state, x0, x1
      ensures Shape() && Feeding(imcuRowCtr - 1) && rowgroupCtr == 0 && state == ProcessImcu
    {
      hide Holds, Topped, Normal, Based, Base, First, Visible, Span, RowsLeft, Groups;
      ghost var j := imcuRowCtr - 1;
      rowgroupCtr := 0;
      rowgroupsAvail := im.m - 1;
      if imcuRowCtr == im.total {
        var left := RowsLeft(im);
        assert left <= Span(im);
        rowgroupsAvail := Groups(left, im.rgroup);
        ghost var was := List();
        if whichptr == 0 {
          SetBottom(x0, im.rgroup, left);
        } else {
          SetBottom(x1, im.rgroup, left);
        }
        BottomShows(im, List(), was, ws[..], whichptr);
      } else {
        MiddleShows(im, List(), ws[..], whichptr, j);
      }
      state := ProcessImcu;
    }

    // Turns to the other list; the last row group of this iMCU row waits in it.
    method TurnOver()
      requires Shape() && imcuRowCtr >= 1 && Feeding(imcuRowCtr - 1) && rowgroupCtr == rowgroupsAvail
      modifies this`rowgroupCtr, this`rowgroupsAvail, this`state, this`whichptr, this`bufferFull, x0, x1
      ensures Shape() && state == PostponedRow && !bufferFull && imcuRowCtr <= im.total && Awaits(imcuRowCtr)
      ensures if imcuRowCtr < im.total then PutOff(imcuRowCtr) else |out| == GroupCount(im)
    {
      hide Holds, Kept, Topped, Normal, Based, Base, Visible, Span, First, RowsLeft, Groups, Shows;
      ghost var j := imcuRowCtr - 1;
      if imcuRowCtr == 1 {
        ghost var s0, s1 := x0[..], x1[..];
        SetWraparound(x0, x1, im.rgroup, Span(im));
        if 1 < im.total {
          ToppedBased(s0, im.rgroup, Span(im));
          WrapNormal(s0, im.rgroup, Span(im), 0);
          WrapNormal(s1, im.rgroup, Span(im), 1);
        }
      }
      if imcuRowCtr < im.total {
        OtherKeeps(ws[..], im.rgroup, Span(im), whichptr, Base(im, j));
        Bases(im, j);
        FirstNext(im, j);
      }
      whichptr := 1 - whichptr;
      bufferFull := false;
      rowgroupCtr := im.m + 1;
      rowgroupsAvail := im.m + 2;
      state := PostponedRow;
    }

    // One call of the controller. The decoder may have no data and the postprocessor may take any
    // number of row groups each time it is asked; full tells whether the caller's buffer is full
    // after the row group that was put off.
    method ProcessData(data: bool, take: nat, take2: nat, full: bool)
      requires Valid() && (data && !bufferFull ==> imcuRowCtr < im.total)
      modifies this`whichptr, this`state, this`bufferFull, this`rowgroupCtr, this`rowgroupsAvail, this`imcuRowCtr, this`out
      modifies ws, x0, x1
      ensures Valid() && old(out) <= out
      ensures (data || old(bufferFull)) && take > 0 && take2 > 0 ==> |out| > |old(out)|
      ensures !data && !old(bufferFull) ==> out == old(out) && state == old(state) && !bufferFull
    {
      hide Delivered, First, GroupCount, Holds, Kept, Lists, Span, Base, RowsLeft, Groups, Shows, ImageOk;
      FirstZero(im);
      if !bufferFull {
        if !data {
          return;
        }
        ReadImcuRow();
      }
      if state == PostponedRow {
        FeedPutOff(take);
        if rowgroupCtr < rowgroupsAvail {
          return;
        }
        state := PrepareForImcu;
        if full {
          return;
        }
      }
      if state == PrepareForImcu {
        Prepare();
      }
      Feed(take2);
      if rowgroupCtr < rowgroupsAvail {
        return;
      }
      TurnOver();
    }

    // Offers the row group that was put off; nothing else changes.
    method FeedPutOff(take: nat)
      requires Shape() && Delivered(im, out) && imcuRowCtr >= 1 && Loaded(imcuRowCtr - 1) && PutOff(imcuRowCtr - 1)
      modifies this`rowgroupCtr, this`out
      ensures Delivered(im, out) && old(out) <= out && rowgroupsAvail == im.m + 2
      ensures take == 0 ==> out == old(out) && rowgroupCtr == im.m + 1
      ensures take > 0 ==> |out| == First(im, imcuRowCtr - 1) && |out| == |old(out)| + 1 && rowgroupCtr == im.m + 2
    {
      hide Delivered, First, Holds, Span, Base, Shows, Normal, Topped, Based, Visible;
      PutOffShows(im, List(), ws[..], whichptr, imcuRowCtr - 1, |out|);
      Feed(take);
    }
  }

  lemma {:induction false} FirstZero(im: Image)
    ensures First(im, 0) == 0
  {
  }

  lemma {:induction false} PutOffShows(im: Image, x: seq<int>, ws: seq<int>, w: nat, j: nat, g: nat)
    requires ImageOk(im) && 1 <= j < im.total && g + 1 == First(im, j)
    requires Holds(ws, im.rgroup, Span(im), w, Base(im, j)) && Normal(x, im.rgroup, Span(im), w)
    ensures Shows(x, ws, im, im.m + 1, im.m + 2, g)
  {
    PutOffVisible(im, x, ws, w, j);
    hide Visible;
  }

  lemma {:induction false} ToppedBased(x: seq<int>, r: nat, h: nat)
    requires Topped(x, r, h)
    ensures Based(x, r, h, 0)
  {
  }

  lemma {:induction false} NormalBased(x: seq<int>, r: nat, h: nat, w: nat)
    requires Normal(x, r, h, w) && 2 * r <= h
    ensures Based(x, r, h, w)
  {
    forall k | r <= k < h + 3 * r
      ensures x[k] == Phys(r, h, w, k - r)
    {
      assert x[k] == Offset(r, h, w, k - r);
    }
  }

  // The list in use for iMCU row j leads to the workspace as it should.
  lemma {:induction false} ListBased(x: seq<int>, r: nat, h: nat, w: nat, j: nat, s0: seq<int>, s1: seq<int>)
    requires 2 * r <= h && w == j % 2 && x == (if w == 0 then s0 else s1)
    requires if j == 0 then Topped(s0, r, h) && Based(s1, r, h, 1) else Normal(s0, r, h, 0) && Normal(s1, r, h, 1)
    ensures Based(x, r, h, w)
  {
    if j == 0 {
      ToppedBased(s0, r, h);
    } else {
      NormalBased(s0, r, h, 0);
      NormalBased(s1, r, h, 1);
    }
  }

  lemma {:induction false} MiddleShows(im: Image, x: seq<int>, ws: seq<int>, w: nat, j: nat)
    requires ImageOk(im) && j + 1 < im.total
    requires Holds(ws, im.rgroup, Span(im), w, Base(im, j)) && ListFor(x, im.rgroup, Span(im), w, j)
    ensures Shows(x, ws, im, 0, im.m - 1, First(im, j))
  {
    hide Holds, ListFor, Base, Span, First, Visible;
    forall c, k | 0 <= c < im.m - 1 && k == First(im, j) + c - 0
      ensures Visible(x, ws, im, c, k)
    {
      MiddleVisible(im, x, ws, w, j, c);
    }
  }

  lemma {:induction false} BottomShows(im: Image, x: seq<int>, was: seq<int>, ws: seq<int>, w: nat)
    requires ImageOk(im)
    requires Holds(ws, im.rgroup, Span(im), w, Base(im, im.total - 1))
    requires ListFor(was, im.rgroup, Span(im), w, im.total - 1) && Bottomed(x, was, im.rgroup, RowsLeft(im))
    ensures Shows(x, ws, im, 0, Groups(RowsLeft(im), im.rgroup), First(im, im.total - 1))
  {
    hide Holds, ListFor, Base, Span, First, Visible, RowsLeft, Groups, Bottomed;
    forall c, k | 0 <= c < Groups(RowsLeft(im), im.rgroup) && k == First(im, im.total - 1) + c - 0
      ensures Visible(x, ws, im, c, k)
    {
      BottomVisible(im, x, was, ws, w, c);
    }
  }

  lemma {:induction false} FirstNext(im: Image, j: nat)
    ensures First(im, j + 1) == First(im, j) + im.m
  {
  }

  // ------------------------------------------------------------------
  // Whole runs

  // What meets one call of the controller.
  datatype Call = Call(data: bool, take: nat, take2: nat, full: bool)

  // The calls in which data is at hand and the postprocessor takes something when asked.
  function Eager(calls: seq<Call>): nat {
    if |calls| == 0 then 0
    else Eager(calls[..|calls| - 1])
         + (if calls[|calls| - 1].data && calls[|calls| - 1].take > 0 && calls[|calls| - 1].take2 > 0 then 1 else 0)
  }

  // Row x of the picture is where the middle of its row group is.
  ghost predicate AtPlace(out: seq<seq<int>>, r: nat, x: nat)
    requires r > 0 && 0 <= x / r < |out|
  {
    0 <= r + x % r < |out[x / r]| && out[x / r][r + x % r] == x
  }

  lemma {:induction false} RowsShown(im: Image, out: seq<seq<int>>, eager: nat)
    requires ImageOk(im) && Delivered(im, out) && |out| <= GroupCount(im)
    ensures (|out| as int - 1) * im.rgroup < im.height
    ensures |out| == GroupCount(im) <==> im.height <= |out| * im.rgroup
    ensures eager >= GroupCount(im) <==> eager * im.rgroup >= im.height
    ensures forall x :: 0 <= x < im.height && 0 <= x / im.rgroup < |out| ==> AtPlace(out, im.rgroup, x)
    ensures |out| == GroupCount(im) ==> forall x :: 0 <= x < im.height ==> 0 <= x / im.rgroup < |out|
  {
    EnoughGroups(im, |out|);
    EnoughGroups(im, eager);
    if |out| > 0 {
      EnoughGroups(im, |out| - 1);
    }
    assert im.rgroup > 0;
    hide ImageOk, GroupCount, SeenView;
    forall x | 0 <= x < im.height && 0 <= x / im.rgroup < |out|
      ensures AtPlace(out, im.rgroup, x)
    {
      RowShown(im, x);
      ViewAt(im, x / im.rgroup, im.rgroup + x % im.rgroup);
    }
    if |out| == GroupCount(im) {
      forall x | 0 <= x < im.height
        ensures 0 <= x / im.rgroup < |out|
      {
        DivLess(x, im.height, |out|, im.rgroup);
      }
    }
  }

  lemma {:induction false} DivLess(x: nat, height: nat, n: nat, r: nat)
    requires r > 0 && x < height <= n * r
    ensures 0 <= x / r < n
  {
    DivBounds(x, r);
    if x / r >= n {
      MulMono(n, x / r, r);
    }
  }

  // Whatever meets the calls of a run, the row groups come out in image order, each once and with
  // the rows it should show; as many eager calls as there are row groups finish the image. A finished run has just
  // enough row groups to hold the picture, and every row of it in its place.
  method DecodePass(im: Image, calls: seq<Call>) returns (out: seq<seq<int>>, finished: bool)
    requires ImageOk(im)
    ensures Delivered(im, out) && |out| <= GroupCount(im) && (finished <==> |out| == GroupCount(im))
    ensures Eager(calls) >= GroupCount(im) ==> finished
    ensures (|out| as int - 1) * im.rgroup < im.height && (finished <==> im.height <= |out| * im.rgroup)
    ensures Eager(calls) * im.rgroup >= im.height ==> finished
    ensures forall x :: 0 <= x < im.height && 0 <= x / im.rgroup < |out| ==> AtPlace(out, im.rgroup, x)
    ensures finished ==> forall x :: 0 <= x < im.height ==> 0 <= x / im.rgroup < |out| && AtPlace(out, im.rgroup, x)
    ensures im.total == 1 || RowsLeft(im) >= im.rgroup ==>
              forall g :: 0 <= g < |out| ==> out[g] == TrueView(im, g)
  {
    hide ImageOk, GroupCount, SeenView, TrueView, RowsLeft;
    var c := new Controller(im);
    c.Counted();
    for i := 0 to |calls|
      invariant c.im == im && c.Valid() && fresh(c) && fresh(c.ws) && fresh(c.x0) && fresh(c.x1)
      invariant |c.out| <= GroupCount(im) && (c.Finished() <==> |c.out| == GroupCount(im))
      invariant |c.out| >= (if Eager(calls[..i]) < GroupCount(im) then Eager(calls[..i]) else GroupCount(im))
    {
      hide Controller.Valid;
      assert calls[..i + 1][..i] == calls[..i];
      var done := c.state == PostponedRow && !c.bufferFull && c.imcuRowCtr == c.im.total;
      if !done {
        var data := calls[i].data;
        if !c.bufferFull {
          c.Supplied();
        }
        c.ProcessData(data, calls[i].take, calls[i].take2, calls[i].full);
        c.Counted();
      }
    }
    assert calls[..|calls|] == calls;
    out := c.out;
    finished := c.state == PostponedRow && !c.bufferFull && c.imcuRowCtr == c.im.total;
    RowsShown(im, out, Eager(calls));
    if im.total == 1 || RowsLeft(im) >= im.rgroup {
      TrueNeighbours(im);
    }
  }
}
