// Dump files as a whole (3rd/ANN/kd_dump.cpp): header, points, bounding box and tree.
module TreeFile {
  import BoundLists
  import opened Geometry
  import opened SpatialTrees
  import opened TreeDump

  // ------------------------------------------------------------------
  // Writing

  // The lines of the points from i on: index, then coordinates.
  function PointLines(pts: seq<Point>, i: nat): seq<Token>
    requires i <= |pts|
    decreases |pts| - i
  {
    if i == |pts| then [] else [Int(i)] + (Reals(pts[i]) + PointLines(pts, i + 1))
  }

  // The nodes, or the word null where there is no root.
  function RootTokens(root: Option<Node>): seq<Token> {
    if root.Some? then Dumped(root.value) else [Word("null")]
  }

  function TreeSection(dim: nat, n: nat, bs: nat, box: Box, root: Option<Node>): seq<Token> {
    [Word("tree")] + ([Int(dim)] + ([Int(n)] + ([Int(bs)] + (Reals(box.lo) + (Reals(box.hi) + RootTokens(root))))))
  }

  function PointSection(dim: nat, pts: seq<Point>): seq<Token> {
    [Word("points")] + ([Int(dim)] + ([Int(|pts|)] + PointLines(pts, 0)))
  }

  // The dump of a tree, with or without its points.
  function FileTokens(t: Tree, version: string, withPts: bool): seq<Token> {
    [Word("#ANN")] + ([Word(version)]
      + ((if withPts then PointSection(t.dim, t.pts) else [])
         + TreeSection(t.dim, |t.pts|, t.bktSize, t.box, t.root)))
  }

  method PutPoints(out: Writer, pts: seq<Point>)
    modifies out
    ensures out.text == old(out.text) + PointLines(pts, 0)
  {
    ghost var all := out.text + PointLines(pts, 0);
    for i := 0 to |pts|
      invariant out.text + PointLines(pts, i) == all
    {
      ghost var before := out.text;
      out.Put(Int(i));
      PutReals(out, pts[i]);
      Assoc(before + [Int(i)], Reals(pts[i]), PointLines(pts, i + 1));
      Assoc(before, [Int(i)], Reals(pts[i]) + PointLines(pts, i + 1));
    }
    assert out.text + [] == out.text;
  }

  method PutTreeSection(out: Writer, dim: nat, n: nat, bs: nat, box: Box, root: Option<Node>)
    returns (ok: bool)
    modifies out
    ensures ok <==> BoxOf(box, dim)
    ensures ok ==> out.text == old(out.text) + TreeSection(dim, n, bs, box, root)
  {
    hide Reals, Dumped, RootTokens;
    ghost var start := out.text;
    out.Put(Word("tree"));
    out.Put(Int(dim));
    out.Put(Int(n));
    out.Put(Int(bs));
    ghost var front := [Word("tree"), Int(dim), Int(n), Int(bs)];
    assert out.text == start + front;
    ok := |box.lo| == dim && |box.hi| == dim;
    if ok {
      PutReals(out, box.lo);
      PutReals(out, box.hi);
      PutRoot(out, root);
      Assoc4(start, front, Reals(box.lo), Reals(box.hi), RootTokens(root));
      FrontOfTree(dim, n, bs, Reals(box.lo) + (Reals(box.hi) + RootTokens(root)));
    }
  }

  method PutRoot(out: Writer, root: Option<Node>)
    modifies out
    ensures out.text == old(out.text) + RootTokens(root)
  {
    match root
    case None => out.Put(Word("null"));
    case Some(t) => DumpNode(out, t);
  }

  lemma {:induction false} FrontOfTree(dim: nat, n: nat, bs: nat, x: seq<Token>)
    ensures [Word("tree"), Int(dim), Int(n), Int(bs)] + x == [Word("tree")] + ([Int(dim)] + ([Int(n)] + ([Int(bs)] + x)))
  {
  }

  method PutPointSection(out: Writer, dim: nat, pts: seq<Point>)
    modifies out
    ensures out.text == old(out.text) + PointSection(dim, pts)
  {
    hide PointLines;
    ghost var start := out.text;
    out.Put(Word("points"));
    out.Put(Int(dim));
    out.Put(Int(|pts|));
    PutPoints(out, pts);
    Assoc(start, [Word("points"), Int(dim), Int(|pts|)], PointLines(pts, 0));
    FrontOfPoints(dim, |pts|, PointLines(pts, 0));
  }

  lemma {:induction false} FrontOfPoints(dim: nat, n: nat, x: seq<Token>)
    ensures [Word("points"), Int(dim), Int(n)] + x == [Word("points")] + ([Int(dim)] + ([Int(n)] + x))
  {
  }

  // Dumps a tree, with or without a root. It fails for a tree without a bounding box, such as the builders
  // leave where there are no points; in dimension 0 there is nothing of the box to print.
  method Dump(out: Writer, t: Tree, version: string, withPts: bool) returns (ok: bool)
    modifies out
    ensures ok <==> BoxOf(t.box, t.dim)
    ensures ok ==> out.text == old(out.text) + FileTokens(t, version, withPts)
  {
    hide PointSection, TreeSection;
    ghost var start := out.text;
    out.Put(Word("#ANN"));
    out.Put(Word(version));
    ghost var head := [Word("#ANN"), Word(version)];
    assert out.text == start + head;
    if withPts {
      PutPointSection(out, t.dim, t.pts);
    }
    ghost var points := if withPts then PointSection(t.dim, t.pts) else [];
    assert out.text == (start + head) + points;
    ok := PutTreeSection(out, t.dim, |t.pts|, t.bktSize, t.box, t.root);
    ghost var tree := TreeSection(t.dim, |t.pts|, t.bktSize, t.box, t.root);
    Assoc(start + head, points, tree);
    Assoc(start, head, points + tree);
    assert head + (points + tree) == [Word("#ANN")] + ([Word(version)] + (points + tree));
  }

  // ------------------------------------------------------------------
  // Reading; each reader is told what the input is expected to go on with

  method WordIs(r: Reader, ghost want: string, ghost tail: seq<Token>) returns (x: Option<string>)
    requires r.Valid()
    modifies r
    ensures r.Valid()
    ensures old(r.Rest()) == [Word(want)] + tail ==> x == Some(want) && r.Rest() == tail
  {
    ghost var all := r.Rest();
    x := r.NextWord();
    if x.Some? && all == [Word(want)] + tail {
      SameFront([Word(x.value)], [Word(want)], r.Rest(), tail);
      assert [Word(x.value)][0] == [Word(want)][0];
    }
  }

  method NatIs(r: Reader, ghost want: nat, ghost tail: seq<Token>) returns (x: Option<nat>)
    requires r.Valid()
    modifies r
    ensures r.Valid()
    ensures old(r.Rest()) == [Int(want)] + tail ==> x == Some(want) && r.Rest() == tail
  {
    ghost var all := r.Rest();
    x := None;
    var i := r.NextInt();
    if i.Some? {
      if all == [Int(want)] + tail {
        SameFront([Int(i.value)], [Int(want)], r.Rest(), tail);
        assert [Int(i.value)][0] == [Int(want)][0];
      }
      if i.value >= 0 {
        x := Some(i.value);
      }
    }
  }

  // Reads the point lines into an array of points by their indices.
  method ReadPoints(r: Reader, dim: nat, n: nat, ghost want: seq<Point>, ghost tail: seq<Token>)
    returns (e: Option<Error>, pts: seq<Point>)
    requires r.Valid()
    modifies r
    ensures r.Valid() && (e.None? ==> |pts| == n)
    ensures |want| == n && Points(want, dim) && old(r.Rest()) == PointLines(want, 0) + tail ==>
              e == None && pts == want && r.Rest() == tail
  {
    hide PointLines, Reals;
    ghost var good := |want| == n && Points(want, dim) && r.Rest() == PointLines(want, 0) + tail;
    var a := new Point[n];
    for i := 0 to n
      invariant r.Valid() && fresh(a) && a.Length == n
      invariant good ==> a[..i] == want[..i] && r.Rest() == PointLines(want, i) + tail
    {
      ghost var w, after := [], tail;
      if good {
        NextLine(want, i, tail);
        w, after := want[i], PointLines(want, i + 1) + tail;
      }
      var idx := NatIs(r, i, Reals(w) + after);
      if idx.None? {
        return Some(Unreadable), [];
      }
      if idx.value >= n {
        return Some(PointOutOfRange), [];
      }
      var p := ReadReals(r, dim, w, after);
      if p.None? {
        return Some(Unreadable), [];
      }
      a[idx.value] := p.value;
    }
    pts := a[..];
    e := None;
    if good {
      NoLines(want);
      assert pts == a[..n] == want[..n] == want;
      assert [] + tail == tail;
    }
  }

  lemma {:induction false} NextLine(pts: seq<Point>, i: nat, tail: seq<Token>)
    requires i < |pts|
    ensures PointLines(pts, i) + tail == [Int(i)] + (Reals(pts[i]) + (PointLines(pts, i + 1) + tail))
  {
    Assoc([Int(i)], Reals(pts[i]) + PointLines(pts, i + 1), tail);
    Assoc(Reals(pts[i]), PointLines(pts, i + 1), tail);
  }

  lemma {:induction false} NoLines(pts: seq<Point>)
    ensures PointLines(pts, |pts|) == []
  {
  }

  // The points section up to its last point.
  method ReadPointSection(r: Reader, ghost dim: nat, ghost want: seq<Point>, ghost tail: seq<Token>)
    returns (e: Option<Error>, pts: seq<Point>)
    requires r.Valid()
    modifies r
    ensures r.Valid()
    ensures Points(want, dim) && old(r.Rest()) == PointSection(dim, want) + tail ==> e == None && pts == want && r.Rest() == tail
    ensures old(r.Rest()) == [Word("tree")] + tail ==> e == Some(NoPoints)
  {
    ghost var good := Points(want, dim) && r.Rest() == PointSection(dim, want) + tail;
    ghost var lines := PointLines(want, 0) + tail;
    pts := [];
    ghost var bare := r.Rest() == [Word("tree")] + tail;
    if good {
      PointStream(dim, want, tail);
    }
    hide PointLines, PointSection;
    var w := WordIs(r, if bare then "tree" else "points", if bare then tail else [Int(dim)] + ([Int(|want|)] + lines));
    if w.None? {
      return Some(Unreadable), pts;
    }
    if w.value != "points" {
      return Some(NoPoints), pts;
    }
    var d := NatIs(r, dim, [Int(|want|)] + lines);
    if d.None? {
      return Some(Unreadable), pts;
    }
    var n := NatIs(r, |want|, lines);
    if n.None? {
      return Some(Unreadable), pts;
    }
    e, pts := ReadPoints(r, d.value, n.value, want, tail);
  }

  lemma {:induction false} PointStream(dim: nat, pts: seq<Point>, tail: seq<Token>)
    ensures PointSection(dim, pts) + tail == [Word("points")] + ([Int(dim)] + ([Int(|pts|)] + (PointLines(pts, 0) + tail)))
  {
    hide PointLines;
    Assoc([Word("points")], [Int(dim)] + ([Int(|pts|)] + PointLines(pts, 0)), tail);
    Assoc([Int(dim)], [Int(|pts|)] + PointLines(pts, 0), tail);
    Assoc([Int(|pts|)], PointLines(pts, 0), tail);
  }

  // The tree section; its counts replace those of the points section. The index array is filled
  // from the leaves; the program warns when it has not seen as many indices as there are points.
  method ReadTreeSection(r: Reader, bd: bool, pts: seq<Point>, ghost want: Tree, ghost tail: seq<Token>)
    returns (t: Outcome<Tree>, pidx: array<int>, seen: nat)
    requires r.Valid()
    modifies r
    ensures r.Valid() && fresh(pidx)
    ensures Fits(want, bd) && pts == want.pts
            && old(r.Rest()) == TreeSection(want.dim, |want.pts|, want.bktSize, want.box, want.root) + tail ==>
              t == Done(want) && r.Rest() == tail && Filled(want, pidx[..], seen)
  {
    hide Dumped, Buckets, Reals;
    ghost var good := Fits(want, bd) && pts == want.pts
      && r.Rest() == TreeSection(want.dim, |want.pts|, want.bktSize, want.box, want.root) + tail;
    ghost var root := if want.root.Some? then want.root.value else TRIVIAL;
    ghost var x4 := RootTokens(want.root) + tail;
    ghost var x3 := Reals(want.box.hi) + x4;
    ghost var x2 := Reals(want.box.lo) + x3;
    if good {
      TreeStream(want.dim, |want.pts|, want.bktSize, want.box, want.root, tail);
    }
    hide TreeSection;
    pidx := new int[0];
    seen := 0;
    t := Failed(Unreadable);
    var w := WordIs(r, "tree", [Int(want.dim)] + ([Int(|want.pts|)] + ([Int(want.bktSize)] + x2)));
    if w.None? {
      return;
    }
    if w.value != "tree" {
      t := Failed(NoTreeSection);
      return;
    }
    var dim := NatIs(r, want.dim, [Int(|want.pts|)] + ([Int(want.bktSize)] + x2));
    var n := NatIs(r, |want.pts|, [Int(want.bktSize)] + x2);
    var bs := NatIs(r, want.bktSize, x2);
    if dim.None? || n.None? || bs.None? {
      return;
    }
    var lo := ReadReals(r, dim.value, want.box.lo, x3);
    var hi := ReadReals(r, dim.value, want.box.hi, x4);
    if lo.None? || hi.None? {
      return;
    }
    pidx := new int[n.value];
    ghost var before := r.Rest();
    var node;
    node, seen := ReadTree(r, bd, pidx, 0, root, tail);
    match node
    case Failed(e) => t := Failed(e);
    case NullTree => t := Done(Tree(dim.value, pts, bs.value, Box(lo.value, hi.value), None));
    case Done(x) => t := Done(Tree(dim.value, pts, bs.value, Box(lo.value, hi.value), Some(x)));
    if good && want.root.Some? {
      assert [] + Buckets(root) == Buckets(root);
      assert pidx[..seen] == pidx[..];
    }
  }

  // The index array of a loaded tree and the number of indices seen: the buckets in preorder, or nothing.
  ghost predicate Filled(t: Tree, pidx: seq<int>, seen: nat) {
    && |pidx| == |t.pts|
    && if t.root.Some? then pidx == Buckets(t.root.value) && seen == |t.pts| else seen == 0
  }

  // A tree that its own dump describes: the box has the right dimension and the buckets, if there are any,
  // hold as many indices as there are points.
  ghost predicate Fits(t: Tree, bd: bool) {
    && Points(t.pts, t.dim) && BoxOf(t.box, t.dim)
    && (t.root.Some? ==> Allowed(t.root.value, bd) && |Buckets(t.root.value)| == |t.pts|)
  }

  lemma {:induction false} TreeStream(dim: nat, n: nat, bs: nat, box: Box, root: Option<Node>, tail: seq<Token>)
    ensures TreeSection(dim, n, bs, box, root) + tail ==
            [Word("tree")] + ([Int(dim)] + ([Int(n)] + ([Int(bs)] + (Reals(box.lo) + (Reals(box.hi) + (RootTokens(root) + tail))))))
  {
    hide Reals, RootTokens;
    var a := Reals(box.lo) + (Reals(box.hi) + RootTokens(root));
    Assoc([Word("tree")], [Int(dim)] + ([Int(n)] + ([Int(bs)] + a)), tail);
    Assoc([Int(dim)], [Int(n)] + ([Int(bs)] + a), tail);
    Assoc([Int(n)], [Int(bs)] + a, tail);
    Assoc([Int(bs)], a, tail);
    Assoc(Reals(box.lo), Reals(box.hi) + RootTokens(root), tail);
    Assoc(Reals(box.hi), RootTokens(root), tail);
  }

  // The header line; the version is read and ignored.
  method ReadHeader(r: Reader, ghost version: string, ghost rest: seq<Token>) returns (ok: bool)
    requires r.Valid()
    modifies r
    ensures r.Valid()
    ensures old(r.Rest()) == [Word("#ANN")] + ([Word(version)] + rest) ==> ok && r.Rest() == rest
  {
    var head := WordIs(r, "#ANN", [Word(version)] + rest);
    ok := head == Some("#ANN");
    if ok {
      var _ := WordIs(r, version, rest);
    }
  }

  // Everything behind the header.
  method ReadSections(r: Reader, bd: bool, ghost want: Tree, ghost tail: seq<Token>)
    returns (t: Outcome<Tree>, pidx: array<int>, seen: nat)
    requires r.Valid() && Fits(want, bd)
    modifies r
    ensures r.Valid() && fresh(pidx)
    ensures var section := TreeSection(want.dim, |want.pts|, want.bktSize, want.box, want.root);
            && (old(r.Rest()) == PointSection(want.dim, want.pts) + (section + tail) ==>
                  t == Done(want) && r.Rest() == tail && Filled(want, pidx[..], seen))
            && (old(r.Rest()) == section + tail ==> t == Failed(NoPoints))
  {
    ghost var section := TreeSection(want.dim, |want.pts|, want.bktSize, want.box, want.root);
    ghost var bare := r.Rest() == section + tail;
    BareSection(want.dim, |want.pts|, want.bktSize, want.box, want.root, tail);
    hide PointSection, TreeSection, Buckets, Allowed;
    pidx, seen := new int[0], 0;
    var e, pts := ReadPointSection(r, want.dim, want.pts, if bare then section[1..] + tail else section + tail);
    if e.Some? {
      t := Failed(e.value);
    } else {
      t, pidx, seen := ReadTreeSection(r, bd, pts, want, tail);
    }
  }

  // Loads a dump file. A file dumped with its points is loaded back as the same tree, with the
  // buckets in preorder as its index array and every point seen; one dumped without is an error.
  method ReadDump(r: Reader, bd: bool, ghost want: Tree, ghost version: string, ghost tail: seq<Token>)
    returns (t: Outcome<Tree>, pidx: array<int>, seen: nat)
    requires r.Valid() && Fits(want, bd)
    modifies r
    ensures r.Valid() && fresh(pidx)
    ensures old(r.Rest()) == FileTokens(want, version, true) + tail ==>
              t == Done(want) && r.Rest() == tail && Filled(want, pidx[..], seen)
    ensures old(r.Rest()) == FileTokens(want, version, false) + tail ==> t == Failed(NoPoints)
  {
    FileStream(want, version, tail);
    ghost var section := TreeSection(want.dim, |want.pts|, want.bktSize, want.box, want.root);
    ghost var points := PointSection(want.dim, want.pts);
    hide FileTokens, PointSection, TreeSection, Buckets, Allowed;
    ghost var bare := r.Rest() == FileTokens(want, version, false) + tail;
    var ok := ReadHeader(r, version, if bare then section + tail else points + (section + tail));
    if !ok {
      pidx, seen := new int[0], 0;
      t := Failed(WrongHeader);
    } else {
      t, pidx, seen := ReadSections(r, bd, want, tail);
    }
  }

  lemma {:induction false} FileStream(t: Tree, version: string, tail: seq<Token>)
    ensures var section := TreeSection(t.dim, |t.pts|, t.bktSize, t.box, t.root);
            var points := PointSection(t.dim, t.pts);
            && FileTokens(t, version, true) + tail == [Word("#ANN")] + ([Word(version)] + (points + (section + tail)))
            && FileTokens(t, version, false) + tail == [Word("#ANN")] + ([Word(version)] + (section + tail))
  {
    hide PointSection, TreeSection;
    var section := TreeSection(t.dim, |t.pts|, t.bktSize, t.box, t.root);
    var points := PointSection(t.dim, t.pts);
    Assoc([Word("#ANN")], [Word(version)] + (points + section), tail);
    Assoc([Word(version)], points + section, tail);
    Assoc(points, section, tail);
    assert [] + section == section;
    Assoc([Word("#ANN")], [Word(version)] + section, tail);
    Assoc([Word(version)], section, tail);
  }

  lemma {:induction false} BareSection(dim: nat, n: nat, bs: nat, box: Box, root: Option<Node>, tail: seq<Token>)
    ensures var s := TreeSection(dim, n, bs, box, root); s != [] && s + tail == [Word("tree")] + (s[1..] + tail)
  {
    var s := TreeSection(dim, n, bs, box, root);
    assert s == [Word("tree")] + s[1..];
    Assoc([Word("tree")], s[1..], tail);
  }

  lemma {:induction false} DistinctSize(s: seq<int>)
    requires NoRepeats(s)
    ensures |set i | i in s| == |s|
  {
    var m := set i | i in s;
    if s == [] {
      assert m == {};
    } else {
      var last, rest := s[|s| - 1], s[..|s| - 1];
      DistinctSize(rest);
      assert last !in rest;
      assert s == rest + [last];
      assert m == (set i | i in rest) + {last};
    }
  }

  lemma {:induction false} BucketsSize(t: Node)
    requires Disjoint(t)
    ensures |Buckets(t)| == |Members(t)|
  {
    match t
    case Leaf(bkt) => DistinctSize(bkt);
    case Split(_, _, _, _, low, high) =>
      BucketsSize(low);
      BucketsSize(high);
    case Shrink(_, inner, outer) =>
      BucketsSize(inner);
      BucketsSize(outer);
  }

  // Every valid tree with a box survives a dump and a load, a kd-tree also as a kd-tree.
  lemma {:induction false} ValidFits(t: Tree, bd: bool)
    requires ValidTree(t) && BoxOf(t.box, t.dim) && (t.root.Some? ==> Allowed(t.root.value, bd))
    ensures Fits(t, bd)
  {
    if t.root.Some? {
      BucketsSize(t.root.value);
      RangeSize(|t.pts|);
    }
  }

  // ------------------------------------------------------------------
  // A file written out

  // Three points in two dimensions under a shrinking node: the inner box keeps what lies at or
  // below 1 on the first axis, and the outer points are cut at 5 on the second.
  function SampleTree(): Tree {
    Tree(2, [[0.0, 3.0], [1.0, 4.0], [10.0, 6.0]], 2, Box([0.0, 3.0], [10.0, 6.0]),
         Some(Shrink([BoundLists.HalfSpace(0, 1.0, -1)], Leaf([0, 1]), Split(1, 5.0, 3.0, 6.0, Leaf([]), Leaf([2])))))
  }

  // The dump of that tree with its points, word by word.
  lemma {:induction false} SampleDump(version: string)
    ensures FileTokens(SampleTree(), version, true) ==
      [Word("#ANN"), Word(version)]
      + [Word("points"), Int(2), Int(3), Int(0), Real(0.0), Real(3.0), Int(1), Real(1.0), Real(4.0), Int(2), Real(10.0), Real(6.0)]
      + [Word("tree"), Int(2), Int(3), Int(2), Real(0.0), Real(3.0), Real(10.0), Real(6.0),
         Word("shrink"), Int(1), Int(0), Real(1.0), Int(-1), Word("leaf"), Int(2), Int(0), Int(1),
         Word("split"), Int(1), Real(5.0), Real(3.0), Real(6.0), Word("leaf"), Int(0), Word("leaf"), Int(1), Int(2)]
  {
    hide PointSection, TreeSection, SampleTree;
    SampleFirst();
    SampleSecond();
    var t := SampleTree();
    Header(version, PointSection(t.dim, t.pts), TreeSection(t.dim, |t.pts|, t.bktSize, t.box, t.root));
  }

  lemma {:induction false} Header(version: string, a: seq<Token>, b: seq<Token>)
    ensures [Word("#ANN")] + ([Word(version)] + (a + b)) == [Word("#ANN"), Word(version)] + a + b
  {
  }

  lemma {:induction false} SampleFirst()
    ensures PointSection(SampleTree().dim, SampleTree().pts) ==
      [Word("points"), Int(2), Int(3), Int(0), Real(0.0), Real(3.0), Int(1), Real(1.0), Real(4.0), Int(2), Real(10.0), Real(6.0)]
  {
    SamplePoints([[0.0, 3.0], [1.0, 4.0], [10.0, 6.0]]);
    hide PointLines;
  }

  lemma {:induction false} SampleSecond()
    ensures TreeSection(SampleTree().dim, |SampleTree().pts|, SampleTree().bktSize, SampleTree().box, SampleTree().root) ==
      [Word("tree"), Int(2), Int(3), Int(2), Real(0.0), Real(3.0), Real(10.0), Real(6.0),
       Word("shrink"), Int(1), Int(0), Real(1.0), Int(-1), Word("leaf"), Int(2), Int(0), Int(1),
       Word("split"), Int(1), Real(5.0), Real(3.0), Real(6.0), Word("leaf"), Int(0), Word("leaf"), Int(1), Int(2)]
  {
    SampleNodes();
    assert Reals([0.0, 3.0]) == [Real(0.0), Real(3.0)] && Reals([10.0, 6.0]) == [Real(10.0), Real(6.0)];
    hide Dumped, Reals;
  }

  lemma {:induction false} SamplePoints(pts: seq<Point>)
    requires pts == [[0.0, 3.0], [1.0, 4.0], [10.0, 6.0]]
    ensures PointLines(pts, 0) ==
      [Int(0), Real(0.0), Real(3.0), Int(1), Real(1.0), Real(4.0), Int(2), Real(10.0), Real(6.0)]
  {
    assert PointLines(pts, 3) == [];
    assert PointLines(pts, 2) == [Int(2), Real(10.0), Real(6.0)];
    assert PointLines(pts, 1) == [Int(1), Real(1.0), Real(4.0), Int(2), Real(10.0), Real(6.0)];
  }

  lemma {:induction false} SampleNodes()
    ensures Dumped(SampleTree().root.value) ==
      [Word("shrink"), Int(1), Int(0), Real(1.0), Int(-1), Word("leaf"), Int(2), Int(0), Int(1),
       Word("split"), Int(1), Real(5.0), Real(3.0), Real(6.0), Word("leaf"), Int(0), Word("leaf"), Int(1), Int(2)]
  {
    assert Ints([]) == [] && Ints([2]) == [Int(2)] && Ints([0, 1]) == [Int(0), Int(1)];
    assert Dumped(Leaf([])) == [Word("leaf"), Int(0)];
    assert Dumped(Leaf([2])) == [Word("leaf"), Int(1), Int(2)];
    assert Dumped(Leaf([0, 1])) == [Word("leaf"), Int(2), Int(0), Int(1)];
    var cut := Split(1, 5.0, 3.0, 6.0, Leaf([]), Leaf([2]));
    assert Dumped(cut) == [Word("split"), Int(1), Real(5.0), Real(3.0), Real(6.0), Word("leaf"), Int(0), Word("leaf"), Int(1), Int(2)];
    var b := [BoundLists.HalfSpace(0, 1.0, -1)];
    assert b[1..] == [];
    assert BoundTokens(b) == [Int(0), Real(1.0), Int(-1)];
  }
}
