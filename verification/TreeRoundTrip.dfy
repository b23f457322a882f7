// Building, dumping and loading a tree in one.
module TreeRoundTrip {
  import opened Geometry
  import opened SpatialTrees
  import opened TreeBuilder
  import opened TreeRules
  import opened BdBuilder
  import opened TreeDump
  import opened TreeFile

  // A tree that is left without a box cannot be dumped, unless there is nothing of the box to print.
  lemma {:induction false} NoBoxNoDump(t: Tree)
    requires t.box == Box([], [])
    ensures BoxOf(t.box, t.dim) <==> t.dim == 0
  {
  }

  // Dumps a tree with its points and loads the dump again, as a kd- or as a bd-tree.
  method DumpThenLoad(t: Tree, bd: bool, version: string) returns (ok: bool, loaded: Outcome<Tree>, pidx: array<int>)
    requires ValidTree(t) && (t.root.Some? ==> Allowed(t.root.value, bd))
    ensures fresh(pidx) && (ok <==> BoxOf(t.box, t.dim))
    ensures ok ==> loaded == Done(t) && pidx.Length == |t.pts| && (t.root.Some? ==> pidx[..] == Buckets(t.root.value))
  {
    hide FileTokens, ValidTree, Allowed, Buckets, Fits;
    var out := new Writer();
    ok := Dump(out, t, version, true);
    loaded := Failed(Unreadable);
    pidx := new int[0];
    if ok {
      ValidFits(t, bd);
      ghost var none: seq<Token> := [];
      assert out.text == [] + FileTokens(t, version, true) == FileTokens(t, version, true) + none;
      var r := new Reader(out.text);
      var seen;
      loaded, pidx, seen := ReadDump(r, bd, t, version, none);
    }
  }

  // A kd-tree as built: it survives dump and load, with its index array, exactly when it has points; without
  // points it has no box and cannot be dumped.
  method KdRoundTrip(pts: seq<Point>, dim: nat, bs: nat, rule: SplitRule, version: string)
    returns (ok: bool, loaded: Outcome<Tree>, built: Tree, pidx: array<int>, pidx2: array<int>)
    requires Points(pts, dim) && dim > 0 && bs > 0
    ensures fresh(pidx) && fresh(pidx2) && ValidTree(built) && built.pts == pts && built.dim == dim && built.bktSize == bs
    ensures ok <==> |pts| > 0
    ensures ok ==> loaded == Done(built) && pidx2[..] == pidx[..]
  {
    hide ValidTree, Buckets, SmallBuckets, Populated;
    built, pidx := BuildKdTree(pts, dim, bs, rule);
    BuiltBox(built);
    KdAllowed(built);
    ok, loaded, pidx2 := DumpThenLoad(built, false, version);
  }

  lemma {:induction false} BuiltBox(t: Tree)
    requires ValidTree(t) && (t.root.None? ==> t.box == Box([], [])) && t.dim > 0
    ensures BoxOf(t.box, t.dim) <==> t.root.Some?
  {
    hide WellFormed, Disjoint, Members, Range;
  }

  lemma {:induction false} KdAllowed(t: Tree)
    requires t.root.Some? ==> NoShrink(t.root.value)
    ensures t.root.Some? ==> Allowed(t.root.value, false)
  {
  }

  lemma {:induction false} BdAllowed(t: Tree)
    ensures t.root.Some? ==> Allowed(t.root.value, true)
  {
  }

  // The same for a bd-tree, if building ends.
  method BdRoundTrip(pts: seq<Point>, dim: nat, bs: nat, rule: SplitRule, shrink: ShrinkRule, depth: nat, version: string)
    returns (ok: bool, loaded: Outcome<Tree>, built: Option<Tree>, pidx: array<int>, pidx2: array<int>)
    requires Points(pts, dim) && dim > 0 && bs > 0
    ensures fresh(pidx) && fresh(pidx2) && (built.Some? ==> ValidTree(built.value) && built.value.pts == pts)
    ensures ok <==> built.Some? && |pts| > 0
    ensures ok ==> loaded == Done(built.value) && pidx2[..] == pidx[..]
  {
    hide ValidTree, Buckets, SmallBuckets, Populated;
    built, pidx := BuildBdTree(pts, dim, bs, rule, shrink, depth);
    ok, loaded := false, Failed(Unreadable);
    pidx2 := new int[0];
    if built.Some? {
      BuiltBox(built.value);
      BdAllowed(built.value);
      ok, loaded, pidx2 := DumpThenLoad(built.value, true, version);
    }
  }
}
